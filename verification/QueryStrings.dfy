/** The query string of an announce: which strings are accepted, and what they mean. */
module QueryStrings {
  import opened MachineInts
  import opened Results
  import opened Decimals
  import opened Errors
  import opened Announces
  import opened Segments
  import Hex

  /** The parameters the tracker knows */
  datatype Parameter =
    | InfoHash | PeerIdentifier | Port | Uploaded | Downloaded | Left
    | Compact | EventName | Numwant | Corrupt | Key | Unknown

  function ParameterOf(name: string): Parameter {
    if name == "info_hash" then InfoHash
    else if name == "peer_id" then PeerIdentifier
    else if name == "port" then Port
    else if name == "uploaded" then Uploaded
    else if name == "downloaded" then Downloaded
    else if name == "left" then Left
    else if name == "compact" then Compact
    else if name == "event" then EventName
    else if name == "numwant" then Numwant
    else if name == "corrupt" then Corrupt
    else if name == "key" then Key
    else Unknown
  }

  /** The parameters seen so far */
  datatype Fields = Fields(
    infoHash: Option<seq<u8>>, peerId: Option<seq<u8>>, port: Option<u16>, uploaded: Option<u64>,
    downloaded: Option<u64>, left: Option<u64>, event: Option<Event>, numwant: Option<u64>,
    corrupt: Option<u64>, key: Option<string>)

  const NO_FIELDS := Fields(None, None, None, None, None, None, None, None, None, None)

  function ParseEvent(value: string): Option<Event> {
    if value == "" || value == "empty" || value == "paused" then Some(Empty)
    else if value == "completed" then Some(Completed)
    else if value == "started" then Some(Started)
    else if value == "stopped" then Some(Stopped)
    else None
  }

  function ParseU64(value: string): Option<u64> {
    match ParseUnsigned(value, U64_MAX) case Some(n) => Some(n) case None => None
  }

  function ParsePort(value: string): Option<u16> {
    match ParseUnsigned(value, U16_MAX) case Some(n) => Some(n) case None => None
  }

  /** One parameter of the scan's loop */
  function TakeField(f: Fields, name: string, value: string): Result<Fields, AnnounceError> {
    match ParameterOf(name)
    case InfoHash =>
      (match Hex.Identifier(value) case Some(v) => Ok(f.(infoHash := Some(v))) case None => Err(InvalidInfoHash))
    case PeerIdentifier =>
      (match Hex.Identifier(value) case Some(v) => Ok(f.(peerId := Some(v))) case None => Err(InvalidPeerId))
    case Port => (match ParsePort(value) case Some(v) => Ok(f.(port := Some(v))) case None => Err(InvalidPort))
    case Uploaded => (match ParseU64(value) case Some(v) => Ok(f.(uploaded := Some(v))) case None => Err(InvalidUploaded))
    case Downloaded =>
      (match ParseU64(value) case Some(v) => Ok(f.(downloaded := Some(v))) case None => Err(InvalidDownloaded))
    case Left => (match ParseU64(value) case Some(v) => Ok(f.(left := Some(v))) case None => Err(InvalidLeft))
    case Compact => if value == "1" then Ok(f) else Err(InvalidCompact)
    case EventName => (match ParseEvent(value) case Some(v) => Ok(f.(event := Some(v))) case None => Err(UnsupportedEvent))
    case Numwant => (match ParseU64(value) case Some(v) => Ok(f.(numwant := Some(v))) case None => Err(InvalidNumwant))
    case Corrupt => Ok(f.(corrupt := ParseU64(value)))
    case Key => Ok(f.(key := Some(value)))
    case Unknown => Ok(f)
  }

  function QueryReader(): Reader<Fields, AnnounceError> {
    Reader(TakeField, InvalidQueryStringKey, InvalidQueryStringValue)
  }

  // ---- What a list of parameters means ----

  predicate Acceptable(p: Pair) {
    match ParameterOf(p.0)
    case InfoHash => Hex.Identifier(p.1).Some?
    case PeerIdentifier => Hex.Identifier(p.1).Some?
    case Port => ParsePort(p.1).Some?
    case Uploaded => ParseU64(p.1).Some?
    case Downloaded => ParseU64(p.1).Some?
    case Left => ParseU64(p.1).Some?
    case Compact => p.1 == "1"
    case EventName => ParseEvent(p.1).Some?
    case Numwant => ParseU64(p.1).Some?
    case Corrupt => true
    case Key => true
    case Unknown => true
  }

  /** The last value given for a parameter */
  function LastValue(x: Parameter, ps: seq<Pair>): Option<string> {
    if ps == [] then None
    else if LastValue(x, ps[1..]).Some? then LastValue(x, ps[1..])
    else if ParameterOf(ps[0].0) == x then Some(ps[0].1)
    else None
  }

  function Parsed<T>(parse: string -> Option<T>, value: Option<string>): Option<T> {
    match value case Some(s) => parse(s) case None => None
  }

  /** What was known before counts only for parameters that do not occur */
  function Unless<T>(parse: string -> Option<T>, value: Option<string>, before: Option<T>): Option<T> {
    match value case Some(s) => parse(s) case None => before
  }

  /** Every field comes from the last value of its parameter */
  ghost function Meaning(f: Fields, ps: seq<Pair>): Fields {
    Fields(
      Unless(Hex.Identifier, LastValue(InfoHash, ps), f.infoHash),
      Unless(Hex.Identifier, LastValue(PeerIdentifier, ps), f.peerId),
      Unless(ParsePort, LastValue(Port, ps), f.port),
      Unless(ParseU64, LastValue(Uploaded, ps), f.uploaded),
      Unless(ParseU64, LastValue(Downloaded, ps), f.downloaded),
      Unless(ParseU64, LastValue(Left, ps), f.left),
      Unless(ParseEvent, LastValue(EventName, ps), f.event),
      Unless(ParseU64, LastValue(Numwant, ps), f.numwant),
      Unless(ParseU64, LastValue(Corrupt, ps), f.corrupt),
      Unless((s: string) => Some(s), LastValue(Key, ps), f.key))
  }

  lemma TakeFieldMeaning(f: Fields, p: Pair)
    ensures TakeField(f, p.0, p.1).Ok? <==> Acceptable(p)
    ensures Acceptable(p) ==> TakeField(f, p.0, p.1).value == Meaning(f, [p])
  {
    forall x: Parameter ensures LastValue(x, [p]) == if ParameterOf(p.0) == x then Some(p.1) else None {
      assert LastValue(x, [p][1..]) == None;
    }
  }

  lemma MeaningCons(f: Fields, ps: seq<Pair>)
    requires ps != []
    ensures Meaning(f, ps) == Meaning(Meaning(f, [ps[0]]), ps[1..])
  {
    forall x: Parameter
      ensures LastValue(x, ps) == if LastValue(x, ps[1..]).Some? then LastValue(x, ps[1..]) else LastValue(x, [ps[0]])
    {
      assert LastValue(x, [ps[0]][1..]) == None;
    }
  }

  /** All parameters are taken exactly if each is acceptable on its own, and then the last value counts, whatever
      the order of the others. */
  lemma {:induction false} LastValuesCount(f: Fields, ps: seq<Pair>)
    ensures TakeAll(QueryReader(), f, ps).Ok? <==> forall p :: p in ps ==> Acceptable(p)
    ensures TakeAll(QueryReader(), f, ps).Ok? ==> TakeAll(QueryReader(), f, ps).value == Meaning(f, ps)
    decreases |ps|
  {
    if ps != [] {
      TakeFieldMeaning(f, ps[0]);
      MeaningCons(f, ps);
      assert forall p :: p in ps <==> p == ps[0] || p in ps[1..];
      if Acceptable(ps[0]) {
        LastValuesCount(Meaning(f, [ps[0]]), ps[1..]);
      }
    }
  }

  // ---- Parameters by name ----

  /** The last value given under a name */
  function Named(name: string, ps: seq<Pair>): Option<string> {
    if ps == [] then None
    else if Named(name, ps[1..]).Some? then Named(name, ps[1..])
    else if ps[0].0 == name then Some(ps[0].1)
    else None
  }

  /** Each parameter has one name */
  lemma NameIff(n: string)
    ensures ParameterOf(n) == InfoHash <==> n == "info_hash"
    ensures ParameterOf(n) == PeerIdentifier <==> n == "peer_id"
    ensures ParameterOf(n) == Port <==> n == "port"
    ensures ParameterOf(n) == Uploaded <==> n == "uploaded"
    ensures ParameterOf(n) == Downloaded <==> n == "downloaded"
    ensures ParameterOf(n) == Left <==> n == "left"
    ensures ParameterOf(n) == Compact <==> n == "compact"
    ensures ParameterOf(n) == EventName <==> n == "event"
    ensures ParameterOf(n) == Numwant <==> n == "numwant"
    ensures ParameterOf(n) == Corrupt <==> n == "corrupt"
    ensures ParameterOf(n) == Key <==> n == "key"
  {
  }

  lemma {:induction false} NamedIsLast(x: Parameter, name: string, ps: seq<Pair>)
    requires forall n: string :: ParameterOf(n) == x <==> n == name
    ensures LastValue(x, ps) == Named(name, ps)
  {
    if ps != [] {
      NamedIsLast(x, name, ps[1..]);
    }
  }

  lemma ValuesByName(ps: seq<Pair>)
    ensures LastValue(InfoHash, ps) == Named("info_hash", ps)
    ensures LastValue(PeerIdentifier, ps) == Named("peer_id", ps)
    ensures LastValue(Port, ps) == Named("port", ps)
    ensures LastValue(Uploaded, ps) == Named("uploaded", ps)
    ensures LastValue(Downloaded, ps) == Named("downloaded", ps)
    ensures LastValue(Left, ps) == Named("left", ps)
    ensures LastValue(EventName, ps) == Named("event", ps)
    ensures LastValue(Numwant, ps) == Named("numwant", ps)
    ensures LastValue(Corrupt, ps) == Named("corrupt", ps)
    ensures LastValue(Key, ps) == Named("key", ps)
  {
    forall n: string
      ensures ParameterOf(n) == InfoHash <==> n == "info_hash"
      ensures ParameterOf(n) == PeerIdentifier <==> n == "peer_id"
      ensures ParameterOf(n) == Port <==> n == "port"
      ensures ParameterOf(n) == Uploaded <==> n == "uploaded"
      ensures ParameterOf(n) == Downloaded <==> n == "downloaded"
      ensures ParameterOf(n) == Left <==> n == "left"
      ensures ParameterOf(n) == EventName <==> n == "event"
      ensures ParameterOf(n) == Numwant <==> n == "numwant"
      ensures ParameterOf(n) == Corrupt <==> n == "corrupt"
      ensures ParameterOf(n) == Key <==> n == "key"
    {
      NameIff(n);
    }
    NamedIsLast(InfoHash, "info_hash", ps);
    NamedIsLast(PeerIdentifier, "peer_id", ps);
    NamedIsLast(Port, "port", ps);
    NamedIsLast(Uploaded, "uploaded", ps);
    NamedIsLast(Downloaded, "downloaded", ps);
    NamedIsLast(Left, "left", ps);
    NamedIsLast(EventName, "event", ps);
    NamedIsLast(Numwant, "numwant", ps);
    NamedIsLast(Corrupt, "corrupt", ps);
    NamedIsLast(Key, "key", ps);
  }

  /** The value can be read as what is expected under the name */
  predicate IsFit(p: Pair) {
    && (p.0 == "info_hash" || p.0 == "peer_id" ==> Hex.Identifier(p.1).Some?)
    && (p.0 == "port" ==> ParseUnsigned(p.1, 65535).Some?)
    && (p.0 == "uploaded" || p.0 == "downloaded" || p.0 == "left" || p.0 == "numwant" ==>
          ParseUnsigned(p.1, U64_MAX).Some?)
    && (p.0 == "compact" ==> p.1 == "1")
    && (p.0 == "event" ==> IsEventText(p.1))
  }

  predicate IsEventText(value: string) {
    || value == "completed" || value == "started" || value == "stopped"
    || value == "" || value == "empty" || value == "paused"
  }

  lemma FitIff(p: Pair)
    ensures Acceptable(p) <==> IsFit(p)
  {
    NameIff(p.0);
  }

  ghost predicate AllFit(ps: seq<Pair>) {
    forall p :: p in ps ==> IsFit(p)
  }

  lemma AllFitIff(ps: seq<Pair>)
    ensures AllAcceptable(ps) <==> AllFit(ps)
  {
    forall p ensures Acceptable(p) <==> IsFit(p) {
      FitIff(p);
    }
  }

  /** How an event is written; none is written in one of three ways, or not at all */
  ghost predicate SaysEvent(value: Option<string>, e: Event) {
    match e
    case Completed => value == Some("completed")
    case Started => value == Some("started")
    case Stopped => value == Some("stopped")
    case Empty => value == None || value == Some("") || value == Some("empty") || value == Some("paused")
  }

  lemma EventIff(value: string, e: Event)
    ensures ParseEvent(value) == Some(e) <==> SaysEvent(Some(value), e)
  {
  }

  ghost predicate AllAcceptable(ps: seq<Pair>) {
    forall p :: p in ps ==> Acceptable(p)
  }

  // ---- The parsed query ----

  datatype Query = Query(
    infoHash: seq<u8>, peerId: seq<u8>, port: u16, uploaded: u64, downloaded: u64, left: u64,
    event: Event, numwant: nat, corrupt: Option<u64>, key: Option<string>)

  /** Peers are never wanted on the stopped event, and never more than the maximum */
  function WantedPeers(numwant: Option<u64>, event: Event, numwantDefault: nat, numwantMax: nat): nat {
    if event == Stopped then 0 else
      var wanted: nat := match numwant case Some(n) => n case None => numwantDefault;
      Min(wanted, numwantMax)
  }

  function EventOrDefault(e: Option<Event>): Event {
    match e case Some(v) => v case None => Empty
  }

  predicate Complete(f: Fields) {
    && f.infoHash.Some? && f.peerId.Some? && f.port.Some? && f.uploaded.Some? && f.downloaded.Some? && f.left.Some?
  }

  function QueryOf(f: Fields, numwantDefault: nat, numwantMax: nat): Query
    requires Complete(f)
  {
    var event := EventOrDefault(f.event);
    Query(f.infoHash.value, f.peerId.value, f.port.value, f.uploaded.value, f.downloaded.value, f.left.value,
          event, WantedPeers(f.numwant, event, numwantDefault, numwantMax), f.corrupt, f.key)
  }

  /** The first required parameter that is missing */
  function FirstMissing(f: Fields): AnnounceError {
    if f.infoHash.None? then MissingInfoHash
    else if f.peerId.None? then MissingPeerId
    else if f.port.None? then MissingPort
    else if f.uploaded.None? then MissingUploaded
    else if f.downloaded.None? then MissingDownloaded
    else MissingLeft
  }

  /** What the tracker makes of a query string */
  ghost function Outcome(q: string, numwantDefault: nat, numwantMax: nat): Result<Query, AnnounceError> {
    match ParseSegments(QueryReader(), Split(q), NO_FIELDS)
    case Err(e) => Err(e)
    case Ok(f) => if Complete(f) then Ok(QueryOf(f, numwantDefault, numwantMax)) else Err(FirstMissing(f))
  }

  method ParseQuery(q: string, numwantDefault: nat, numwantMax: nat) returns (r: Result<Query, AnnounceError>)
    ensures r == Outcome(q, numwantDefault, numwantMax)
  {
    var scanned := Scan(QueryReader(), q, NO_FIELDS);
    match scanned {
      case Err(e) =>
        return Err(e);
      case Ok(f) =>
        if f.infoHash.None? {
          return Err(MissingInfoHash);
        }
        if f.peerId.None? {
          return Err(MissingPeerId);
        }
        if f.port.None? {
          return Err(MissingPort);
        }
        if f.uploaded.None? {
          return Err(MissingUploaded);
        }
        if f.downloaded.None? {
          return Err(MissingDownloaded);
        }
        if f.left.None? {
          return Err(MissingLeft);
        }
        r := Ok(QueryOf(f, numwantDefault, numwantMax));
    }
  }

  predicate IsRequired(x: Parameter) {
    x in [InfoHash, PeerIdentifier, Port, Uploaded, Downloaded, Left]
  }

  lemma {:induction false} LastValueOccurs(x: Parameter, ps: seq<Pair>)
    ensures LastValue(x, ps).Some? ==>
              exists p :: p in ps && ParameterOf(p.0) == x && p.1 == LastValue(x, ps).value
    ensures LastValue(x, ps).None? ==> forall p :: p in ps ==> ParameterOf(p.0) != x
  {
    if ps != [] {
      LastValueOccurs(x, ps[1..]);
      assert forall p :: p in ps <==> p == ps[0] || p in ps[1..];
    }
  }

  /** The last value of a number or of an identifier can be read */
  lemma LastValueIsAcceptable(x: Parameter, ps: seq<Pair>)
    requires AllAcceptable(ps) && LastValue(x, ps).Some?
    ensures x == InfoHash || x == PeerIdentifier ==> Hex.Identifier(LastValue(x, ps).value).Some?
    ensures x == Port ==> ParsePort(LastValue(x, ps).value).Some?
    ensures x == Uploaded || x == Downloaded || x == Left ==> ParseU64(LastValue(x, ps).value).Some?
  {
    LastValueOccurs(x, ps);
    var p :| p in ps && ParameterOf(p.0) == x && p.1 == LastValue(x, ps).value;
    assert Acceptable(p);
  }

  predicate Given(x: Parameter, f: Fields) {
    match x
    case InfoHash => f.infoHash.Some?
    case PeerIdentifier => f.peerId.Some?
    case Port => f.port.Some?
    case Uploaded => f.uploaded.Some?
    case Downloaded => f.downloaded.Some?
    case Left => f.left.Some?
    case _ => true
  }

  lemma GivenIff(x: Parameter, ps: seq<Pair>)
    requires AllAcceptable(ps) && IsRequired(x)
    ensures Given(x, Meaning(NO_FIELDS, ps)) <==> LastValue(x, ps).Some?
  {
    if LastValue(x, ps).Some? {
      LastValueIsAcceptable(x, ps);
    }
  }

  lemma CompleteIffGiven(f: Fields)
    ensures Complete(f) <==> forall x: Parameter :: IsRequired(x) ==> Given(x, f)
  {
    assert IsRequired(InfoHash) && IsRequired(PeerIdentifier) && IsRequired(Port) && IsRequired(Uploaded)
           && IsRequired(Downloaded) && IsRequired(Left);
  }

  lemma CompleteIff(ps: seq<Pair>)
    requires AllAcceptable(ps)
    ensures Complete(Meaning(NO_FIELDS, ps)) <==> forall x: Parameter :: IsRequired(x) ==> LastValue(x, ps).Some?
  {
    CompleteIffGiven(Meaning(NO_FIELDS, ps));
    forall x: Parameter | IsRequired(x)
      ensures Given(x, Meaning(NO_FIELDS, ps)) <==> LastValue(x, ps).Some?
    {
      GivenIff(x, ps);
    }
  }

  /** Each of the first `m` segments is an acceptable parameter, the others are blank, and no required parameter
      is missing. */
  ghost predicate IsQuery(segs: seq<string>, m: nat) {
    Structured(segs, m) && AllFit(PairsOf(segs[..m])) && NoneMissing(PairsOf(segs[..m]))
  }

  ghost predicate NoneMissing(ps: seq<Pair>) {
    && Named("info_hash", ps).Some? && Named("peer_id", ps).Some? && Named("port", ps).Some?
    && Named("uploaded", ps).Some? && Named("downloaded", ps).Some? && Named("left", ps).Some?
  }

  lemma NoneMissingIff(ps: seq<Pair>)
    ensures NoneMissing(ps) <==> forall x: Parameter :: IsRequired(x) ==> LastValue(x, ps).Some?
  {
    ValuesByName(ps);
    assert IsRequired(InfoHash) && IsRequired(PeerIdentifier) && IsRequired(Port) && IsRequired(Uploaded)
           && IsRequired(Downloaded) && IsRequired(Left);
  }

  lemma ScannedWhenStructured(q: string, m: nat)
    requires Structured(Split(q), m)
    ensures var ps := PairsOf(Split(q)[..m]);
            var scanned := ParseSegments(QueryReader(), Split(q), NO_FIELDS);
            && (scanned.Ok? <==> AllAcceptable(ps))
            && (scanned.Ok? ==> scanned.value == Meaning(NO_FIELDS, ps))
  {
    StructuredYieldsPairs(QueryReader(), Split(q), m, NO_FIELDS);
    LastValuesCount(NO_FIELDS, PairsOf(Split(q)[..m]));
  }

  /** The last values of a structured query make up its meaning */
  lemma StructuredOutcome(q: string, numwantDefault: nat, numwantMax: nat, m: nat)
    requires Structured(Split(q), m)
    ensures Outcome(q, numwantDefault, numwantMax).Ok? <==> IsQuery(Split(q), m)
    ensures IsQuery(Split(q), m) ==>
              var f := Meaning(NO_FIELDS, PairsOf(Split(q)[..m]));
              Complete(f) && Outcome(q, numwantDefault, numwantMax) == Ok(QueryOf(f, numwantDefault, numwantMax))
  {
    var ps := PairsOf(Split(q)[..m]);
    ScannedWhenStructured(q, m);
    AllFitIff(ps);
    NoneMissingIff(ps);
    if AllAcceptable(ps) {
      CompleteIff(ps);
    }
  }

  /** A query string is accepted exactly if it is well structured, every parameter in it is acceptable and no
      required one is missing. */
  lemma QueryAcceptedIff(q: string, numwantDefault: nat, numwantMax: nat)
    ensures Outcome(q, numwantDefault, numwantMax).Ok? <==> exists m: nat :: IsQuery(Split(q), m)
  {
    if m: nat :| Structured(Split(q), m) {
      StructuredOutcome(q, numwantDefault, numwantMax, m);
      forall n: nat | IsQuery(Split(q), n) ensures n == m {
        StructuredUnique(Split(q), m, n);
      }
    } else {
      UnstructuredOutcome(q, numwantDefault, numwantMax);
    }
  }

  lemma UnstructuredOutcome(q: string, numwantDefault: nat, numwantMax: nat)
    requires forall m: nat :: !Structured(Split(q), m)
    ensures Outcome(q, numwantDefault, numwantMax).Err?
  {
    UnstructuredFails(QueryReader(), Split(q), NO_FIELDS);
  }

  // ---- What clients write ----

  /** The parameters say what the query says, in any order and among any others: identifiers in any mix of literal
      bytes and escapes, numbers in decimal. */
  ghost predicate Encodes(ps: seq<Pair>, infoHash: seq<Hex.Unit>, peerId: seq<Hex.Unit>, x: Query) {
    && (forall u :: u in infoHash ==> Hex.ValidUnit(u)) && |infoHash| == Hex.LENGTH
    && (forall u :: u in peerId ==> Hex.ValidUnit(u)) && |peerId| == Hex.LENGTH
    && Hex.BytesOf(infoHash) == x.infoHash && Named("info_hash", ps) == Some(Hex.Spelling(infoHash))
    && Hex.BytesOf(peerId) == x.peerId && Named("peer_id", ps) == Some(Hex.Spelling(peerId))
    && Named("port", ps) == Some(Dec(x.port))
    && Named("uploaded", ps) == Some(Dec(x.uploaded))
    && Named("downloaded", ps) == Some(Dec(x.downloaded))
    && Named("left", ps) == Some(Dec(x.left))
    && SaysEvent(Named("event", ps), x.event)
    && Parsed(ParseU64, Named("corrupt", ps)) == x.corrupt
    && Named("key", ps) == x.key
  }

  /** Whatever a client encodes is read back. Of the peers it wants it gets at most the maximum, and the default if it does
      not say; and none when it stops. */
  lemma EncodedQueryIsRead(
      ps: seq<Pair>, infoHash: seq<Hex.Unit>, peerId: seq<Hex.Unit>, x: Query, numwantDefault: nat, numwantMax: nat)
    requires forall p :: p in ps ==> Clean(p.0) && Clean(p.1)
    requires AllFit(ps) && Encodes(ps, infoHash, peerId, x)
    ensures var wanted := Parsed(ParseU64, Named("numwant", ps));
            Outcome(Print(ps), numwantDefault, numwantMax)
            == Ok(x.(numwant := if x.event == Stopped then 0
                                else if wanted.Some? then Min(wanted.value, numwantMax)
                                else Min(numwantDefault, numwantMax)))
  {
    AllFitIff(ps);
    ValuesByName(ps);
    PrintThenScan(QueryReader(), ps, NO_FIELDS);
    LastValuesCount(NO_FIELDS, ps);
    Hex.IdentifierRoundTrip(infoHash);
    Hex.IdentifierRoundTrip(peerId);
    ParseOfDec(x.port, U16_MAX);
    ParseOfDec(x.uploaded, U64_MAX);
    ParseOfDec(x.downloaded, U64_MAX);
    ParseOfDec(x.left, U64_MAX);
    LastEventIs(ps, x.event);
  }

  lemma LastEventIs(ps: seq<Pair>, e: Event)
    requires SaysEvent(LastValue(EventName, ps), e)
    ensures EventOrDefault(Meaning(NO_FIELDS, ps).event) == e
  {
    if LastValue(EventName, ps).Some? {
      EventIff(LastValue(EventName, ps).value, e);
    }
  }

  // ---- What is wrong with a query ----

  /** The segments are parameters that can be read, and there is one equal sign in each */
  ghost predicate AreInOrder(segs: seq<string>) {
    forall i :: 0 <= i < |segs| ==> HasEqual(segs[i]) && !HasTwoEquals(segs[i]) && IsFit((Name(segs[i]), ValueOf(segs[i])))
  }

  /** A segment without an equal sign is reported as a bad value if a later one has any, and a parameter with two as a bad
      name if anything follows. */
  lemma {:induction false} BadSegmentIsReported(segs: seq<string>, f: Fields, i: nat)
    requires i < |segs| && AreInOrder(segs[..i])
    ensures !HasEqual(segs[i]) && !NoneHasEqual(segs[i..]) ==>
              ParseSegments(QueryReader(), segs, f) == Err(InvalidQueryStringValue)
    ensures HasTwoEquals(segs[i]) && IsFit((Name(segs[i]), ValueOf(segs[i]))) && i < |segs| - 1 ==>
              ParseSegments(QueryReader(), segs, f) == Err(InvalidQueryStringKey)
    decreases i
  {
    if i == 0 {
      assert segs[0..] == segs;
      if HasTwoEquals(segs[0]) && IsFit((Name(segs[0]), ValueOf(segs[0]))) {
        FitIsTaken(f, (Name(segs[0]), ValueOf(segs[0])));
      }
    } else {
      var p := (Name(segs[0]), ValueOf(segs[0]));
      assert segs[..i][0] == segs[0];
      FitIsTaken(f, p);
      assert segs[1..][..i - 1] == segs[..i][1..] && segs[1..][i - 1..] == segs[i..];
      BadSegmentIsReported(segs[1..], TakeField(f, p.0, p.1).value, i - 1);
    }
  }

  lemma GivenByName(f: Fields, ps: seq<Pair>)
    requires Given(InfoHash, f) <==> LastValue(InfoHash, ps).Some?
    requires Given(PeerIdentifier, f) <==> LastValue(PeerIdentifier, ps).Some?
    requires Given(Port, f) <==> LastValue(Port, ps).Some?
    requires Given(Uploaded, f) <==> LastValue(Uploaded, ps).Some?
    requires Given(Downloaded, f) <==> LastValue(Downloaded, ps).Some?
    requires Given(Left, f) <==> LastValue(Left, ps).Some?
    ensures f.infoHash.Some? <==> Named("info_hash", ps).Some?
    ensures f.peerId.Some? <==> Named("peer_id", ps).Some?
    ensures f.port.Some? <==> Named("port", ps).Some?
    ensures f.uploaded.Some? <==> Named("uploaded", ps).Some?
    ensures f.downloaded.Some? <==> Named("downloaded", ps).Some?
    ensures f.left.Some? <==> Named("left", ps).Some?
  {
    ValuesByName(ps);
  }

  /** If a required parameter is missing, the first one that is gets reported */
  lemma MissingIsReported(q: string, numwantDefault: nat, numwantMax: nat, m: nat)
    requires Structured(Split(q), m) && AllFit(PairsOf(Split(q)[..m])) && !NoneMissing(PairsOf(Split(q)[..m]))
    ensures var ps := PairsOf(Split(q)[..m]);
            Outcome(q, numwantDefault, numwantMax) == Err(
              if Named("info_hash", ps).None? then MissingInfoHash
              else if Named("peer_id", ps).None? then MissingPeerId
              else if Named("port", ps).None? then MissingPort
              else if Named("uploaded", ps).None? then MissingUploaded
              else if Named("downloaded", ps).None? then MissingDownloaded
              else MissingLeft)
  {
    var ps := PairsOf(Split(q)[..m]);
    ScannedWhenStructured(q, m);
    AllFitIff(ps);
    GivenIff(InfoHash, ps);
    GivenIff(PeerIdentifier, ps);
    GivenIff(Port, ps);
    GivenIff(Uploaded, ps);
    GivenIff(Downloaded, ps);
    GivenIff(Left, ps);
    GivenByName(Meaning(NO_FIELDS, ps), ps);
  }

  /** What is reported of a value that cannot be read */
  ghost predicate IsErrorFor(p: Pair, e: AnnounceError) {
    && (p.0 == "info_hash" ==> e == InvalidInfoHash) && (p.0 == "peer_id" ==> e == InvalidPeerId)
    && (p.0 == "port" ==> e == InvalidPort) && (p.0 == "uploaded" ==> e == InvalidUploaded)
    && (p.0 == "downloaded" ==> e == InvalidDownloaded) && (p.0 == "left" ==> e == InvalidLeft)
    && (p.0 == "compact" ==> e == InvalidCompact) && (p.0 == "event" ==> e == UnsupportedEvent)
    && (p.0 == "numwant" ==> e == InvalidNumwant)
  }

  lemma UnfitIsRefused(f: Fields, p: Pair)
    requires !IsFit(p)
    ensures TakeField(f, p.0, p.1).Err? && IsErrorFor(p, TakeField(f, p.0, p.1).error)
  {
    NameIff(p.0);
    FitIff(p);
  }

  lemma FitIsTaken(f: Fields, p: Pair)
    requires IsFit(p)
    ensures TakeField(f, p.0, p.1).Ok?
  {
    FitIff(p);
    TakeFieldMeaning(f, p);
  }

  lemma {:induction false} FirstUnfitDecides(f: Fields, ps: seq<Pair>, i: nat)
    requires i < |ps| && !IsFit(ps[i]) && forall j :: 0 <= j < i ==> IsFit(ps[j])
    ensures TakeAll(QueryReader(), f, ps).Err? && IsErrorFor(ps[i], TakeAll(QueryReader(), f, ps).error)
    decreases i
  {
    if i == 0 {
      UnfitIsRefused(f, ps[0]);
    } else {
      FitIsTaken(f, ps[0]);
      FirstUnfitDecides(TakeField(f, ps[0].0, ps[0].1).value, ps[1..], i - 1);
    }
  }

  /** The first value that cannot be read is reported, whatever is wrong behind it or missing */
  lemma UnfitIsReported(q: string, numwantDefault: nat, numwantMax: nat, m: nat, i: nat)
    requires Structured(Split(q), m)
    requires var ps := PairsOf(Split(q)[..m]);
             i < |ps| && !IsFit(ps[i]) && forall j :: 0 <= j < i ==> IsFit(ps[j])
    ensures Outcome(q, numwantDefault, numwantMax).Err?
    ensures IsErrorFor(PairsOf(Split(q)[..m])[i], Outcome(q, numwantDefault, numwantMax).error)
  {
    StructuredYieldsPairs(QueryReader(), Split(q), m, NO_FIELDS);
    FirstUnfitDecides(NO_FIELDS, PairsOf(Split(q)[..m]), i);
  }
}
