/** The bencoded bodies sent to clients, for accepted announces and for errors. */
module Replies {
  import opened Results
  import opened Decimals
  import opened Bencode
  import opened Errors

  datatype AnnounceReply = AnnounceReply(
    complete: nat, downloaded: nat, incomplete: nat, interval: nat, minInterval: nat,
    peers: string, peers6: string, warning: Option<string>)

  function CountFields(r: AnnounceReply): Dict {
    [("complete", Num(r.complete)), ("downloaded", Num(r.downloaded)), ("incomplete", Num(r.incomplete)),
     ("interval", Num(r.interval)), ("min interval", Num(r.minInterval)), ("peers", Bytes(r.peers))]
  }

  function Peers6Fields(r: AnnounceReply): Dict {
    if r.peers6 == "" then [] else [("peers6", Bytes(r.peers6))]
  }

  function WarningFields(r: AnnounceReply): Dict {
    match r.warning
    case Some(message) => [("warning message", Bytes(message))]
    case None => []
  }

  /** What a successful announce tells the client */
  function ReplyFields(r: AnnounceReply): Dict {
    CountFields(r) + Peers6Fields(r) + WarningFields(r)
  }

  /** Seconds a client is told to wait after an error */
  function RetryInterval(e: AnnounceError): nat {
    if e.TorrentIsPendingModeration? || e.TorrentIsPostponed? || e.TorrentIsRejected? then 30 else 5400
  }

  /** What an error tells the client: critical warnings look like an empty swarm */
  function ErrorFields(e: AnnounceError): Dict {
    if IsCriticalWarning(e) then
      ReplyFields(AnnounceReply(0, 0, 0, RetryInterval(e), RetryInterval(e), "", "", Some(Errors.Text(e))))
    else
      [("failure reason", Bytes(Errors.Text(e))), ("interval", Num(5400)), ("min interval", Num(5400))]
  }

  lemma KeyOrder()
    ensures Less("complete", "downloaded")
    ensures Less("downloaded", "incomplete")
    ensures Less("incomplete", "interval")
    ensures Less("interval", "min interval")
    ensures Less("min interval", "peers")
    ensures Less("peers", "peers6")
    ensures Less("peers", "warning message")
    ensures Less("peers6", "warning message")
    ensures Less("failure reason", "interval")
  {
    assert LessAt("complete", "downloaded", 0);
    assert LessAt("downloaded", "incomplete", 0);
    assert LessAt("incomplete", "interval", 2);
    assert LessAt("interval", "min interval", 0);
    assert LessAt("min interval", "peers", 0);
    assert LessAt("peers", "peers6", 5);
    assert LessAt("peers", "warning message", 0);
    assert LessAt("peers6", "warning message", 0);
    assert LessAt("failure reason", "interval", 0);
  }

  lemma RepliesAreSorted(r: AnnounceReply)
    ensures Sorted(ReplyFields(r))
  {
    KeyOrder();
  }

  lemma ErrorsAreSorted(e: AnnounceError)
    ensures Sorted(ErrorFields(e))
  {
    KeyOrder();
    if IsCriticalWarning(e) {
      RepliesAreSorted(AnnounceReply(0, 0, 0, RetryInterval(e), RetryInterval(e), "", "", Some(Errors.Text(e))));
    }
  }

  // ---- The bodies are written piece by piece; the pieces straddle the fields they write ----

  /** Everything up to an integer still lacking its closing letter */
  ghost predicate OpenInt(response: string, d: Dict) {
    response + "e" == "d" + EncFields(d)
  }

  ghost predicate Closed(response: string, d: Dict) {
    response == "d" + EncFields(d)
  }

  lemma RegroupInt(response: string, key: string, n: string)
    ensures response + ("e" + key + "i") + n + "e" == (response + "e") + (key + ("i" + n + "e"))
  {
  }

  lemma RegroupString(response: string, key: string, s: string)
    ensures response + ("e" + key) + s == (response + "e") + (key + s)
  {
  }

  lemma ExtendInt(response: string, d: Dict, piece: string, key: string, n: nat)
    requires OpenInt(response, d) && piece == "e" + EncStr(key) + "i"
    ensures OpenInt(response + piece + Dec(n), d + [(key, Num(n))])
  {
    EncFieldsSnoc(d, key, Num(n));
    RegroupInt(response, EncStr(key), Dec(n));
    Associate("d", EncFields(d), EncStr(key) + ("i" + Dec(n) + "e"));
  }

  lemma FirstInt(piece: string, key: string, n: nat)
    requires piece == "d" + EncStr(key) + "i"
    ensures OpenInt(piece + Dec(n), [(key, Num(n))])
  {
    EncField1(key, Num(n));
    RegroupFirst(EncStr(key), Dec(n));
  }

  lemma RegroupFirst(key: string, n: string)
    ensures ("d" + key + "i") + n + "e" == "d" + (key + ("i" + n + "e"))
  {
  }

  lemma CloseWithString(response: string, d: Dict, piece: string, key: string, s: string)
    requires OpenInt(response, d) && piece == "e" + EncStr(key)
    ensures Closed(response + piece + EncStr(s), d + [(key, Bytes(s))])
  {
    EncFieldsSnoc(d, key, Bytes(s));
    RegroupString(response, EncStr(key), EncStr(s));
    Associate("d", EncFields(d), EncStr(key) + EncStr(s));
  }

  lemma ExtendString(response: string, d: Dict, key: string, s: string)
    requires Closed(response, d)
    ensures Closed(response + EncStr(key) + EncStr(s), d + [(key, Bytes(s))])
  {
    EncFieldsSnoc(d, key, Bytes(s));
    Associate(response, EncStr(key), EncStr(s));
    Associate("d", EncFields(d), EncStr(key) + EncStr(s));
  }

  lemma SmallDecs()
    ensures Dec(0) == "0" && Dec(5) == "5" && Dec(6) == "6" && Dec(8) == "8"
    ensures Dec(10) == "10" && Dec(12) == "12" && Dec(14) == "14" && Dec(15) == "15" && Dec(30) == "30"
    ensures Dec(5400) == "5400"
  {
    assert Dec(1) == "1" && Dec(3) == "3";
    assert Dec(54) == "54";
    assert Dec(540) == "540";
  }

  // The literal pieces of the bodies are the framing of their keys

  lemma CompletePiece() ensures "d8:completei" == "d" + EncStr("complete") + "i" { SmallDecs(); }

  lemma DownloadedPiece() ensures "e10:downloadedi" == "e" + EncStr("downloaded") + "i" { SmallDecs(); }

  lemma IncompletePiece() ensures "e10:incompletei" == "e" + EncStr("incomplete") + "i" { SmallDecs(); }

  lemma IntervalPiece() ensures "e8:intervali" == "e" + EncStr("interval") + "i" { SmallDecs(); }

  lemma MinIntervalPiece() ensures "e12:min intervali" == "e" + EncStr("min interval") + "i" { SmallDecs(); }

  lemma PeersPiece() ensures "e5:peers" == "e" + EncStr("peers") && EncStr("") == "0:" { SmallDecs(); }

  lemma Peers6Piece() ensures "6:peers6" == EncStr("peers6") { SmallDecs(); }

  lemma WarningPiece() ensures "15:warning message" == EncStr("warning message") { SmallDecs(); }

  /** The body of an accepted announce: one bencoded dictionary of exactly the reply's fields */
  method AnnounceBody(r: AnnounceReply) returns (response: string)
    ensures response == Enc(ReplyFields(r))
    ensures Decode(response) == Some(ReplyFields(r))
  {
    CompletePiece();
    response := "d8:completei";
    response := response + Dec(r.complete);
    FirstInt("d8:completei", "complete", r.complete);
    response := CountsBody(response, r);
    response := Peers6Body(response, r);
    response := WarningBody(response, r);
    response := response + "e";
    RepliesAreSorted(r);
    DecodeOfEnc(ReplyFields(r));
  }

  method CountsBody(start: string, r: AnnounceReply) returns (response: string)
    requires OpenInt(start, [("complete", Num(r.complete))])
    ensures Closed(response, CountFields(r))
  {
    DownloadedPiece();
    response := start + "e10:downloadedi";
    response := response + Dec(r.downloaded);
    ghost var d := [("complete", Num(r.complete))];
    ExtendInt(start, d, "e10:downloadedi", "downloaded", r.downloaded);
    d := d + [("downloaded", Num(r.downloaded))];

    IncompletePiece();
    ExtendInt(response, d, "e10:incompletei", "incomplete", r.incomplete);
    response := response + "e10:incompletei";
    response := response + Dec(r.incomplete);
    d := d + [("incomplete", Num(r.incomplete))];

    IntervalPiece();
    ExtendInt(response, d, "e8:intervali", "interval", r.interval);
    response := response + "e8:intervali";
    response := response + Dec(r.interval);
    d := d + [("interval", Num(r.interval))];

    MinIntervalPiece();
    ExtendInt(response, d, "e12:min intervali", "min interval", r.minInterval);
    response := response + "e12:min intervali";
    response := response + Dec(r.minInterval);
    d := d + [("min interval", Num(r.minInterval))];

    PeersPiece();
    CloseWithString(response, d, "e5:peers", "peers", r.peers);
    response := response + "e5:peers";
    if r.peers == "" {
      response := response + "0:";
    } else {
      response := response + (Dec(|r.peers|) + ":" + r.peers);
    }
    assert d + [("peers", Bytes(r.peers))] == CountFields(r);
  }

  method Peers6Body(start: string, r: AnnounceReply) returns (response: string)
    requires Closed(start, CountFields(r))
    ensures Closed(response, CountFields(r) + Peers6Fields(r))
  {
    response := start;
    if r.peers6 != "" {
      Peers6Piece();
      ExtendString(start, CountFields(r), "peers6", r.peers6);
      response := response + "6:peers6";
      response := response + (Dec(|r.peers6|) + ":" + r.peers6);
    } else {
      assert CountFields(r) + [] == CountFields(r);
    }
  }

  method WarningBody(start: string, r: AnnounceReply) returns (response: string)
    requires Closed(start, CountFields(r) + Peers6Fields(r))
    ensures Closed(response, ReplyFields(r))
  {
    response := start;
    ghost var d := CountFields(r) + Peers6Fields(r);
    if r.warning.Some? {
      WarningPiece();
      ExtendString(start, d, "warning message", r.warning.value);
      response := response + "15:warning message";
      response := response + (Dec(|r.warning.value|) + ":" + r.warning.value);
    } else {
      assert d + [] == d;
    }
  }

  // ---- Error bodies ----

  lemma NumPiece(key: string, n: nat)
    ensures EncFields([(key, Num(n))]) == EncStr(key) + ("i" + Dec(n) + "e")
  {
    EncField1(key, Num(n));
  }

  lemma CompleteZero() ensures "8:completei0e" == EncFields([("complete", Num(0))]) {
    SmallDecs();
    NumPiece("complete", 0);
  }

  lemma DownloadedZero() ensures "10:downloadedi0e" == EncFields([("downloaded", Num(0))]) {
    SmallDecs();
    NumPiece("downloaded", 0);
  }

  lemma IncompleteZero() ensures "10:incompletei0e" == EncFields([("incomplete", Num(0))]) {
    SmallDecs();
    NumPiece("incomplete", 0);
  }

  lemma ZeroCountsLiteral()
    ensures "8:completei0e" + "10:downloadedi0e" + "10:incompletei0e" == "8:completei0e10:downloadedi0e10:incompletei0e"
  {
  }

  function ZeroCounts(): Dict {
    [("complete", Num(0)), ("downloaded", Num(0)), ("incomplete", Num(0))]
  }

  lemma EncFields3(x: (string, Field), y: (string, Field), z: (string, Field))
    ensures EncFields([x, y, z]) == EncFields([x]) + EncFields([y]) + EncFields([z])
  {
    EncFieldsConcat([x], [y]);
    EncFieldsConcat([x] + [y], [z]);
    assert [x] + [y] + [z] == [x, y, z];
  }

  lemma EncFields2(x: (string, Field), y: (string, Field))
    ensures EncFields([x, y]) == EncFields([x]) + EncFields([y])
  {
    EncFieldsConcat([x], [y]);
    assert [x] + [y] == [x, y];
  }

  lemma ZeroCountsPiece()
    ensures "8:completei0e10:downloadedi0e10:incompletei0e" == EncFields(ZeroCounts())
  {
    CompleteZero();
    DownloadedZero();
    IncompleteZero();
    ZeroCountsLiteral();
    EncFields3(("complete", Num(0)), ("downloaded", Num(0)), ("incomplete", Num(0)));
  }

  function IntervalFields(n: nat): Dict {
    [("interval", Num(n)), ("min interval", Num(n))]
  }

  lemma IntervalFieldsPiece(n: nat)
    ensures EncFields(IntervalFields(n)) == EncStr("interval") + ("i" + Dec(n) + "e") + (EncStr("min interval") + ("i" + Dec(n) + "e"))
  {
    NumPiece("interval", n);
    NumPiece("min interval", n);
    EncFieldsConcat([("interval", Num(n))], [("min interval", Num(n))]);
    assert [("interval", Num(n))] + [("min interval", Num(n))] == IntervalFields(n);
  }

  lemma Interval30() ensures "8:intervali30e" == EncStr("interval") + ("i" + Dec(30) + "e") {
    SmallDecs();
  }

  lemma MinInterval30() ensures "12:min intervali30e" == EncStr("min interval") + ("i" + Dec(30) + "e") {
    SmallDecs();
  }

  lemma Interval5400() ensures "8:intervali5400e" == EncStr("interval") + ("i" + Dec(5400) + "e") {
    SmallDecs();
  }

  lemma MinInterval5400() ensures "12:min intervali5400e" == EncStr("min interval") + ("i" + Dec(5400) + "e") {
    SmallDecs();
  }

  lemma IntervalLiterals()
    ensures "8:intervali30e" + "12:min intervali30e" == "8:intervali30e12:min intervali30e"
    ensures "8:intervali5400e" + "12:min intervali5400e" == "8:intervali5400e12:min intervali5400e"
  {
  }

  lemma ShortInterval()
    ensures "8:intervali30e12:min intervali30e" == EncFields(IntervalFields(30))
  {
    Interval30();
    MinInterval30();
    IntervalLiterals();
    IntervalFieldsPiece(30);
  }

  lemma LongInterval()
    ensures "8:intervali5400e12:min intervali5400e" == EncFields(IntervalFields(5400))
  {
    Interval5400();
    MinInterval5400();
    IntervalLiterals();
    IntervalFieldsPiece(5400);
  }

  lemma PeersNone()
    ensures EncFields([("peers", Bytes(""))]) == "5:peers0:"
  {
    SmallDecs();
    EncField1("peers", Bytes(""));
  }

  lemma NoPeersLiteral()
    ensures "5:peers0:" + "15:warning message" == "5:peers0:15:warning message"
  {
  }

  function NoPeersFields(text: string): Dict {
    [("peers", Bytes("")), ("warning message", Bytes(text))]
  }

  lemma NoPeersPiece(text: string)
    ensures "5:peers0:15:warning message" + EncStr(text) == EncFields(NoPeersFields(text))
  {
    PeersNone();
    WarningPiece();
    NoPeersLiteral();
    EncField1("warning message", Bytes(text));
    EncFields2(("peers", Bytes("")), ("warning message", Bytes(text)));
    Associate("5:peers0:", "15:warning message", EncStr(text));
  }

  lemma Assemble(a: Dict, b: Dict, c: Dict)
    ensures "d" + EncFields(a) + EncFields(b) + EncFields(c) + "e" == Enc(a + b + c)
  {
    EncFieldsConcat(a, b);
    EncFieldsConcat(a + b, c);
    Associate("d", EncFields(a), EncFields(b));
    Associate("d", EncFields(a) + EncFields(b), EncFields(c));
  }

  method CriticalBody(e: AnnounceError) returns (response: string)
    requires IsCriticalWarning(e)
    ensures response == Enc(ErrorFields(e))
  {
    response := "d" + "8:completei0e10:downloadedi0e10:incompletei0e";
    ZeroCountsPiece();
    ghost var start := response;
    var text := Errors.Text(e);
    match e {
      case TorrentIsPendingModeration => response := response + "8:intervali30e12:min intervali30e"; ShortInterval();
      case TorrentIsPostponed => response := response + "8:intervali30e12:min intervali30e"; ShortInterval();
      case TorrentIsRejected => response := response + "8:intervali30e12:min intervali30e"; ShortInterval();
      case _ => response := response + "8:intervali5400e12:min intervali5400e"; LongInterval();
    }
    assert response == start + EncFields(IntervalFields(RetryInterval(e)));
    response := CriticalRest(e, response);
  }

  method CriticalRest(e: AnnounceError, start: string) returns (response: string)
    requires IsCriticalWarning(e)
    requires start == "d" + EncFields(ZeroCounts()) + EncFields(IntervalFields(RetryInterval(e)))
    ensures response == Enc(ErrorFields(e))
  {
    var text := Errors.Text(e);
    response := start + "5:peers0:15:warning message";
    response := response + (Dec(|text|) + ":" + text);
    response := response + "e";
    CriticalEnd(start, response, text, RetryInterval(e));
  }

  lemma CriticalEnd(start: string, response: string, text: string, n: nat)
    requires start == "d" + EncFields(ZeroCounts()) + EncFields(IntervalFields(n))
    requires response == start + "5:peers0:15:warning message" + EncStr(text) + "e"
    ensures response == Enc(ReplyFields(AnnounceReply(0, 0, 0, n, n, "", "", Some(text))))
  {
    NoPeersPiece(text);
    Associate(start, "5:peers0:15:warning message", EncStr(text));
    Assemble(ZeroCounts(), IntervalFields(n), NoPeersFields(text));
    assert ZeroCounts() + IntervalFields(n) + NoPeersFields(text)
        == ReplyFields(AnnounceReply(0, 0, 0, n, n, "", "", Some(text)));
  }

  method FailureBody(e: AnnounceError) returns (response: string)
    requires !IsCriticalWarning(e)
    ensures response == Enc(ErrorFields(e))
  {
    var text := Errors.Text(e);
    response := "d14:failure reason";
    response := response + (Dec(|text|) + ":" + text);
    FailurePiece(response, text);
    ghost var start := response;
    response := FailureIntervals(e, response);
    FailureEnd(start, response, text);
    assert ErrorFields(e) == [("failure reason", Bytes(text))] + IntervalFields(5400);
  }

  /** The three moderation states are critical warnings, so the short interval is never written here */
  method FailureIntervals(e: AnnounceError, start: string) returns (response: string)
    requires !IsCriticalWarning(e)
    ensures response == start + "8:intervali5400e12:min intervali5400ee"
  {
    match e {
      case TorrentIsPendingModeration => response := start + "8:intervali30e12:min intervali30ee";
      case TorrentIsPostponed => response := start + "8:intervali30e12:min intervali30ee";
      case TorrentIsRejected => response := start + "8:intervali30e12:min intervali30ee";
      case _ => response := start + "8:intervali5400e12:min intervali5400ee";
    }
  }

  lemma FailureEnd(start: string, response: string, text: string)
    requires start == "d" + EncFields([("failure reason", Bytes(text))])
    requires response == start + "8:intervali5400e12:min intervali5400ee"
    ensures response == Enc([("failure reason", Bytes(text))] + IntervalFields(5400))
  {
    LongInterval();
    LongIntervalLiteral();
    EncFieldsConcat([("failure reason", Bytes(text))], IntervalFields(5400));
    Associate(start, EncFields(IntervalFields(5400)), "e");
    Associate("d", EncFields([("failure reason", Bytes(text))]), EncFields(IntervalFields(5400)));
  }

  lemma LongIntervalLiteral()
    ensures "8:intervali5400e12:min intervali5400e" + "e" == "8:intervali5400e12:min intervali5400ee"
  {
  }

  lemma FailureKey()
    ensures "d14:failure reason" == "d" + EncStr("failure reason")
  {
    SmallDecs();
  }

  lemma FailurePiece(start: string, text: string)
    requires start == "d14:failure reason" + EncStr(text)
    ensures start == "d" + EncFields([("failure reason", Bytes(text))])
  {
    FailureKey();
    EncField1("failure reason", Bytes(text));
    Associate("d", EncStr("failure reason"), EncStr(text));
  }

  /** The body of an error: again one bencoded dictionary, of exactly the error's fields */
  method ErrorBody(e: AnnounceError) returns (response: string)
    ensures response == Enc(ErrorFields(e))
    ensures Decode(response) == Some(ErrorFields(e))
  {
    if IsCriticalWarning(e) {
      response := CriticalBody(e);
    } else {
      response := FailureBody(e);
    }
    ErrorsAreSorted(e);
    DecodeOfEnc(ErrorFields(e));
  }

  // ---- What stands under each key ----

  /** A reply tells each of its parts under its own key, the optional ones if there are any */
  lemma ReplyTells(r: AnnounceReply)
    ensures ("complete", Num(r.complete)) in ReplyFields(r)
    ensures ("downloaded", Num(r.downloaded)) in ReplyFields(r)
    ensures ("incomplete", Num(r.incomplete)) in ReplyFields(r)
    ensures ("interval", Num(r.interval)) in ReplyFields(r)
    ensures ("min interval", Num(r.minInterval)) in ReplyFields(r)
    ensures ("peers", Bytes(r.peers)) in ReplyFields(r)
    ensures r.peers6 != "" ==> ("peers6", Bytes(r.peers6)) in ReplyFields(r)
    ensures r.warning.Some? ==> ("warning message", Bytes(r.warning.value)) in ReplyFields(r)
    ensures |ReplyFields(r)| == 6 + (if r.peers6 != "" then 1 else 0) + (if r.warning.Some? then 1 else 0)
  {
    var d, counts := ReplyFields(r), CountFields(r);
    assert d == counts + (Peers6Fields(r) + WarningFields(r));
    assert d[0] == counts[0] && d[1] == counts[1] && d[2] == counts[2];
    assert d[3] == counts[3] && d[4] == counts[4] && d[5] == counts[5];
    if r.peers6 != "" {
      assert d[6] == ("peers6", Bytes(r.peers6));
    }
    if r.warning.Some? {
      assert d[|d| - 1] == ("warning message", Bytes(r.warning.value));
    }
  }

  /** The four errors that are told as warnings, and those of them after which the client is to come back soon */
  lemma CriticalIff(e: AnnounceError)
    ensures IsCriticalWarning(e) <==>
            || e == TorrentIsPendingModeration || e == TorrentIsPostponed || e == TorrentIsRejected
            || e == StoppedPeerDoesNotExist
    ensures RetryInterval(e)
            == if e == TorrentIsPendingModeration || e == TorrentIsPostponed || e == TorrentIsRejected then 30 else 5400
  {
  }

  /** Each of the four looks like an empty swarm with a warning, to be asked again after half a minute if the torrent waits
      for moderation, or did not pass it, and after an hour and a half otherwise. */
  lemma WarningTells(e: AnnounceError)
    requires IsCriticalWarning(e)
    ensures var d, wait := ErrorFields(e), RetryInterval(e);
            && ("complete", Num(0)) in d && ("downloaded", Num(0)) in d && ("incomplete", Num(0)) in d
            && ("interval", Num(wait)) in d && ("min interval", Num(wait)) in d && ("peers", Bytes("")) in d
            && ("warning message", Bytes(Errors.Text(e))) in d && |d| == 7
  {
    ReplyTells(AnnounceReply(0, 0, 0, RetryInterval(e), RetryInterval(e), "", "", Some(Errors.Text(e))));
  }

  /** All others are failures */
  lemma FailureTells(e: AnnounceError)
    requires !IsCriticalWarning(e)
    ensures var d := ErrorFields(e);
            && ("failure reason", Bytes(Errors.Text(e))) in d
            && ("interval", Num(5400)) in d && ("min interval", Num(5400)) in d && |d| == 3
  {
    ThreeIn(("failure reason", Bytes(Errors.Text(e))), ("interval", Num(5400)), ("min interval", Num(5400)));
  }

  lemma ThreeIn<T>(a: T, b: T, c: T)
    ensures a in [a, b, c] && b in [a, b, c] && c in [a, b, c]
  {
  }
}
