/** The scan of a query string by two iterators, one over its equal signs and one over its ampersands, walked in
    step, and the naive reading of the string that it amounts to: segment by segment. */
module Segments {
  import opened Results

  type Pair = (string, string)

  /** What becomes of a parameter, which updates what was read so far or is refused, and of a string that cannot be
      taken apart: a name or a value whose bounds are crossed. */
  datatype Reader<!F, !E> = Reader(take: (F, string, string) -> Result<F, E>, badName: E, badValue: E)

  /** Parameters in order, up to the first one that is refused */
  function TakeAll<F, E>(r: Reader<F, E>, f: F, ps: seq<Pair>): Result<F, E>
    decreases |ps|
  {
    if ps == [] then Ok(f)
    else match r.take(f, ps[0].0, ps[0].1)
         case Ok(f') => TakeAll(r, f', ps[1..])
         case Err(e) => Err(e)
  }

  // ---- Segments ----

  /** The next element of an iterator over the positions of `c`, or the length at its end */
  function FirstFrom(s: string, c: char, from: nat): (i: nat)
    requires from <= |s|
    ensures from <= i <= |s|
    ensures i < |s| ==> s[i] == c
    decreases |s| - from
  {
    if from == |s| || s[from] == c then from else FirstFrom(s, c, from + 1)
  }

  lemma {:induction false} NoneBefore(s: string, c: char, from: nat)
    requires from <= |s|
    ensures forall j :: from <= j < FirstFrom(s, c, from) ==> s[j] != c
    decreases |s| - from
  {
    if from < |s| && s[from] != c {
      NoneBefore(s, c, from + 1);
    }
  }

  /** The position of the first `c`, or the length */
  function First(s: string, c: char): (i: nat)
    ensures i <= |s|
    ensures i < |s| ==> s[i] == c
  {
    FirstFrom(s, c, 0)
  }

  function Split(s: string): (segs: seq<string>)
    ensures segs != []
    decreases |s|
  {
    var i := First(s, '&');
    if i == |s| then [s] else [s[..i]] + Split(s[i + 1..])
  }

  predicate HasEqual(s: string) {
    '=' in s
  }

  function Name(s: string): string {
    s[..First(s, '=')]
  }

  function ValueOf(s: string): string
    requires HasEqual(s)
  {
    NoneBefore(s, '=', 0);
    s[First(s, '=') + 1..]
  }

  predicate HasTwoEquals(s: string) {
    HasEqual(s) && HasEqual(ValueOf(s))
  }

  ghost predicate NoneHasEqual(segs: seq<string>) {
    forall i :: 0 <= i < |segs| ==> !HasEqual(segs[i])
  }

  /** Segment by segment. A segment without an equal sign is in order only if no later one has any; one with
      several is in order only at the end. */
  ghost function ParseSegments<F, E>(r: Reader<F, E>, segs: seq<string>, f: F): Result<F, E>
    requires segs != []
  {
    if NoneHasEqual(segs) then Ok(f)
    else if !HasEqual(segs[0]) then Err(r.badValue)
    else match r.take(f, Name(segs[0]), ValueOf(segs[0]))
         case Err(e) => Err(e)
         case Ok(f') =>
           if |segs| == 1 then Ok(f')
           else if HasTwoEquals(segs[0]) then Err(r.badName)
           else ParseSegments(r, segs[1..], f')
  }

  lemma {:induction false} SplitEquals(s: string)
    ensures NoneHasEqual(Split(s)) <==> !HasEqual(s)
    decreases |s|
  {
    var i := First(s, '&');
    if i < |s| {
      var rest := s[i + 1..];
      SplitEquals(rest);
      assert s == s[..i] + ['&'] + rest;
      var segs := Split(s);
      assert segs[0] == s[..i] && segs[1..] == Split(rest);
      assert forall j :: 0 < j < |segs| ==> segs[j] == segs[1..][j - 1];
      assert forall j :: 0 <= j < |segs[1..]| ==> segs[1..][j] == segs[j + 1];
    } else {
      assert Split(s)[0] == s;
    }
  }

  lemma FirstUnique(s: string, c: char, i: nat)
    requires i <= |s| && (i < |s| ==> s[i] == c) && forall j :: 0 <= j < i ==> s[j] != c
    ensures First(s, c) == i
  {
    NoneBefore(s, c, 0);
    var k := First(s, c);
    assert !(k < i) && !(i < k);
  }

  lemma NoneInSlice(s: string, c: char, from: nat, to: nat)
    requires from <= to <= |s| && to <= FirstFrom(s, c, from)
    ensures c !in s[from..to]
  {
    NoneBefore(s, c, from);
    assert forall j :: 0 <= j < |s[from..to]| ==> s[from..to][j] == s[from + j];
  }

  // ---- One step of the walk ----

  /** The segment that starts at `pos` and ends at `end` */
  lemma SegmentAt(q: string, pos: nat, end: nat)
    requires pos <= |q| && end == FirstFrom(q, '&', pos)
    ensures end == |q| ==> Split(q[pos..]) == [q[pos..end]]
    ensures end < |q| ==> Split(q[pos..]) == [q[pos..end]] + Split(q[end + 1..])
  {
    var rest := q[pos..];
    NoneBefore(q, '&', pos);
    assert forall j :: 0 <= j < |rest| ==> rest[j] == q[pos + j];
    FirstUnique(rest, '&', end - pos);
    assert rest[..end - pos] == q[pos..end];
    if end == |q| {
      assert rest == q[pos..end];
    } else {
      assert rest[end - pos + 1..] == q[end + 1..];
    }
  }

  /** The segment's first equal sign is at `eq` */
  lemma SegmentParts(q: string, pos: nat, eq: nat, end: nat)
    requires pos <= eq < end <= |q| && q[eq] == '=' && '=' !in q[pos..eq]
    ensures HasEqual(q[pos..end]) && Name(q[pos..end]) == q[pos..eq] && ValueOf(q[pos..end]) == q[eq + 1..end]
  {
    var s := q[pos..end];
    assert s[eq - pos] == '=';
    assert forall j :: 0 <= j < eq - pos ==> q[pos..eq][j] == s[j];
    FirstUnique(s, '=', eq - pos);
    assert s[..eq - pos] == q[pos..eq] && s[eq - pos + 1..] == q[eq + 1..end];
  }

  /** What the walk has before it at position `pos`, if it has passed the equal signs up to `eqFrom`: a further
      equal sign in between belongs to an earlier segment. */
  ghost function Rest<F, E>(r: Reader<F, E>, gap: string, rest: string, f: F): Result<F, E> {
    if HasEqual(gap) then Err(r.badName) else ParseSegments(r, Split(rest), f)
  }

  /** No equal sign is left */
  lemma RestIsBlank<F, E>(r: Reader<F, E>, gap: string, rest: string, f: F)
    requires !HasEqual(gap) && !HasEqual(rest)
    ensures Rest(r, gap, rest, f) == Ok(f)
  {
    SplitEquals(rest);
  }

  /** The next equal sign is beyond the segment */
  lemma RestLacksEqual<F, E>(r: Reader<F, E>, gap: string, rest: string, f: F)
    requires !HasEqual(gap) && HasEqual(rest) && !HasEqual(Split(rest)[0])
    ensures Rest(r, gap, rest, f) == Err(r.badValue)
  {
    SplitEquals(rest);
  }

  /** The next equal sign is inside the last segment */
  lemma RestIsLast<F, E>(r: Reader<F, E>, gap: string, rest: string, f: F, name: string, value: string)
    requires !HasEqual(gap) && Split(rest) == [rest]
    requires HasEqual(rest) && Name(rest) == name && ValueOf(rest) == value
    ensures Rest(r, gap, rest, f) == r.take(f, name, value)
  {
    assert [rest][0] == rest;
  }

  /** The next equal sign is inside a segment that others follow */
  lemma RestGoesOn<F, E>(
      r: Reader<F, E>, gap: string, rest: string, f: F, name: string, value: string, seg: string, more: string)
    requires !HasEqual(gap) && Split(rest) == [seg] + Split(more)
    requires HasEqual(seg) && Name(seg) == name && ValueOf(seg) == value
    ensures r.take(f, name, value).Err? ==> Rest(r, gap, rest, f) == r.take(f, name, value)
    ensures r.take(f, name, value).Ok? ==>
              Rest(r, gap, rest, f) == Rest(r, value + "&", more, r.take(f, name, value).value)
  {
    var segs := Split(rest);
    assert segs[0] == seg && segs[1..] == Split(more) && |segs| > 1;
    assert HasEqual(value + "&") <==> HasEqual(value) by {
      assert forall c :: c in value + "&" <==> c in value || c in "&";
    }
  }

  /** The walk of the two iterators: `eqFrom` and `pos` are where they go on from */
  function Walked<F, E>(r: Reader<F, E>, q: string, eqFrom: nat, pos: nat, f: F): Result<F, E>
    requires eqFrom <= pos <= |q|
    decreases |q| - eqFrom
  {
    var eq := FirstFrom(q, '=', eqFrom);
    if eq == |q| then Ok(f)
    else if eq < pos then Err(r.badName)
    else
      var end := FirstFrom(q, '&', pos);
      if end < eq + 1 then Err(r.badValue)
      else
        match r.take(f, q[pos..eq], q[eq + 1..end])
        case Err(e) => Err(e)
        case Ok(f') => if end == |q| then Ok(f') else Walked(r, q, eq + 1, end + 1, f')
  }

  ghost predicate Agrees<F, E>(r: Reader<F, E>, q: string, eqFrom: nat, pos: nat, f: F)
    requires eqFrom <= pos <= |q|
  {
    Walked(r, q, eqFrom, pos, f) == Rest(r, q[eqFrom..pos], q[pos..], f)
  }

  lemma EndAgrees<F, E>(r: Reader<F, E>, q: string, eqFrom: nat, pos: nat, f: F)
    requires eqFrom <= pos <= |q| && FirstFrom(q, '=', eqFrom) == |q|
    ensures Agrees(r, q, eqFrom, pos, f)
  {
    NoneInSlice(q, '=', eqFrom, pos);
    NoneInSlice(q, '=', eqFrom, |q|);
    assert q[eqFrom..|q|] == q[eqFrom..pos] + q[pos..];
    RestIsBlank(r, q[eqFrom..pos], q[pos..], f);
  }

  lemma BadNameAgrees<F, E>(r: Reader<F, E>, q: string, eqFrom: nat, pos: nat, f: F)
    requires eqFrom <= pos <= |q| && FirstFrom(q, '=', eqFrom) < pos
    ensures Agrees(r, q, eqFrom, pos, f)
  {
    assert q[eqFrom..pos][FirstFrom(q, '=', eqFrom) - eqFrom] == '=';
  }

  lemma BadValueAgrees<F, E>(r: Reader<F, E>, q: string, eqFrom: nat, pos: nat, f: F)
    requires eqFrom <= pos <= |q|
    requires pos <= FirstFrom(q, '=', eqFrom) < |q| && FirstFrom(q, '&', pos) <= FirstFrom(q, '=', eqFrom)
    ensures Agrees(r, q, eqFrom, pos, f)
  {
    var eq, end := FirstFrom(q, '=', eqFrom), FirstFrom(q, '&', pos);
    NoneInSlice(q, '=', eqFrom, pos);
    NoneInSlice(q, '=', eqFrom, end);
    assert q[eqFrom..end] == q[eqFrom..pos] + q[pos..end];
    assert q[pos..][eq - pos] == '=';
    SegmentAt(q, pos, end);
    RestLacksEqual(r, q[eqFrom..pos], q[pos..], f);
  }

  lemma LastAgrees<F, E>(r: Reader<F, E>, q: string, eqFrom: nat, pos: nat, f: F)
    requires eqFrom <= pos <= |q|
    requires pos <= FirstFrom(q, '=', eqFrom) < FirstFrom(q, '&', pos) == |q|
    ensures Agrees(r, q, eqFrom, pos, f)
  {
    var eq := FirstFrom(q, '=', eqFrom);
    EqualIsFirst(q, eqFrom, pos);
    SegmentAt(q, pos, |q|);
    SegmentParts(q, pos, eq, |q|);
    assert q[pos..|q|] == q[pos..];
    RestIsLast(r, q[eqFrom..pos], q[pos..], f, q[pos..eq], q[eq + 1..|q|]);
  }

  lemma EqualIsFirst(q: string, eqFrom: nat, pos: nat)
    requires eqFrom <= pos <= |q| && pos <= FirstFrom(q, '=', eqFrom) < |q|
    ensures '=' !in q[eqFrom..pos] && '=' !in q[pos..FirstFrom(q, '=', eqFrom)]
  {
    var eq := FirstFrom(q, '=', eqFrom);
    NoneInSlice(q, '=', eqFrom, eq);
    assert q[eqFrom..eq] == q[eqFrom..pos] + q[pos..eq];
  }

  lemma InnerSplit(q: string, eqFrom: nat, pos: nat, eq: nat, end: nat)
    requires eqFrom <= pos <= |q| && eq == FirstFrom(q, '=', eqFrom) && end == FirstFrom(q, '&', pos)
    requires pos <= eq < end < |q|
    ensures !HasEqual(q[eqFrom..pos]) && '=' !in q[pos..eq] && q[eq] == '=' && q[end] == '&'
    ensures Split(q[pos..]) == [q[pos..end]] + Split(q[end + 1..])
  {
    EqualIsFirst(q, eqFrom, pos);
    SegmentAt(q, pos, end);
  }

  lemma WalkGoesOn<F, E>(r: Reader<F, E>, q: string, eqFrom: nat, pos: nat, f: F, eq: nat, end: nat, f': F)
    requires eqFrom <= pos <= |q| && eq == FirstFrom(q, '=', eqFrom) && end == FirstFrom(q, '&', pos)
    requires pos <= eq < end < |q| && r.take(f, q[pos..eq], q[eq + 1..end]) == Ok(f')
    ensures Walked(r, q, eqFrom, pos, f) == Walked(r, q, eq + 1, end + 1, f')
  {
  }

  lemma RestGoesOnAt<F, E>(r: Reader<F, E>, q: string, eqFrom: nat, pos: nat, f: F, eq: nat, end: nat)
    requires eqFrom <= pos <= |q| && eq == FirstFrom(q, '=', eqFrom) && end == FirstFrom(q, '&', pos)
    requires pos <= eq < end < |q|
    ensures var taken := r.take(f, q[pos..eq], q[eq + 1..end]);
            Rest(r, q[eqFrom..pos], q[pos..], f) ==
            if taken.Ok? then Rest(r, q[eq + 1..end + 1], q[end + 1..], taken.value) else taken
  {
    InnerSplit(q, eqFrom, pos, eq, end);
    SegmentParts(q, pos, eq, end);
    assert q[eq + 1..end + 1] == q[eq + 1..end] + "&";
    RestGoesOn(r, q[eqFrom..pos], q[pos..], f, q[pos..eq], q[eq + 1..end], q[pos..end], q[end + 1..]);
  }

  lemma InnerAgrees<F, E>(r: Reader<F, E>, q: string, eqFrom: nat, pos: nat, f: F, eq: nat, end: nat)
    requires eqFrom <= pos <= |q| && eq == FirstFrom(q, '=', eqFrom) && end == FirstFrom(q, '&', pos)
    requires pos <= eq < end < |q|
    requires var taken := r.take(f, q[pos..eq], q[eq + 1..end]);
             taken.Ok? ==> Agrees(r, q, eq + 1, end + 1, taken.value)
    ensures Agrees(r, q, eqFrom, pos, f)
  {
    RestGoesOnAt(r, q, eqFrom, pos, f, eq, end);
    var taken := r.take(f, q[pos..eq], q[eq + 1..end]);
    if taken.Ok? {
      WalkGoesOn(r, q, eqFrom, pos, f, eq, end, taken.value);
    }
  }

  lemma {:induction false} WalkAgrees<F, E>(r: Reader<F, E>, q: string, eqFrom: nat, pos: nat, f: F)
    requires eqFrom <= pos <= |q|
    ensures Agrees(r, q, eqFrom, pos, f)
    decreases |q| - eqFrom
  {
    var eq, end := FirstFrom(q, '=', eqFrom), FirstFrom(q, '&', pos);
    if eq == |q| {
      EndAgrees(r, q, eqFrom, pos, f);
    } else if eq < pos {
      BadNameAgrees(r, q, eqFrom, pos, f);
    } else if end < eq + 1 {
      BadValueAgrees(r, q, eqFrom, pos, f);
    } else if end == |q| {
      LastAgrees(r, q, eqFrom, pos, f);
    } else {
      var taken := r.take(f, q[pos..eq], q[eq + 1..end]);
      if taken.Ok? {
        WalkAgrees(r, q, eq + 1, end + 1, taken.value);
      }
      InnerAgrees(r, q, eqFrom, pos, f, eq, end);
    }
  }

  /** The scan reads a query string as its segments, one after the other */
  method Scan<F, E>(reader: Reader<F, E>, q: string, start: F) returns (r: Result<F, E>)
    ensures r == ParseSegments(reader, Split(q), start)
  {
    r := Walk(reader, q, start);
    WalkAgrees(reader, q, 0, 0, start);
    assert q[0..] == q && q[0..0] == "";
  }

  method Walk<F, E>(reader: Reader<F, E>, q: string, start: F) returns (r: Result<F, E>)
    ensures r == Walked(reader, q, 0, 0, start)
  {
    var pos, eqFrom := 0, 0;
    var fields := start;
    ghost var goal := Walked(reader, q, 0, 0, start);
    while true
      invariant eqFrom <= pos <= |q|
      invariant Walked(reader, q, eqFrom, pos, fields) == goal
      decreases |q| - eqFrom
    {
      var equalSignPos := FirstFrom(q, '=', eqFrom);
      if equalSignPos == |q| {
        return Ok(fields);
      }
      var valueEndPos := FirstFrom(q, '&', pos);
      if equalSignPos < pos {
        return Err(reader.badName);
      }
      if valueEndPos < equalSignPos + 1 {
        return Err(reader.badValue);
      }
      match reader.take(fields, q[pos..equalSignPos], q[equalSignPos + 1..valueEndPos]) {
        case Err(e) =>
          return Err(e);
        case Ok(f') =>
          fields := f';
      }
      if valueEndPos == |q| {
        return Ok(fields);
      }
      pos, eqFrom := valueEndPos + 1, equalSignPos + 1;
    }
  }

  // ---- What the segments mean ----

  /** The first `m` segments are parameters, the others are blank, and only the very last segment may contain
      further equal signs. */
  ghost predicate Structured(segs: seq<string>, m: nat) {
    && m <= |segs|
    && (forall i :: 0 <= i < m ==> HasEqual(segs[i]))
    && (forall i :: m <= i < |segs| ==> !HasEqual(segs[i]))
    && (forall i :: 0 <= i < m && i < |segs| - 1 ==> !HasTwoEquals(segs[i]))
  }

  function PairsOf(segs: seq<string>): seq<Pair>
    requires forall s :: s in segs ==> HasEqual(s)
  {
    if segs == [] then [] else [(Name(segs[0]), ValueOf(segs[0]))] + PairsOf(segs[1..])
  }

  /** A structured string yields its parameters, split at their first equal signs, in order */
  lemma {:induction false} StructuredYieldsPairs<F, E>(r: Reader<F, E>, segs: seq<string>, m: nat, f: F)
    requires segs != [] && Structured(segs, m)
    ensures forall s :: s in segs[..m] ==> HasEqual(s)
    ensures ParseSegments(r, segs, f) == TakeAll(r, f, PairsOf(segs[..m]))
    decreases |segs|
  {
    if m > 0 {
      assert HasEqual(segs[0]);
      assert segs[..m][0] == segs[0] && segs[..m][1..] == segs[1..][..m - 1];
      if |segs| > 1 {
        match r.take(f, Name(segs[0]), ValueOf(segs[0]))
        case Ok(f') => StructuredYieldsPairs(r, segs[1..], m - 1, f');
        case Err(_) =>
      } else {
        assert segs[..m][1..] == [];
      }
    } else {
      assert segs[..m] == [];
    }
  }

  lemma {:induction false} UnstructuredFails<F, E>(r: Reader<F, E>, segs: seq<string>, f: F)
    requires segs != [] && forall m: nat :: !Structured(segs, m)
    ensures ParseSegments(r, segs, f).Err?
    decreases |segs|
  {
    assert !Structured(segs, 0);
    if HasEqual(segs[0]) {
      assert !Structured(segs, 1);
      if |segs| > 1 && !HasTwoEquals(segs[0]) {
        forall m: nat ensures !Structured(segs[1..], m) {
          if Structured(segs[1..], m) {
            assert forall i :: 0 < i < |segs| ==> segs[i] == segs[1..][i - 1];
            assert Structured(segs, m + 1);
          }
        }
        match r.take(f, Name(segs[0]), ValueOf(segs[0]))
        case Ok(f') => UnstructuredFails(r, segs[1..], f');
        case Err(_) =>
      }
    }
  }

  lemma StructuredUnique(segs: seq<string>, m: nat, n: nat)
    requires Structured(segs, m) && Structured(segs, n)
    ensures m == n
  {
    assert m < |segs| ==> (HasEqual(segs[m]) <==> m < n);
    assert n < |segs| ==> (HasEqual(segs[n]) <==> n < m);
  }

  /** The scan gets through a query string exactly when it is structured and every parameter is acceptable */
  lemma ScanSucceedsIff<F, E>(r: Reader<F, E>, q: string, start: F)
    ensures ParseSegments(r, Split(q), start).Ok? <==>
            exists m: nat :: Structured(Split(q), m) && TakeAll(r, start, PairsOf(Split(q)[..m])).Ok?
  {
    var segs := Split(q);
    if exists m: nat :: Structured(segs, m) {
      var m: nat :| Structured(segs, m);
      StructuredYieldsPairs(r, segs, m, start);
      forall n: nat | Structured(segs, n) ensures n == m {
        StructuredUnique(segs, m, n);
      }
    } else {
      UnstructuredFails(r, segs, start);
    }
  }

  // ---- Printing and scanning ----

  predicate Clean(s: string) {
    '=' !in s && '&' !in s
  }

  function PrintPair(p: Pair): string {
    p.0 + "=" + p.1
  }

  function Print(ps: seq<Pair>): string {
    if ps == [] then ""
    else if |ps| == 1 then PrintPair(ps[0])
    else PrintPair(ps[0]) + "&" + Print(ps[1..])
  }

  lemma PrintedPair(p: Pair)
    requires Clean(p.0) && Clean(p.1)
    ensures var s := PrintPair(p);
            HasEqual(s) && Name(s) == p.0 && ValueOf(s) == p.1 && !HasTwoEquals(s) && First(s, '&') == |s|
  {
    var s := PrintPair(p);
    assert forall j :: 0 <= j < |p.0| ==> s[j] == p.0[j];
    assert s[|p.0|] == '=';
    assert forall j :: |p.0| < j < |s| ==> s[j] == p.1[j - |p.0| - 1];
    FirstUnique(s, '=', |p.0|);
    FirstUnique(s, '&', |s|);
  }

  lemma SplitJoined(head: string, tail: string)
    requires First(head, '&') == |head|
    ensures Split(head + "&" + tail) == [head] + Split(tail)
  {
    var s := head + "&" + tail;
    NoneBefore(head, '&', 0);
    assert forall j :: 0 <= j < |head| ==> s[j] == head[j];
    assert s[|head|] == '&';
    FirstUnique(s, '&', |head|);
    assert s[..|head|] == head && s[|head| + 1..] == tail;
  }

  function PrintedPairs(ps: seq<Pair>): (segs: seq<string>)
    ensures |segs| == |ps|
  {
    if ps == [] then [] else [PrintPair(ps[0])] + PrintedPairs(ps[1..])
  }

  lemma {:induction false} SplitOfPrint(ps: seq<Pair>)
    requires ps != [] && forall p :: p in ps ==> Clean(p.0) && Clean(p.1)
    ensures Split(Print(ps)) == PrintedPairs(ps)
  {
    PrintedPair(ps[0]);
    if |ps| > 1 {
      SplitOfPrint(ps[1..]);
      SplitJoined(PrintPair(ps[0]), Print(ps[1..]));
    } else {
      assert Split(PrintPair(ps[0])) == [PrintPair(ps[0])];
      assert PrintedPairs(ps[1..]) == [];
    }
  }

  lemma {:induction false} PrintedAreParameters(ps: seq<Pair>)
    requires forall p :: p in ps ==> Clean(p.0) && Clean(p.1)
    ensures forall s :: s in PrintedPairs(ps) ==> HasEqual(s) && !HasTwoEquals(s)
    ensures PairsOf(PrintedPairs(ps)) == ps
  {
    if ps != [] {
      PrintedPair(ps[0]);
      PrintedAreParameters(ps[1..]);
      assert ps == [ps[0]] + ps[1..] && ps[0] == (ps[0].0, ps[0].1);
      assert PrintedPairs(ps)[1..] == PrintedPairs(ps[1..]);
    }
  }

  /** Scanning the printed form of any list of delimiter-free parameters reads back that list */
  lemma PrintThenScan<F, E>(r: Reader<F, E>, ps: seq<Pair>, start: F)
    requires forall p :: p in ps ==> Clean(p.0) && Clean(p.1)
    ensures ParseSegments(r, Split(Print(ps)), start) == TakeAll(r, start, ps)
  {
    var segs := Split(Print(ps));
    if ps == [] {
      assert segs == [""];
    } else {
      SplitOfPrint(ps);
      PrintedAreParameters(ps);
      assert Structured(segs, |ps|);
      assert segs[..|ps|] == segs;
      StructuredYieldsPairs(r, segs, |ps|, start);
    }
  }
}
