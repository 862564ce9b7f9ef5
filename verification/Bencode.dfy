/** Bencoded dictionaries (BEP 3, section "bencoding") of integers and byte strings: an encoding and a strict
    decoder that undo each other. Bytes are characters with codes below 256. */
module Bencode {
  import opened Results
  import opened Decimals

  datatype Field = Num(n: nat) | Bytes(s: string)

  type Dict = seq<(string, Field)>

  function EncStr(s: string): string {
    Dec(|s|) + ":" + s
  }

  function EncField(f: Field): string {
    match f
    case Num(n) => "i" + Dec(n) + "e"
    case Bytes(s) => EncStr(s)
  }

  function EncFields(d: Dict): string {
    if d == [] then "" else EncStr(d[0].0) + EncField(d[0].1) + EncFields(d[1..])
  }

  function Enc(d: Dict): string {
    "d" + EncFields(d) + "e"
  }

  /** Byte order of keys */
  ghost predicate Less(a: string, b: string) {
    exists n :: LessAt(a, b, n)
  }

  ghost predicate LessAt(a: string, b: string, n: nat) {
    && n <= |a| && n < |b|
    && a[..n] == b[..n]
    && (n < |a| ==> a[n] < b[n])
  }

  ghost predicate Sorted(d: Dict) {
    forall i :: 0 <= i < |d| - 1 ==> Less(d[i].0, d[i + 1].0)
  }

  predicate IsNumeral(s: string) {
    s != [] && AllDigits(s) && (|s| > 1 ==> s[0] != '0')
  }

  /** A byte string at the front, and what follows it */
  ghost function DecodeStr(s: string): (r: Option<(string, string)>)
    ensures r.Some? ==> |r.value.1| < |s|
  {
    var n := DigitRun(s);
    if n < |s| && IsNumeral(s[..n]) && s[n] == ':' && Value(s[..n]) <= |s| - n - 1 then
      var end := n + 1 + Value(s[..n]);
      Some((s[n + 1..end], s[end..]))
    else None
  }

  ghost function DecodeField(s: string): (r: Option<(Field, string)>)
    ensures r.Some? ==> |r.value.1| < |s|
  {
    if s != [] && s[0] == 'i' then
      var body := s[1..];
      var n := DigitRun(body);
      if n < |body| && IsNumeral(body[..n]) && body[n] == 'e' then
        Some((Num(Value(body[..n])), body[n + 1..]))
      else None
    else
      match DecodeStr(s)
      case Some((b, rest)) => Some((Bytes(b), rest))
      case None => None
  }

  /** Fields up to the closing letter, which ends the input */
  ghost function DecodeFields(s: string): Option<Dict>
    decreases |s|
  {
    if s == "e" then Some([])
    else
      match DecodeStr(s)
      case None => None
      case Some((key, s1)) =>
        match DecodeField(s1)
        case None => None
        case Some((field, s2)) =>
          match DecodeFields(s2)
          case None => None
          case Some(d) => if d == [] || Less(key, d[0].0) then Some([(key, field)] + d) else None
  }

  ghost function Decode(s: string): Option<Dict> {
    if s != [] && s[0] == 'd' then DecodeFields(s[1..]) else None
  }

  lemma DecIsNumeral(n: nat)
    ensures IsNumeral(Dec(n)) && Value(Dec(n)) == n
  {
    ValueOfDec(n);
  }

  lemma {:induction false} NumeralValue(s: string)
    requires IsNumeral(s)
    ensures Dec(Value(s)) == s
    ensures |s| > 1 ==> Value(s) >= 10
  {
    var front := s[..|s| - 1];
    if |s| == 1 {
      assert front == "";
      assert Value(s) == s[0] as int - '0' as int;
    } else {
      NumeralValue(front);
      assert Value(s) / 10 == Value(front);
      if |front| == 1 {
        assert Value(front) == front[0] as int - '0' as int + 10 * Value(front[..0]);
        assert front[0] != '0';
      }
      assert s == front + [s[|s| - 1]];
    }
  }

  lemma NumeralRun(n: nat, c: char, t: string)
    requires !IsDigit(c)
    ensures var s := Dec(n) + [c] + t;
            DigitRun(s) == |Dec(n)| && s[..|Dec(n)|] == Dec(n) && s[|Dec(n)|] == c && s[|Dec(n)| + 1..] == t
  {
    var s := Dec(n) + [c] + t;
    assert s[..|Dec(n)|] == Dec(n);
    DigitRunIsUnique(s, |Dec(n)|);
  }

  lemma DecodeOfEncStr(b: string, t: string)
    ensures DecodeStr(EncStr(b) + t) == Some((b, t))
  {
    var s := EncStr(b) + t;
    assert s == Dec(|b|) + [':'] + (b + t);
    NumeralRun(|b|, ':', b + t);
    DecIsNumeral(|b|);
    var n := |Dec(|b|)|;
    assert s[n + 1..] == b + t;
    assert s[n + 1..n + 1 + |b|] == b;
    assert s[n + 1 + |b|..] == t;
  }

  lemma DecodeOfEncField(f: Field, t: string)
    ensures DecodeField(EncField(f) + t) == Some((f, t))
  {
    match f
    case Num(n) =>
      var s := EncField(f) + t;
      assert s[1..] == Dec(n) + ['e'] + t;
      NumeralRun(n, 'e', t);
      DecIsNumeral(n);
    case Bytes(b) =>
      assert IsDigit(Dec(|b|)[0]);
      assert (EncStr(b) + t)[0] == Dec(|b|)[0];
      DecodeOfEncStr(b, t);
  }

  /** One field at the front is decoded before the rest */
  lemma DecodeFirst(key: string, f: Field, tail: string)
    requires |tail| > 0
    ensures var s := EncStr(key) + (EncField(f) + tail);
            && |s| > |tail|
            && DecodeFields(s) ==
               match DecodeFields(tail)
               case None => None
               case Some(d) => if d == [] || Less(key, d[0].0) then Some([(key, f)] + d) else None
  {
    DecodeOfEncStr(key, EncField(f) + tail);
    DecodeOfEncField(f, tail);
    assert |EncStr(key)| > 1;
  }

  lemma SortedTail(d: Dict)
    requires Sorted(d) && d != []
    ensures Sorted(d[1..])
    ensures d[1..] == [] || Less(d[0].0, d[1..][0].0)
  {
    assert forall i :: 0 <= i < |d[1..]| ==> d[1..][i] == d[i + 1];
  }

  lemma {:induction false} DecodeOfEncFields(d: Dict)
    requires Sorted(d)
    ensures DecodeFields(EncFields(d) + "e") == Some(d)
  {
    if d != [] {
      var (key, f) := d[0];
      var tail := EncFields(d[1..]) + "e";
      SortedTail(d);
      DecodeOfEncFields(d[1..]);
      DecodeFirst(key, f, tail);
      Regroup4(EncStr(key), EncField(f), EncFields(d[1..]), "e");
      assert d == [d[0]] + d[1..];
    }
  }

  lemma Regroup4(a: string, b: string, c: string, e: string)
    ensures (a + b + c) + e == a + (b + (c + e))
  {
  }

  lemma EncStrOfDecode(s: string)
    requires DecodeStr(s).Some?
    ensures s == EncStr(DecodeStr(s).value.0) + DecodeStr(s).value.1
  {
    var n := DigitRun(s);
    NumeralValue(s[..n]);
    var end := n + 1 + Value(s[..n]);
    assert s == s[..n] + [s[n]] + s[n + 1..end] + s[end..];
  }

  lemma EncFieldOfDecode(s: string)
    requires DecodeField(s).Some?
    ensures s == EncField(DecodeField(s).value.0) + DecodeField(s).value.1
  {
    if s[0] == 'i' {
      var n := DigitRun(s[1..]);
      NumeralValue(s[1..][..n]);
      assert s == "i" + s[1..][..n] + "e" + s[1..][n + 1..];
    } else {
      EncStrOfDecode(s);
    }
  }

  lemma SortedCons(x: (string, Field), d: Dict)
    requires Sorted(d) && (d == [] || Less(x.0, d[0].0))
    ensures Sorted([x] + d)
  {
    var all := [x] + d;
    assert forall i :: 0 < i < |all| ==> all[i] == d[i - 1];
  }

  lemma {:induction false} EncOfDecodeFields(s: string)
    requires DecodeFields(s).Some?
    ensures Sorted(DecodeFields(s).value) && s == EncFields(DecodeFields(s).value) + "e"
    decreases |s|
  {
    if s != "e" {
      var (key, s1) := DecodeStr(s).value;
      var (field, s2) := DecodeField(s1).value;
      EncStrOfDecode(s);
      EncFieldOfDecode(s1);
      EncOfDecodeFields(s2);
      var rest := DecodeFields(s2).value;
      SortedCons((key, field), rest);
      EncFieldsCons(key, field, rest);
      Regroup4(EncStr(key), EncField(field), EncFields(rest), "e");
    }
  }

  lemma DecodeOfEnc(d: Dict)
    requires Sorted(d)
    ensures Decode(Enc(d)) == Some(d)
  {
    DecodeOfEncFields(d);
    DropFirst('d', EncFields(d) + "e");
    Associate("d", EncFields(d), "e");
  }

  lemma DropFirst(c: char, s: string)
    ensures ([c] + s)[0] == c && ([c] + s)[1..] == s
  {
  }

  lemma SplitFirst(s: string)
    requires s != ""
    ensures s == [s[0]] + s[1..]
  {
  }

  lemma EncOfDecode(s: string)
    requires Decode(s).Some?
    ensures s == Enc(Decode(s).value) && Sorted(Decode(s).value)
  {
    EncOfDecodeFields(s[1..]);
    SplitFirst(s);
    Associate([s[0]], EncFields(Decode(s).value), "e");
  }

  /** The decoder accepts exactly the encodings of dictionaries with strictly increasing keys, and returns
      what was encoded. */
  lemma DecodeIff(s: string, d: Dict)
    ensures Decode(s) == Some(d) <==> s == Enc(d) && Sorted(d)
  {
    if Decode(s) == Some(d) {
      EncOfDecode(s);
    } else if Sorted(d) {
      DecodeOfEnc(d);
    }
  }

  lemma Associate(a: string, b: string, c: string)
    ensures (a + b) + c == a + (b + c)
  {
  }

  lemma EncFieldsCons(key: string, f: Field, d: Dict)
    ensures EncFields([(key, f)] + d) == EncStr(key) + EncField(f) + EncFields(d)
  {
    assert ([(key, f)] + d)[1..] == d;
  }

  lemma ConsConcat<T>(d: seq<T>, e: seq<T>)
    requires d != []
    ensures d == [d[0]] + d[1..]
    ensures d + e == [d[0]] + (d[1..] + e)
  {
  }

  lemma {:induction false} EncFieldsConcat(d: Dict, e: Dict)
    ensures EncFields(d + e) == EncFields(d) + EncFields(e)
  {
    if d == [] {
      assert d + e == e;
    } else {
      EncFieldsConcat(d[1..], e);
      ConsConcat(d, e);
      var rest := d[1..];
      assert EncFields(d) == EncStr(d[0].0) + EncField(d[0].1) + EncFields(rest);
      EncFieldsCons(d[0].0, d[0].1, rest + e);
      Associate(EncStr(d[0].0) + EncField(d[0].1), EncFields(rest), EncFields(e));
    }
  }

  lemma EncField1(key: string, f: Field)
    ensures EncFields([(key, f)]) == EncStr(key) + EncField(f)
  {
    var d := [(key, f)];
    assert d[1..] == [] && EncFields(d[1..]) == "";
  }

  lemma EncFieldsSnoc(d: Dict, key: string, f: Field)
    ensures EncFields(d + [(key, f)]) == EncFields(d) + (EncStr(key) + EncField(f))
  {
    EncFieldsConcat(d, [(key, f)]);
    EncField1(key, f);
  }
}
