/** Percent-encoded 20-byte identifiers (section 2.1 of RFC 3986) and info hashes in hexadecimal. Text is a
    sequence of bytes, written as characters with codes below 256. */
module Hex {
  import opened MachineInts
  import opened Results

  const LENGTH := 20

  type Text = string

  /** The byte a character stands for */
  function Octet(c: char): u8 {
    c as int % 256
  }

  function HexDigit(c: char): Option<u8> {
    if '0' <= c <= '9' then Some(c as int - '0' as int)
    else if 'a' <= c <= 'f' then Some(c as int - 'a' as int + 0xA)
    else if 'A' <= c <= 'F' then Some(c as int - 'A' as int + 0xA)
    else None
  }

  /** Two digits, either case, most significant first */
  function HexDecode(hi: char, lo: char): (r: Option<u8>)
    ensures r.Some? ==> hi != '%' && lo != '%'
  {
    match (HexDigit(hi), HexDigit(lo))
    case (Some(h), Some(l)) => Some(16 * h + l)
    case _ => None
  }

  function HexLetter(d: u8): char
    requires d < 16
  {
    if d < 0xA then (d + '0' as int) as char else (d - 0xA + 'A' as int) as char
  }

  function HexEncode(b: u8): (char, char) {
    (HexLetter(b / 16), HexLetter(b % 16))
  }

  function Upper(c: char): char {
    if 'a' <= c <= 'f' then (c as int - 'a' as int + 'A' as int) as char else c
  }

  /** Encoding then decoding gives the byte back; decoding then encoding gives the digits back in upper case */
  lemma HexRoundTrip(b: u8, hi: char, lo: char)
    ensures HexDecode(HexEncode(b).0, HexEncode(b).1) == Some(b)
    ensures HexDecode(hi, lo).Some? ==> HexEncode(HexDecode(hi, lo).value) == (Upper(hi), Upper(lo))
  {
    if HexDecode(hi, lo).Some? {
      var h, l := HexDigit(hi).value, HexDigit(lo).value;
      assert h < 16 && l < 16;
      assert (16 * h + l) / 16 == h && (16 * h + l) % 16 == l;
    }
  }

  // ---- Percent-encoding ----

  function Percents(s: Text): nat {
    if s == "" then 0 else (if s[0] == '%' then 1 else 0) + Percents(s[1..])
  }

  /** The first `n` bytes spelled at the front of the text, and the text after them */
  function Unescape(s: Text, n: nat): Option<(seq<u8>, Text)> {
    if n == 0 then Some(([], s))
    else if s == "" then None
    else if s[0] == '%' then
      if |s| < 3 || HexDecode(s[1], s[2]).None? then None
      else Cons(HexDecode(s[1], s[2]).value, Unescape(s[3..], n - 1))
    else Cons(Octet(s[0]), Unescape(s[1..], n - 1))
  }

  function Cons(b: u8, r: Option<(seq<u8>, Text)>): Option<(seq<u8>, Text)> {
    match r case Some((bytes, tail)) => Some(([b] + bytes, tail)) case None => None
  }

  /** The identifier a text decodes to: its length must match its percent signs, and it must start with 20
      bytes; whatever follows them is ignored. */
  function Identifier(input: Text): Option<seq<u8>> {
    if |input| != LENGTH + 2 * Percents(input) then None
    else match Unescape(input, LENGTH) case Some((bytes, _)) => Some(bytes) case None => None
  }

  lemma {:induction false} PercentsConcat(a: Text, b: Text)
    ensures Percents(a + b) == Percents(a) + Percents(b)
  {
    if a == "" {
      assert a + b == b;
    } else {
      PercentsConcat(a[1..], b);
      assert (a + b)[1..] == a[1..] + b;
    }
  }

  method CountPercents(input: Text) returns (n: nat)
    ensures n == Percents(input)
  {
    n := 0;
    for i := 0 to |input|
      invariant n + Percents(input[i..]) == Percents(input)
    {
      assert input[i..][1..] == input[i + 1..];
      if input[i] == '%' {
        n := n + 1;
      }
    }
  }

  /** No index leaves the input, because the position is the number of bytes written plus twice the number of
      percent signs passed, and a decoded escape never hides a percent sign. */
  method UrlencodedToBytes(input: Text) returns (r: Option<seq<u8>>)
    ensures r == Identifier(input)
  {
    var output := new u8[LENGTH];
    var percentSignCount := CountPercents(input);
    if |input| != 20 + 2 * percentSignCount {
      return None;
    }
    var inPos := 0;
    assert input[0..] == input;
    PrependNothing(Unescape(input, LENGTH));
    for k := 0 to LENGTH
      invariant inPos <= |input| && inPos == k + 2 * Percents(input[..inPos])
      invariant Unescape(input, LENGTH) == Prepend(output[..k], Unescape(input[inPos..], LENGTH - k))
    {
      IndexInRange(input, inPos, k);
      ghost var written := output[..k];
      var byte := input[inPos];
      if byte == '%' {
        EscapeAt(input, inPos, LENGTH - k - 1);
        var decoded := HexDecode(input[inPos + 1], input[inPos + 2]);
        if decoded.None? {
          return None;
        }
        output[k] := decoded.value;
        PrependSnoc(written, decoded.value, Unescape(input[inPos + 3..], LENGTH - k - 1));
        inPos := inPos + 3;
      } else {
        LiteralAt(input, inPos, LENGTH - k - 1);
        output[k] := Octet(byte);
        PrependSnoc(written, Octet(byte), Unescape(input[inPos + 1..], LENGTH - k - 1));
        inPos := inPos + 1;
      }
      assert output[..k + 1] == written + [output[k]];
    }
    assert output[..LENGTH] == output[..] && output[..] + [] == output[..];
    r := Some(output[..]);
  }

  lemma IndexInRange(input: Text, inPos: nat, k: nat)
    requires inPos <= |input| && inPos == k + 2 * Percents(input[..inPos]) && k < LENGTH
    requires |input| == LENGTH + 2 * Percents(input)
    ensures inPos < |input|
    ensures input[inPos] == '%' ==> inPos + 2 < |input|
  {
    var rest := input[inPos..];
    assert input == input[..inPos] + rest;
    PercentsConcat(input[..inPos], rest);
  }

  lemma EscapeAt(input: Text, inPos: nat, n: nat)
    requires inPos + 2 < |input| && input[inPos] == '%'
    ensures var decoded := HexDecode(input[inPos + 1], input[inPos + 2]);
            && Unescape(input[inPos..], n + 1)
               == (if decoded.None? then None else Cons(decoded.value, Unescape(input[inPos + 3..], n)))
            && (decoded.Some? ==> Percents(input[..inPos + 3]) == Percents(input[..inPos]) + 1)
  {
    var escape := input[inPos..inPos + 3];
    assert input[inPos..][3..] == input[inPos + 3..];
    assert input[..inPos + 3] == input[..inPos] + escape;
    PercentsConcat(input[..inPos], escape);
    if escape[1] != '%' && escape[2] != '%' {
      EscapePercents(escape);
    }
  }

  lemma LiteralAt(input: Text, inPos: nat, n: nat)
    requires inPos < |input| && input[inPos] != '%'
    ensures Unescape(input[inPos..], n + 1) == Cons(Octet(input[inPos]), Unescape(input[inPos + 1..], n))
    ensures Percents(input[..inPos + 1]) == Percents(input[..inPos])
  {
    assert input[inPos..][1..] == input[inPos + 1..];
    assert input[..inPos + 1] == input[..inPos] + [input[inPos]];
    PercentsConcat(input[..inPos], [input[inPos]]);
    assert [input[inPos]][1..] == "";
  }

  ghost function Prepend(front: seq<u8>, r: Option<(seq<u8>, Text)>): Option<(seq<u8>, Text)> {
    match r case Some((bytes, tail)) => Some((front + bytes, tail)) case None => None
  }

  lemma PrependNothing(r: Option<(seq<u8>, Text)>)
    ensures Prepend([], r) == r
  {
    if r.Some? {
      assert [] + r.value.0 == r.value.0;
    }
  }

  lemma PrependSnoc(front: seq<u8>, b: u8, r: Option<(seq<u8>, Text)>)
    ensures Prepend(front, Cons(b, r)) == Prepend(front + [b], r)
  {
    if r.Some? {
      assert front + ([b] + r.value.0) == (front + [b]) + r.value.0;
    }
  }

  lemma EscapePercents(s: Text)
    requires |s| == 3 && s[0] == '%' && s[1] != '%' && s[2] != '%'
    ensures Percents(s) == 1
  {
    assert s[1..] == [s[1], s[2]] && s[1..][1..] == [s[2]] && s[1..][1..][1..] == "";
    assert Percents([s[2]]) == 0 by { assert [s[2]][1..] == ""; }
  }

  /** One byte on the wire: itself, or a percent sign and two digits of either case */
  datatype Unit = Literal(c: char) | Escape(hi: char, lo: char)

  predicate ValidUnit(u: Unit) {
    match u
    case Literal(c) => c != '%'
    case Escape(hi, lo) => HexDecode(hi, lo).Some?
  }

  function ByteOf(u: Unit): u8
    requires ValidUnit(u)
  {
    match u case Literal(c) => Octet(c) case Escape(hi, lo) => HexDecode(hi, lo).value
  }

  function Raw(u: Unit): Text {
    match u case Literal(c) => [c] case Escape(hi, lo) => ['%', hi, lo]
  }

  function Spelling(us: seq<Unit>): Text {
    if us == [] then "" else Raw(us[0]) + Spelling(us[1..])
  }

  function BytesOf(us: seq<Unit>): seq<u8>
    requires forall u :: u in us ==> ValidUnit(u)
  {
    if us == [] then [] else [ByteOf(us[0])] + BytesOf(us[1..])
  }

  lemma UnescapeUnit(u: Unit, rest: Text, n: nat)
    requires ValidUnit(u)
    ensures Unescape(Raw(u) + rest, n + 1) == Cons(ByteOf(u), Unescape(rest, n))
    ensures |Raw(u)| == 1 + 2 * Percents(Raw(u))
  {
    match u
    case Literal(c) =>
      assert ([c] + rest)[1..] == rest && [c][1..] == "";
    case Escape(hi, lo) =>
      assert (['%', hi, lo] + rest)[3..] == rest;
      EscapePercents(['%', hi, lo]);
  }

  lemma {:induction false} UnescapeWithTail(us: seq<Unit>, tail: Text)
    requires forall u :: u in us ==> ValidUnit(u)
    ensures Unescape(Spelling(us) + tail, |us|) == Some((BytesOf(us), tail))
  {
    if us == [] {
      assert Spelling(us) + tail == tail;
    } else {
      UnescapeWithTail(us[1..], tail);
      UnescapeUnit(us[0], Spelling(us[1..]) + tail, |us| - 1);
      Regroup(Raw(us[0]), Spelling(us[1..]), tail);
    }
  }

  lemma Regroup(a: Text, b: Text, c: Text)
    ensures (a + b) + c == a + (b + c)
  {
  }

  lemma {:induction false} SpellingLength(us: seq<Unit>)
    requires forall u :: u in us ==> ValidUnit(u)
    ensures |Spelling(us)| == |us| + 2 * Percents(Spelling(us))
  {
    if us != [] {
      SpellingLength(us[1..]);
      UnescapeUnit(us[0], "", 0);
      PercentsConcat(Raw(us[0]), Spelling(us[1..]));
    }
  }

  lemma SpellingDecodes(us: seq<Unit>)
    requires forall u :: u in us ==> ValidUnit(u)
    ensures Unescape(Spelling(us), |us|) == Some((BytesOf(us), ""))
    ensures |Spelling(us)| == |us| + 2 * Percents(Spelling(us))
  {
    UnescapeWithTail(us, "");
    SpellingLength(us);
    assert Spelling(us) + "" == Spelling(us);
  }

  /** Any mix of literal bytes and escapes of 20 bytes decodes to those bytes */
  lemma IdentifierRoundTrip(us: seq<Unit>)
    requires |us| == LENGTH && forall u :: u in us ==> ValidUnit(u)
    ensures Identifier(Spelling(us)) == Some(BytesOf(us))
  {
    SpellingDecodes(us);
  }

  /** Every percent sign starts an escape */
  predicate WellEscaped(s: Text) {
    forall i :: 0 <= i < |s| && s[i] == '%' ==> i + 2 < |s| && HexDecode(s[i + 1], s[i + 2]).Some?
  }

  lemma SkipLiteral(s: Text)
    requires s != "" && s[0] != '%'
    ensures WellEscaped(s) <==> WellEscaped(s[1..])
    ensures Percents(s) == Percents(s[1..])
  {
    assert forall i :: 0 <= i < |s[1..]| ==> s[1..][i] == s[i + 1];
    assert forall i :: 1 <= i < |s| ==> s[i] == s[1..][i - 1];
  }

  lemma SkipEscape(s: Text)
    requires |s| >= 3 && s[0] == '%' && HexDecode(s[1], s[2]).Some?
    ensures WellEscaped(s) <==> WellEscaped(s[3..])
    ensures Percents(s) == 1 + Percents(s[3..])
  {
    assert forall i :: 0 <= i < |s[3..]| ==> s[3..][i] == s[i + 3];
    assert forall i :: 3 <= i < |s| ==> s[i] == s[3..][i - 3];
    SkipEscapePercents(s);
  }

  lemma SkipEscapePercents(s: Text)
    requires |s| >= 3 && s[0] == '%' && s[1] != '%' && s[2] != '%'
    ensures Percents(s) == 1 + Percents(s[3..])
  {
    assert s == s[..3] + s[3..];
    EscapePercents(s[..3]);
    PercentsConcat(s[..3], s[3..]);
  }

  lemma {:induction false} TailIsSuffix(s: Text, n: nat)
    requires Unescape(s, n).Some?
    ensures var tail := Unescape(s, n).value.1;
            && |tail| <= |s|
            && |s| - |tail| == n + 2 * (Percents(s) - Percents(tail))
            && (WellEscaped(s) <==> WellEscaped(tail))
  {
    if n > 0 {
      if s[0] == '%' {
        TailIsSuffix(s[3..], n - 1);
        SkipEscape(s);
      } else {
        TailIsSuffix(s[1..], n - 1);
        SkipLiteral(s);
      }
    }
  }

  lemma {:induction false} EscapesTakeThree(s: Text)
    requires WellEscaped(s)
    ensures |s| >= 3 * Percents(s)
    decreases |s|
  {
    if s != "" {
      if s[0] == '%' {
        SkipEscape(s);
        EscapesTakeThree(s[3..]);
      } else {
        SkipLiteral(s);
        EscapesTakeThree(s[1..]);
      }
    }
  }

  /** An accepted text is used up entirely exactly when each of its percent signs starts an escape; otherwise a
      tail of it is ignored. */
  lemma WholeTextIff(input: Text)
    requires Identifier(input).Some?
    ensures Unescape(input, LENGTH).value.1 == "" <==> WellEscaped(input)
  {
    TailIsSuffix(input, LENGTH);
    var tail := Unescape(input, LENGTH).value.1;
    if WellEscaped(tail) {
      EscapesTakeThree(tail);
    }
  }

  /** Not every accepted text is used up: here the last two characters are ignored */
  lemma IgnoredTail()
    ensures var us := seq(LENGTH, i => Literal('a'));
            Identifier(Spelling(us) + "%a") == Some(BytesOf(us))
  {
    var us: seq<Unit> := seq(LENGTH, i => Literal('a'));
    SpellingDecodes(us);
    var s := Spelling(us);
    assert Percents("%a") == 1 by { assert "%a"[1..] == "a" && "a"[1..] == "" && Percents("a") == 0; }
    PercentsConcat(s, "%a");
    UnescapeWithTail(us, "%a");
  }

  // ---- Info hashes ----

  /** The text is the hash in upper-case hexadecimal */
  ghost predicate IsHexOf(s: string, h: seq<u8>) {
    |s| == 2 * |h| && forall pos :: 0 <= pos < |h| ==> (s[2 * pos], s[2 * pos + 1]) == HexEncode(h[pos])
  }

  /** What the text means as an info hash, or that it is none */
  ghost predicate ParsesTo(s: string, r: Option<seq<u8>>) {
    match r
    case Some(h) =>
      |h| == LENGTH && |s| == 2 * LENGTH &&
      forall pos :: 0 <= pos < LENGTH ==> HexDecode(s[2 * pos], s[2 * pos + 1]) == Some(h[pos])
    case None =>
      |s| == 2 * LENGTH ==> exists pos :: 0 <= pos < LENGTH && HexDecode(s[2 * pos], s[2 * pos + 1]).None?
  }

  method InfoHashFromStr(s: string) returns (r: Option<seq<u8>>)
    ensures ParsesTo(s, r)
  {
    var out := new u8[LENGTH];
    if |s| != 40 {
      return None;
    }
    for pos := 0 to LENGTH
      invariant forall p :: 0 <= p < pos ==> HexDecode(s[2 * p], s[2 * p + 1]) == Some(out[p])
    {
      var decoded := HexDecode(s[pos * 2], s[pos * 2 + 1]);
      if decoded.None? {
        assert HexDecode(s[2 * pos], s[2 * pos + 1]).None?;
        return None;
      }
      out[pos] := decoded.value;
    }
    r := Some(out[..]);
  }

  method DisplayInfoHash(h: seq<u8>) returns (s: string)
    requires |h| == LENGTH
    ensures IsHexOf(s, h)
  {
    s := "";
    for pos := 0 to LENGTH
      invariant IsHexOf(s, h[..pos])
    {
      var (hi, lo) := HexEncode(h[pos]);
      s := s + [hi, lo];
      assert h[..pos + 1] == h[..pos] + [h[pos]];
    }
    assert h[..LENGTH] == h;
  }

  /** A printed hash is read back, from exactly the texts that differ from it in the case of letters only */
  lemma InfoHashRoundTrip(s: string, h: seq<u8>, t: string, r: Option<seq<u8>>)
    requires |h| == LENGTH && IsHexOf(s, h) && ParsesTo(t, r)
    ensures r == Some(h) <==> |t| == |s| && forall i :: 0 <= i < |t| ==> Upper(t[i]) == s[i]
  {
    if r == Some(h) {
      forall i | 0 <= i < |t| ensures Upper(t[i]) == s[i] {
        var pos := i / 2;
        HexRoundTrip(h[pos], t[2 * pos], t[2 * pos + 1]);
      }
    }
    if |t| == |s| && forall i :: 0 <= i < |t| ==> Upper(t[i]) == s[i] {
      forall pos | 0 <= pos < LENGTH ensures HexDecode(t[2 * pos], t[2 * pos + 1]) == Some(h[pos]) {
        HexRoundTrip(h[pos], 'z', 'z');
        UpperDecodes(t[2 * pos], t[2 * pos + 1]);
      }
      assert r.Some?;
      assert r.value == h;
    }
  }

  lemma UpperDecodes(hi: char, lo: char)
    ensures HexDecode(Upper(hi), Upper(lo)) == HexDecode(hi, lo)
  {
  }

  /** The digits, in order of their values */
  lemma DigitsAre(i: nat, c: char)
    requires i < 16
    ensures HexLetter(i) == "0123456789ABCDEF"[i]
    ensures HexDigit("0123456789ABCDEF"[i]) == Some(i) && HexDigit("0123456789abcdef"[i]) == Some(i)
    ensures c !in "0123456789ABCDEFabcdef" ==> HexDigit(c).None?
  {
    var s := "0123456789ABCDEFabcdef";
    if '0' <= c <= '9' {
      assert s[c as int - '0' as int] == c;
    } else if 'A' <= c <= 'F' {
      assert s[c as int - 'A' as int + 10] == c;
    } else if 'a' <= c <= 'f' {
      assert s[c as int - 'a' as int + 16] == c;
    }
  }
}
