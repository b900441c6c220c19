/**
 * The `uint8ArrayToBase64` helper that every editing screen uses before writing a
 * document to disk (copied unchanged into six screens, modelled here once).
 * It implements the base 64 alphabet and `=` padding of section 4 of RFC 4648.
 */
module Base64 {
  import opened Wrappers

  newtype byte = x: int | 0 <= x < 256

  // The 64-character table of section 4 of RFC 4648, written as four literals.
  const Upper: string := "ABCDEFGHIJKLMNOPQRSTUVWXYZ"
  const Lower: string := "abcdefghijklmnopqrstuvwxyz"
  const Digits: string := "0123456789"
  const Chars: string := Upper + Lower + Digits + "+/"

  /** The value of a base 64 symbol, or None for any other character (including '='). */
  function SymbolValue(ch: char): (v: Option<nat>)
    ensures v.Some? ==> v.value < 64
  {
    if 'A' <= ch <= 'Z' then Some(ch as int - 'A' as int)
    else if 'a' <= ch <= 'z' then Some(ch as int - 'a' as int + 26)
    else if '0' <= ch <= '9' then Some(ch as int - '0' as int + 52)
    else if ch == '+' then Some(62)
    else if ch == '/' then Some(63)
    else None
  }

  /** The character at position v of the table, by the table's four ranges. */
  function Symbol(v: nat): (ch: char)
    requires v < 64
    ensures SymbolValue(ch) == Some(v) && ch != '='
  {
    if v < 26 then ('A' as int + v) as char
    else if v < 52 then ('a' as int + v - 26) as char
    else if v < 62 then ('0' as int + v - 52) as char
    else if v == 62 then '+' else '/'
  }

  /** Every symbol is the table entry at its value. */
  lemma SymbolOf(ch: char)
    requires SymbolValue(ch).Some?
    ensures Symbol(SymbolValue(ch).value) == ch
  {}

  lemma UpperAt(k: nat)
    requires k < 26
    ensures |Upper| == 26 && Upper[k] == ('A' as int + k) as char
  {}

  lemma LowerAt(k: nat)
    requires k < 26
    ensures |Lower| == 26 && Lower[k] == ('a' as int + k) as char
  {}

  lemma DigitAt(k: nat)
    requires k < 10
    ensures |Digits| == 10 && Digits[k] == ('0' as int + k) as char
  {}

  /** The table has 64 entries: the three ranges and the two signs. */
  lemma CharsLength()
    ensures |Chars| == 64
  {
    UpperAt(0); LowerAt(0); DigitAt(0);
  }

  lemma TableUpper(k: nat)
    requires k < 26
    ensures |Chars| == 64 && Chars[k] == Symbol(k)
  {
    CharsLength();
    UpperAt(k);
    assert Chars[k] == Upper[k];
  }

  lemma TableLower(k: nat)
    requires 26 <= k < 52
    ensures |Chars| == 64 && Chars[k] == Symbol(k)
  {
    CharsLength();
    LowerAt(k - 26);
    assert Chars[k] == Lower[k - 26];
  }

  lemma TableDigit(k: nat)
    requires 52 <= k < 62
    ensures |Chars| == 64 && Chars[k] == Symbol(k)
  {
    CharsLength();
    DigitAt(k - 52);
    assert Chars[k] == Digits[k - 52];
  }

  lemma TableSign(k: nat)
    requires 62 <= k < 64
    ensures |Chars| == 64 && Chars[k] == Symbol(k)
  {
    CharsLength();
    assert Chars[k] == "+/"[k - 62];
  }

  /** The literal table `chars` of the screens holds Symbol(k) at position k. */
  lemma TableAt(k: nat)
    requires k < 64
    ensures |Chars| == 64 && Chars[k] == Symbol(k)
  {
    if k < 26 {
      TableUpper(k);
    } else if k < 52 {
      TableLower(k);
    } else if k < 62 {
      TableDigit(k);
    } else {
      TableSign(k);
    }
  }

  /** `(a << 16) | (b << 8) | c` for three bytes; the shifted fields do not overlap. */
  function Triplet(a: byte, b: byte, c: byte): (t: nat)
    ensures t < 0x100_0000
  {
    a as int * 0x1_0000 + b as int * 0x100 + c as int
  }

  /** `(t >> shift) & 0x3f`: the 6-bit field of t that starts at bit `shift`. */
  function Sextet(t: nat, shift: nat): (r: nat)
    requires shift == 0 || shift == 6 || shift == 12 || shift == 18
    ensures r < 64
  {
    (if shift == 18 then t / 0x4_0000 else if shift == 12 then t / 0x1000
     else if shift == 6 then t / 0x40 else t) % 0x40
  }

  /** Division by one of the shift widths of the encoder leaves quotient q and
      remainder r when x == q * d + r. */
  lemma DivExact(x: int, d: int, q: int, r: int)
    requires d == 0x40 || d == 0x1000 || d == 0x4_0000
    requires 0 <= r < d && x == q * d + r
    ensures x / d == q && x % d == r
  {
    if d == 0x40 {
      assert x == q * 0x40 + r;
    } else if d == 0x1000 {
      assert x == q * 0x1000 + r;
    } else {
      assert x == q * 0x4_0000 + r;
    }
  }

  /** The four sextets of a triplet, as the bit fields of its three bytes. */
  lemma SextetsOf(a: byte, b: byte, c: byte)
    ensures var t := Triplet(a, b, c);
      && Sextet(t, 18) == a as int / 4
      && Sextet(t, 12) == (a as int % 4) * 16 + b as int / 16
      && Sextet(t, 6) == (b as int % 16) * 4 + c as int / 64
      && Sextet(t, 0) == c as int % 64
  {
    var x, y, z := a as int, b as int, c as int;
    var t := Triplet(a, b, c);
    var s0, s1 := x / 4, (x % 4) * 16 + y / 16;
    var s2, s3 := (y % 16) * 4 + z / 64, z % 64;
    DivExact(t, 0x4_0000, s0, (x % 4) * 0x1_0000 + y * 0x100 + z);
    DivExact(s0, 0x40, 0, s0);
    DivExact(t, 0x1000, x * 16 + y / 16, (y % 16) * 0x100 + z);
    DivExact(x * 16 + y / 16, 0x40, s0, s1);
    DivExact(t, 0x40, x * 0x400 + y * 4 + z / 64, s3);
    DivExact(x * 0x400 + y * 4 + z / 64, 0x40, x * 16 + y / 16, s2);
    DivExact(t, 0x40, x * 0x400 + y * 4 + z / 64, s3);
  }

  /** The four output characters for a group of `n` bytes (one to three) whose
      bytes are a, b, c, a missing byte read as 0: the sextets of missing bytes become '='. */
  function Quad(a: byte, b: byte, c: byte, n: nat): (q: string)
    requires 1 <= n <= 3
    ensures |q| == 4
  {
    var t := Triplet(a, b, c);
    [Symbol(Sextet(t, 18)), Symbol(Sextet(t, 12)),
     if n > 1 then Symbol(Sextet(t, 6)) else '=',
     if n > 2 then Symbol(Sextet(t, 0)) else '=']
  }

  function Min(x: int, y: int): int { if x < y then x else y }

  /** The encoding of a whole byte string: one quad per group of three bytes. */
  function Encode(bytes: seq<byte>): string
    decreases |bytes|
  {
    if |bytes| == 0 then ""
    else
      var n := Min(3, |bytes|);
      Quad(bytes[0], if n > 1 then bytes[1] else 0, if n > 2 then bytes[2] else 0, n)
      + Encode(bytes[n..])
  }

  lemma EncodeStep(bytes: seq<byte>)
    requires |bytes| > 0
    ensures var n := Min(3, |bytes|);
      Encode(bytes) == Quad(bytes[0], if n > 1 then bytes[1] else 0, if n > 2 then bytes[2] else 0, n) + Encode(bytes[n..])
  {}

  /** Number of '=' characters RFC 4648 appends for an input of n bytes. */
  function PadLength(n: nat): nat
  {
    if n % 3 == 0 then 0 else 3 - n % 3
  }

  /** The four appends of one loop round produce the group's quad. */
  lemma AppendsMakeQuad(before: string, a: byte, b: byte, c: byte, n: nat)
    requires 1 <= n <= 3
    ensures var t := Triplet(a, b, c);
      |Chars| == 64
      && before + [Chars[Sextet(t, 18)]] + [Chars[Sextet(t, 12)]]
           + [if n > 1 then Chars[Sextet(t, 6)] else '='] + [if n > 2 then Chars[Sextet(t, 0)] else '=']
         == before + Quad(a, b, c, n)
  {
    var t := Triplet(a, b, c);
    TableAt(Sextet(t, 18)); TableAt(Sextet(t, 12)); TableAt(Sextet(t, 6)); TableAt(Sextet(t, 0));
  }

  /** The quad of the group that starts at offset i, as one loop round computes it. */
  function GroupQuad(bytes: seq<byte>, i: nat): (q: string)
    requires i < |bytes|
    ensures |q| == 4
  {
    Quad(bytes[i], if i + 1 < |bytes| then bytes[i + 1] else 0,
         if i + 2 < |bytes| then bytes[i + 2] else 0, Min(3, |bytes| - i))
  }

  /** The encoding from offset i starts with the quad of the group at i. */
  lemma EncodeFrom(bytes: seq<byte>, i: nat)
    requires i < |bytes|
    ensures Encode(bytes[i..]) == GroupQuad(bytes, i) + Encode(bytes[i + Min(3, |bytes| - i)..])
  {
    var n := Min(3, |bytes| - i);
    EncodeStep(bytes[i..]);
    assert bytes[i..][n..] == bytes[i + n..];
  }

  /** Regrouping a three-part concatenation. */
  lemma Regroup(before: string, q: string, rest: string)
    ensures (before + q) + rest == before + (q + rest)
  {}

  /** One loop round consumes the group at offset i of the input: the output so
      far followed by this group's quad is the encoding of everything before the
      next group. */
  lemma LoopStep(bytes: seq<byte>, i: nat, before: string)
    requires i < |bytes|
    ensures before + Encode(bytes[i..]) == Encode(bytes) && i + 3 < |bytes| ==>
              (before + GroupQuad(bytes, i)) + Encode(bytes[i + 3..]) == Encode(bytes)
    ensures before + Encode(bytes[i..]) == Encode(bytes) && i + 3 >= |bytes| ==>
              before + GroupQuad(bytes, i) == Encode(bytes)
  {
    EncodeFrom(bytes, i);
    var q := GroupQuad(bytes, i);
    var rest := Encode(bytes[i + Min(3, |bytes| - i)..]);
    Regroup(before, q, rest);
    if i + 3 >= |bytes| {
      assert bytes[i + Min(3, |bytes| - i)..] == [];
      assert q + rest == q;
    }
  }

  /** The encoder as the screens write it: a loop over the input three bytes at a time. */
  method Uint8ArrayToBase64(bytes: seq<byte>) returns (result: string)
    ensures result == Encode(bytes)
  {
    CharsLength();
    result := "";
    var len := |bytes|;
    var i := 0;
    while i < len
      invariant 0 <= i
      invariant i < len ==> result + Encode(bytes[i..]) == Encode(bytes)
      invariant i >= len ==> result == Encode(bytes)
    {
      var a := bytes[i];
      var b := if i + 1 < len then bytes[i + 1] else 0;
      var c := if i + 2 < len then bytes[i + 2] else 0;
      var triplet := Triplet(a, b, c);
      ghost var n := Min(3, len - i);
      ghost var before := result;
      result := result + [Chars[Sextet(triplet, 18)]];
      result := result + [Chars[Sextet(triplet, 12)]];
      result := result + [if i + 1 < len then Chars[Sextet(triplet, 6)] else '='];
      result := result + [if i + 2 < len then Chars[Sextet(triplet, 0)] else '='];
      AppendsMakeQuad(before, a, b, c, n);
      LoopStep(bytes, i, before);
      i := i + 3;
    }
  }

  lemma GroupsShift(m: nat)
    ensures PadLength(m + 3) == PadLength(m) <= 2
    ensures (m + 3 + 2) / 3 == (m + 2) / 3 + 1
  {}

  /** s consists of symbols of the table followed by exactly `pad` '=' characters. */
  ghost predicate Padded(s: string, pad: nat)
  {
    && (forall i | 0 <= i < |s| :: SymbolValue(s[i]).Some? || s[i] == '=')
    && (forall i | 0 <= i < |s| :: s[i] == '=' <==> i >= |s| - pad)
  }

  /** One quad: symbols where bytes are present, '=' exactly after them. */
  lemma QuadShape(a: byte, b: byte, c: byte, n: nat)
    requires 1 <= n <= 3
    ensures Padded(Quad(a, b, c, n), 3 - n)
  {}

  /** A quad without padding in front of a padded rest keeps the rest's padding. */
  lemma PaddedConcat(q: string, rest: string, pad: nat)
    requires Padded(q, 0) && Padded(rest, pad) && pad <= |rest|
    ensures Padded(q + rest, pad)
  {
    var s := q + rest;
    forall i | 0 <= i < |s|
      ensures (SymbolValue(s[i]).Some? || s[i] == '=') && (s[i] == '=' <==> i >= |s| - pad)
    {
      if i >= |q| {
        assert s[i] == rest[i - |q|];
      } else {
        assert s[i] == q[i];
      }
    }
  }

  /** Length of the output: 4 * ceil(n / 3) characters for n bytes; nothing for nothing. */
  lemma {:induction false} EncodeLength(bytes: seq<byte>)
    ensures |Encode(bytes)| == 4 * ((|bytes| + 2) / 3)
    ensures Encode(bytes) == "" <==> bytes == []
    decreases |bytes|
  {
    if |bytes| > 0 {
      var n := Min(3, |bytes|);
      EncodeStep(bytes);
      EncodeLength(bytes[n..]);
      if n < 3 {
        assert (|bytes| + 2) / 3 == 1;
      } else {
        GroupsShift(|bytes| - 3);
      }
    }
  }

  /** The last group: its quad is the whole encoding. */
  lemma LastGroupPadded(q: string, rest: string, m: nat)
    requires 1 <= m <= 3 && Padded(q, 3 - m) && rest == ""
    ensures Padded(q + rest, PadLength(m))
  {
    assert q + rest == q;
  }

  /** A full group in front of the rest of the encoding. */
  lemma FullGroupPadded(q: string, rest: string, m: nat)
    requires |rest| == 4 * ((m + 2) / 3) && Padded(q, 0) && Padded(rest, PadLength(m))
    ensures Padded(q + rest, PadLength(m + 3))
  {
    GroupsShift(m);
    PaddedConcat(q, rest, PadLength(m));
  }

  /** Every output character is a symbol of the table or '=', and the '='
      characters are exactly the last PadLength(|bytes|) ones. */
  lemma {:induction false} EncodePadded(bytes: seq<byte>)
    ensures Padded(Encode(bytes), PadLength(|bytes|))
    decreases |bytes|
  {
    if |bytes| > 0 {
      var n := Min(3, |bytes|);
      var a, b, c := bytes[0], if n > 1 then bytes[1] else 0, if n > 2 then bytes[2] else 0;
      var q, rest := Quad(a, b, c, n), Encode(bytes[n..]);
      EncodeStep(bytes);
      QuadShape(a, b, c, n);
      EncodePadded(bytes[n..]);
      EncodeLength(bytes[n..]);
      if n < 3 {
        LastGroupPadded(q, rest, |bytes|);
      } else {
        assert n == 3 && |bytes[n..]| == |bytes| - 3;
        FullGroupPadded(q, rest, |bytes| - 3);
      }
    }
  }

  /** Number of '=' at the end: none for n % 3 == 0, two for n % 3 == 1, one for n % 3 == 2. */
  lemma PaddingCount(bytes: seq<byte>)
    ensures var s := Encode(bytes);
      && (|bytes| % 3 == 0 ==> forall i | 0 <= i < |s| :: s[i] != '=')
      && (|bytes| % 3 == 1 ==> s[|s| - 1] == '=' && s[|s| - 2] == '=' && s[|s| - 3] != '=')
      && (|bytes| % 3 == 2 ==> s[|s| - 1] == '=' && s[|s| - 2] != '=')
  {
    EncodeLength(bytes);
    EncodePadded(bytes);
  }

  /** A standard, strict decoder of section 4 of RFC 4648 for one group of four
      characters: `last` says whether padding is allowed here, and the bits that
      padding leaves over must be zero. */
  function DecodeQuad(q: string, last: bool): (r: Option<seq<byte>>)
    requires |q| == 4
    ensures r.Some? ==> 1 <= |r.value| <= 3 && (|r.value| < 3 ==> last)
  {
    var v0, v1, v2, v3 := SymbolValue(q[0]), SymbolValue(q[1]), SymbolValue(q[2]), SymbolValue(q[3]);
    if v0.None? || v1.None? then None
    else
      var b0 := (v0.value * 4 + v1.value / 16) as byte;
      if q[2] == '=' then
        if last && q[3] == '=' && v1.value % 16 == 0 then Some([b0]) else None
      else if v2.None? then None
      else
        var b1 := ((v1.value % 16) * 16 + v2.value / 4) as byte;
        if q[3] == '=' then
          if last && v2.value % 4 == 0 then Some([b0, b1]) else None
        else if v3.None? then None
        else Some([b0, b1, ((v2.value % 4) * 64 + v3.value) as byte])
  }

  /** Decodes a whole string; None for anything that is not canonical base 64. */
  function Decode(s: string): Option<seq<byte>>
    decreases |s|
  {
    if |s| == 0 then Some([])
    else if |s| < 4 then None
    else match DecodeQuad(s[..4], |s| == 4)
      case None => None
      case Some(group) =>
        match Decode(s[4..])
        case None => None
        case Some(rest) => Some(group + rest)
  }

  /** The decoder's bit arithmetic undoes the encoder's. */
  lemma FieldsRejoin(a: int, b: int, c: int)
    requires 0 <= a < 256 && 0 <= b < 256 && 0 <= c < 256
    ensures var v0, v1, v2, v3 := a / 4, (a % 4) * 16 + b / 16, (b % 16) * 4 + c / 64, c % 64;
      && v0 * 4 + v1 / 16 == a
      && (v1 % 16) * 16 + v2 / 4 == b
      && (v2 % 4) * 64 + v3 == c
      && (b == 0 ==> v1 % 16 == 0)
      && (c == 0 ==> v2 % 4 == 0)
  {
    assert ((a % 4) * 16 + b / 16) / 16 == a % 4;
    assert ((a % 4) * 16 + b / 16) % 16 == b / 16;
    assert ((b % 16) * 4 + c / 64) / 4 == b % 16;
    assert ((b % 16) * 4 + c / 64) % 4 == c / 64;
  }

  /** The encoder's bit arithmetic undoes the decoder's. */
  lemma FieldsSplit(v0: int, v1: int, v2: int, v3: int)
    requires 0 <= v0 < 64 && 0 <= v1 < 64 && 0 <= v2 < 64 && 0 <= v3 < 64
    ensures var a, b, c := v0 * 4 + v1 / 16, (v1 % 16) * 16 + v2 / 4, (v2 % 4) * 64 + v3;
      && 0 <= a < 256 && 0 <= b < 256 && 0 <= c < 256
      && a / 4 == v0 && (a % 4) * 16 + b / 16 == v1
      && (b % 16) * 4 + c / 64 == v2 && c % 64 == v3
  {
    var a, b, c := v0 * 4 + v1 / 16, (v1 % 16) * 16 + v2 / 4, (v2 % 4) * 64 + v3;
    assert a / 4 == v0 && a % 4 == v1 / 16;
    assert b / 16 == v1 % 16 && b % 16 == v2 / 4;
    assert c / 64 == v2 % 4 && c % 64 == v3;
  }

  /** The three bytes the decoder assembles from four sextets. */
  function Rejoined(v0: nat, v1: nat, v2: nat, v3: nat): (r: seq<byte>)
    requires v0 < 64 && v1 < 64 && v2 < 64 && v3 < 64
    ensures |r| == 3
  {
    [(v0 * 4 + v1 / 16) as byte, ((v1 % 16) * 16 + v2 / 4) as byte, ((v2 % 4) * 64 + v3) as byte]
  }

  /** A quad of symbols with values v0 .. v3, padded after n bytes with zero
      leftover bits, decodes to the first n rejoined bytes. */
  lemma DecodeOfSymbols(q: string, last: bool, v0: nat, v1: nat, v2: nat, v3: nat, n: nat)
    requires |q| == 4 && 1 <= n <= 3 && v0 < 64 && v1 < 64 && v2 < 64 && v3 < 64
    requires SymbolValue(q[0]) == Some(v0) && SymbolValue(q[1]) == Some(v1)
    requires if n > 1 then SymbolValue(q[2]) == Some(v2) else q[2] == '='
    requires if n > 2 then SymbolValue(q[3]) == Some(v3) else q[3] == '='
    requires n < 3 ==> last
    requires n == 1 ==> v1 % 16 == 0
    requires n == 2 ==> v2 % 4 == 0
    ensures DecodeQuad(q, last) == Some(Rejoined(v0, v1, v2, v3)[..n])
  {
    var r := Rejoined(v0, v1, v2, v3);
    if n == 1 {
      assert r[..1] == [r[0]];
    } else if n == 2 {
      assert r[..2] == [r[0], r[1]];
    } else {
      assert r[..3] == r;
    }
  }

  /** Rejoining the four sextets of a triplet gives back its three bytes. */
  lemma RejoinedSextets(a: byte, b: byte, c: byte)
    ensures var t := Triplet(a, b, c);
      Rejoined(Sextet(t, 18), Sextet(t, 12), Sextet(t, 6), Sextet(t, 0)) == [a, b, c]
  {
    var t := Triplet(a, b, c);
    SextetsOf(a, b, c);
    FieldsRejoin(a as int, b as int, c as int);
    var r := Rejoined(Sextet(t, 18), Sextet(t, 12), Sextet(t, 6), Sextet(t, 0));
    assert r[0] == a && r[1] == b && r[2] == c;
  }

  lemma QuadDecodes(a: byte, b: byte, c: byte, n: nat)
    requires 1 <= n <= 3
    requires n < 3 ==> c == 0
    requires n < 2 ==> b == 0
    ensures DecodeQuad(Quad(a, b, c, n), true) == Some([a, b, c][..n])
    ensures n == 3 ==> DecodeQuad(Quad(a, b, c, n), false) == Some([a, b, c])
  {
    var t := Triplet(a, b, c);
    var q := Quad(a, b, c, n);
    var v0, v1, v2, v3 := Sextet(t, 18), Sextet(t, 12), Sextet(t, 6), Sextet(t, 0);
    RejoinedSextets(a, b, c);
    DecodeOfSymbols(q, true, v0, v1, v2, v3, n);
    if n == 3 {
      DecodeOfSymbols(q, false, v0, v1, v2, v3, n);
      assert [a, b, c][..3] == [a, b, c];
    }
  }

  /** Decoding a group of four followed by the rest of the string. */
  lemma DecodeStep(q: string, rest: string)
    requires |q| == 4 && DecodeQuad(q, |rest| == 0).Some? && Decode(rest).Some?
    ensures Decode(q + rest) == Some(DecodeQuad(q, |rest| == 0).value + Decode(rest).value)
  {
    var s := q + rest;
    assert s[..4] == q && s[4..] == rest;
  }

  /** Decoding the encoder's output gives back the input bytes. */
  lemma {:induction false} DecodeEncode(bytes: seq<byte>)
    ensures Decode(Encode(bytes)) == Some(bytes)
    decreases |bytes|
  {
    if |bytes| > 0 {
      var n := Min(3, |bytes|);
      var a, b, c := bytes[0], if n > 1 then bytes[1] else 0, if n > 2 then bytes[2] else 0;
      var q, rest := Quad(a, b, c, n), Encode(bytes[n..]);
      EncodeStep(bytes);
      EncodeLength(bytes[n..]);
      DecodeEncode(bytes[n..]);
      QuadDecodes(a, b, c, n);
      assert bytes[..n] == [a, b, c][..n];
      assert DecodeQuad(q, |rest| == 0) == Some(bytes[..n]);
      DecodeStep(q, rest);
      assert bytes == bytes[..n] + bytes[n..];
    }
  }

  /** Bytes rejoined from four sextets split back into the same sextets. */
  lemma SextetsOfRejoined(v0: nat, v1: nat, v2: nat, v3: nat, a: byte, b: byte, c: byte)
    requires v0 < 64 && v1 < 64 && v2 < 64 && v3 < 64
    requires a as int == v0 * 4 + v1 / 16 && b as int == (v1 % 16) * 16 + v2 / 4
    requires c as int == (v2 % 4) * 64 + v3
    ensures var t := Triplet(a, b, c);
      Sextet(t, 18) == v0 && Sextet(t, 12) == v1 && Sextet(t, 6) == v2 && Sextet(t, 0) == v3
  {
    SextetsOf(a, b, c);
    FieldsSplit(v0, v1, v2, v3);
  }

  /** What a successful DecodeQuad saw: symbols where it produced bytes, '='
      after them, zero leftover bits, and the rejoined sextets (a missing sextet
      read as 0). */
  lemma DecodedShape(q: string, last: bool)
    requires |q| == 4 && DecodeQuad(q, last).Some?
    ensures var g := DecodeQuad(q, last).value; var n := |g|;
      && SymbolValue(q[0]).Some? && SymbolValue(q[1]).Some?
      && (if n > 1 then SymbolValue(q[2]).Some? else q[2] == '=')
      && (if n > 2 then SymbolValue(q[3]).Some? else q[3] == '=')
      && var v0, v1 := SymbolValue(q[0]).value, SymbolValue(q[1]).value;
         var v2 := if n > 1 then SymbolValue(q[2]).value else 0;
         var v3 := if n > 2 then SymbolValue(q[3]).value else 0;
         && (n == 1 ==> v1 % 16 == 0)
         && (n == 2 ==> v2 % 4 == 0)
         && g == Rejoined(v0, v1, v2, v3)[..n]
  {
    var g := DecodeQuad(q, last).value;
    var v0, v1 := SymbolValue(q[0]).value, SymbolValue(q[1]).value;
    if |g| == 1 {
      assert g == Rejoined(v0, v1, 0, 0)[..1];
    } else if |g| == 2 {
      assert g == Rejoined(v0, v1, SymbolValue(q[2]).value, 0)[..2];
    } else {
      assert g == Rejoined(v0, v1, SymbolValue(q[2]).value, SymbolValue(q[3]).value)[..3];
    }
  }

  lemma QuadOfDecoded(q: string, last: bool)
    requires |q| == 4 && DecodeQuad(q, last).Some?
    ensures var g := DecodeQuad(q, last).value;
      Quad(g[0], if |g| > 1 then g[1] else 0, if |g| > 2 then g[2] else 0, |g|) == q
  {
    var g := DecodeQuad(q, last).value;
    var n := |g|;
    DecodedShape(q, last);
    var v0, v1 := SymbolValue(q[0]).value, SymbolValue(q[1]).value;
    var v2 := if n > 1 then SymbolValue(q[2]).value else 0;
    var v3 := if n > 2 then SymbolValue(q[3]).value else 0;
    var r := Rejoined(v0, v1, v2, v3);
    var a, b, c := g[0], if n > 1 then g[1] else 0, if n > 2 then g[2] else 0;
    assert a == r[0] && b == r[1] && c == r[2];
    SextetsOfRejoined(v0, v1, v2, v3, a, b, c);
    SymbolOf(q[0]); SymbolOf(q[1]);
    if n > 1 { SymbolOf(q[2]); }
    if n > 2 { SymbolOf(q[3]); }
    var x := Quad(a, b, c, n);
    assert x[0] == q[0] && x[1] == q[1] && x[2] == q[2] && x[3] == q[3];
  }

  /** The decoder accepts only what the encoder produces: a successful decode of s
      re-encodes to s, so each byte string has exactly one encoding. */
  lemma {:induction false} EncodeDecode(s: string)
    requires Decode(s).Some?
    ensures Encode(Decode(s).value) == s
    decreases |s|
  {
    if |s| > 0 {
      var g := DecodeQuad(s[..4], |s| == 4).value;
      var rest := Decode(s[4..]).value;
      EncodeDecode(s[4..]);
      QuadOfDecoded(s[..4], |s| == 4);
      var bytes := g + rest;
      if |g| < 3 {
        assert |s[4..]| == 0;
        assert rest == [];
        assert bytes[|g|..] == [];
      } else {
        assert bytes[3..] == rest;
      }
      assert s == s[..4] + s[4..];
    }
  }
}
