/** Strict UTF-8: shortest form, no surrogates, nothing above U+10FFFF. Bit tests and
    shifts on a byte are written as ranges and powers of two. */
module Utf8 {
  type Byte = b: nat | b < 256

  const MIN2: nat := 0x80
  const MIN3: nat := 0x800
  const MIN4: nat := 0x10000
  const MAX_CODEPOINT: nat := 0x10FFFF
  const SURROGATE_FIRST: nat := 0xD800
  const SURROGATE_LAST: nat := 0xDFFF

  predicate Scalar(cp: nat) {
    cp <= MAX_CODEPOINT && !(SURROGATE_FIRST <= cp <= SURROGATE_LAST)
  }

  function EncodedLen(cp: nat): nat {
    if cp < MIN2 then 1 else if cp < MIN3 then 2 else if cp < MIN4 then 3 else 4
  }

  function Encode(cp: nat): (r: seq<Byte>)
    requires Scalar(cp)
    ensures |r| == EncodedLen(cp)
  {
    match EncodedLen(cp)
    case 1 => [cp]
    case 2 => [0xC0 + cp / 0x40, 0x80 + cp % 0x40]
    case 3 => [0xE0 + cp / 0x1000, 0x80 + cp / 0x40 % 0x40, 0x80 + cp % 0x40]
    case _ => [0xF0 + cp / 0x40000, 0x80 + cp / 0x1000 % 0x40, 0x80 + cp / 0x40 % 0x40, 0x80 + cp % 0x40]
  }

  predicate Continues(b: Byte) {
    0x80 <= b < 0xC0
  }

  datatype Decoded = Invalid | Valid(cp: nat, len: nat)

  /** The lead byte: sequence length (0 for none), smallest code point of that length, and
      the bits it carries. */
  function LeadLen(b: Byte): nat {
    if b < 0x80 then 1 else if 0xC0 <= b < 0xE0 then 2 else if 0xE0 <= b < 0xF0 then 3 else if 0xF0 <= b < 0xF8 then 4 else 0
  }

  function LeadBits(b: Byte): nat {
    if b < 0x80 then b else if b < 0xE0 then b % 0x20 else if b < 0xF0 then b % 0x10 else b % 8
  }

  function Least(len: nat): nat {
    if len <= 1 then 0 else if len == 2 then MIN2 else if len == 3 then MIN3 else MIN4
  }

  /** The lead's bits followed by those of the continuation bytes. */
  function Value(bits: nat, tail: seq<Byte>): nat {
    if tail == [] then bits else Value(bits, tail[..|tail| - 1]) * 0x40 + tail[|tail| - 1] % 0x40
  }

  function Decode(s: seq<Byte>): Decoded {
    if s == [] || LeadLen(s[0]) == 0 || |s| < LeadLen(s[0]) then Invalid
    else
      var len := LeadLen(s[0]);
      var cp := Value(LeadBits(s[0]), s[1..len]);
      if (forall i :: 1 <= i < len ==> Continues(s[i])) && Least(len) <= cp && Scalar(cp) then Valid(cp, len)
      else Invalid
  }

  /** The decoder's own loop over the continuation bytes. */
  method DecodeFront(s: seq<Byte>) returns (r: Decoded)
    ensures r == Decode(s)
  {
    if s == [] {
      return Invalid;
    }
    var len := LeadLen(s[0]);
    if len == 1 {
      assert s[1..1] == [];
      return Valid(s[0], 1);
    }
    if len == 0 || |s| < len {
      return Invalid;
    }
    var cp := LeadBits(s[0]);
    for i := 1 to len
      invariant forall j :: 1 <= j < i ==> Continues(s[j])
      invariant cp == Value(LeadBits(s[0]), s[1..i])
    {
      if !Continues(s[i]) {
        return Invalid;
      }
      assert s[1..i + 1][..i - 1] == s[1..i];
      cp := cp * 0x40 + s[i] % 0x40;
    }
    if cp < Least(len) || cp > MAX_CODEPOINT || SURROGATE_FIRST <= cp <= SURROGATE_LAST {
      return Invalid;
    }
    return Valid(cp, len);
  }

  // ---- values of short tails ---------------------------------------------

  lemma Value1(bits: nat, a: Byte)
    ensures Value(bits, [a]) == bits * 0x40 + a % 0x40
  {
    assert [a][..0] == [];
  }

  lemma Value2(bits: nat, a: Byte, b: Byte)
    ensures Value(bits, [a, b]) == (bits * 0x40 + a % 0x40) * 0x40 + b % 0x40
  {
    Value1(bits, a);
    assert [a, b][..1] == [a];
  }

  lemma Value3(bits: nat, a: Byte, b: Byte, c: Byte)
    ensures Value(bits, [a, b, c]) == ((bits * 0x40 + a % 0x40) * 0x40 + b % 0x40) * 0x40 + c % 0x40
  {
    Value2(bits, a, b);
    assert [a, b, c][..2] == [a, b];
  }

  lemma ValueNone(bits: nat)
    ensures Value(bits, []) == bits
  {
  }

  /** The low digit to base 64 and what is above it. */
  lemma LowDigit(q: nat, d: nat)
    requires d < 0x40
    ensures (q * 0x40 + d) / 0x40 == q && (q * 0x40 + d) % 0x40 == d
  {
  }

  lemma HigherDigits(cp: nat)
    ensures cp / 0x1000 == cp / 0x40 / 0x40
    ensures cp / 0x40000 == cp / 0x40 / 0x40 / 0x40
  {
  }

  // ---- round trips -------------------------------------------------------

  lemma DecodeIs(s: seq<Byte>, len: nat, cp: nat)
    requires s != [] && 1 <= len == LeadLen(s[0]) <= |s|
    requires forall i :: 1 <= i < len ==> Continues(s[i])
    requires Value(LeadBits(s[0]), s[1..len]) == cp && Least(len) <= cp && Scalar(cp)
    ensures Decode(s) == Valid(cp, len)
  {
    hide Value, LeadLen, LeadBits;
  }

  lemma DecodeEncode(cp: nat, rest: seq<Byte>)
    requires Scalar(cp)
    ensures Decode(Encode(cp) + rest) == Valid(cp, EncodedLen(cp))
  {
    hide Value, Decode;
    var s := Encode(cp) + rest;
    var len := EncodedLen(cp);
    if len == 1 {
      ValueNone(cp);
      assert s[1..1] == [];
      DecodeIs(s, 1, cp);
    } else if len == 2 {
      Encoded2(cp, s);
    } else if len == 3 {
      Encoded3(cp, s);
    } else {
      Encoded4(cp, s);
    }
  }

  lemma Encoded2(cp: nat, s: seq<Byte>)
    requires Scalar(cp) && EncodedLen(cp) == 2 && |s| >= 2 && s[..2] == Encode(cp)
    ensures Decode(s) == Valid(cp, 2)
  {
    hide Value, Decode;
    var a, b := s[..2][0], s[..2][1];
    assert s[1..2] == [b];
    Value1(cp / 0x40, b);
    DecodeIs(s, 2, cp);
  }

  lemma Encoded3(cp: nat, s: seq<Byte>)
    requires Scalar(cp) && EncodedLen(cp) == 3 && |s| >= 3 && s[..3] == Encode(cp)
    ensures Decode(s) == Valid(cp, 3)
  {
    hide Value, Decode;
    HigherDigits(cp);
    var a, b, c := s[..3][0], s[..3][1], s[..3][2];
    assert s[1..3] == [b, c];
    Value2(cp / 0x1000, b, c);
    DecodeIs(s, 3, cp);
  }

  lemma Encoded4(cp: nat, s: seq<Byte>)
    requires Scalar(cp) && EncodedLen(cp) == 4 && |s| >= 4 && s[..4] == Encode(cp)
    ensures Decode(s) == Valid(cp, 4)
  {
    hide Value, Decode, LeadLen, LeadBits;
    var a, b, c, d := s[..4][0], s[..4][1], s[..4][2], s[..4][3];
    Lead4(cp / 0x40000);
    TailByte(cp / 0x1000 % 0x40);
    TailByte(cp / 0x40 % 0x40);
    TailByte(cp % 0x40);
    assert s[1..4] == [b, c, d];
    Value3(cp / 0x40000, b, c, d);
    Compose4(cp);
    DecodeIs(s, 4, cp);
  }

  lemma Lead4(q: nat)
    requires q < 8
    ensures LeadLen(0xF0 + q) == 4 && LeadBits(0xF0 + q) == q
  {
  }

  lemma TailByte(d: nat)
    requires d < 0x40
    ensures (0x80 + d) % 0x40 == d && Continues(0x80 + d)
  {
  }

  lemma Compose4(cp: nat)
    ensures cp == ((cp / 0x40000 * 0x40 + cp / 0x1000 % 0x40) * 0x40 + cp / 0x40 % 0x40) * 0x40 + cp % 0x40
  {
    HigherDigits(cp);
  }

  /** The decoder accepts nothing but encodings. */
  lemma DecodeIsStrict(s: seq<Byte>)
    requires Decode(s).Valid?
    ensures Scalar(Decode(s).cp) && Decode(s).len <= |s| && s[..Decode(s).len] == Encode(Decode(s).cp)
    ensures Decode(s).len == EncodedLen(Decode(s).cp)
  {
    hide Value, Encode;
    var len := LeadLen(s[0]);
    assert forall i :: 1 <= i < len ==> Continues(s[i]);
    if len == 1 {
      ValueNone(s[0]);
      assert s[1..1] == [];
      assert s[..1] == [s[0]];
      EncodesAs1(s[0]);
    } else if len == 2 {
      assert s[1..2] == [s[1]] && s[..2] == [s[0], s[1]];
      Value1(LeadBits(s[0]), s[1]);
      EncodesAs2(s[0], s[1]);
    } else if len == 3 {
      assert s[1..3] == [s[1], s[2]] && s[..3] == [s[0], s[1], s[2]];
      Value2(LeadBits(s[0]), s[1], s[2]);
      EncodesAs3(s[0], s[1], s[2]);
    } else {
      assert s[1..4] == [s[1], s[2], s[3]] && s[..4] == [s[0], s[1], s[2], s[3]];
      Value3(LeadBits(s[0]), s[1], s[2], s[3]);
      EncodesAs4(s[0], s[1], s[2], s[3]);
    }
  }

  lemma EncodesAs1(a: Byte)
    requires a < 0x80
    ensures Scalar(a) && Encode(a) == [a]
  {
  }

  lemma EncodesAs2(a: Byte, b: Byte)
    requires LeadLen(a) == 2 && Continues(b) && MIN2 <= LeadBits(a) * 0x40 + b % 0x40
    ensures var cp := LeadBits(a) * 0x40 + b % 0x40;
      Scalar(cp) && Encode(cp) == [a, b]
  {
    LowDigit(LeadBits(a), b % 0x40);
  }

  lemma EncodesAs3(a: Byte, b: Byte, c: Byte)
    requires LeadLen(a) == 3 && Continues(b) && Continues(c)
    requires var cp := (LeadBits(a) * 0x40 + b % 0x40) * 0x40 + c % 0x40; MIN3 <= cp && Scalar(cp)
    ensures Encode((LeadBits(a) * 0x40 + b % 0x40) * 0x40 + c % 0x40) == [a, b, c]
  {
    Digits3(LeadBits(a), b % 0x40, c % 0x40);
    assert 0xE0 + LeadBits(a) == a;
  }

  lemma Digits3(x: nat, p: nat, q: nat)
    requires p < 0x40 && q < 0x40
    ensures var cp := (x * 0x40 + p) * 0x40 + q;
      cp / 0x1000 == x && cp / 0x40 % 0x40 == p && cp % 0x40 == q
  {
    LowDigit(x * 0x40 + p, q);
    LowDigit(x, p);
    HigherDigits((x * 0x40 + p) * 0x40 + q);
  }

  lemma EncodesAs4(a: Byte, b: Byte, c: Byte, d: Byte)
    requires LeadLen(a) == 4 && Continues(b) && Continues(c) && Continues(d)
    requires var cp := ((LeadBits(a) * 0x40 + b % 0x40) * 0x40 + c % 0x40) * 0x40 + d % 0x40; MIN4 <= cp && Scalar(cp)
    ensures Encode(((LeadBits(a) * 0x40 + b % 0x40) * 0x40 + c % 0x40) * 0x40 + d % 0x40) == [a, b, c, d]
  {
    Digits4(LeadBits(a), b % 0x40, c % 0x40, d % 0x40);
    assert 0xF0 + LeadBits(a) == a;
  }

  lemma Digits4(x: nat, p: nat, q: nat, r: nat)
    requires p < 0x40 && q < 0x40 && r < 0x40
    ensures var cp := ((x * 0x40 + p) * 0x40 + q) * 0x40 + r;
      cp / 0x40000 == x && cp / 0x1000 % 0x40 == p && cp / 0x40 % 0x40 == q && cp % 0x40 == r
  {
    var cp := ((x * 0x40 + p) * 0x40 + q) * 0x40 + r;
    LowDigit((x * 0x40 + p) * 0x40 + q, r);
    LowDigit(x * 0x40 + p, q);
    LowDigit(x, p);
    HigherDigits(cp);
  }

  /** Decoding is the inverse of encoding at the front of a string, and of nothing else. */
  lemma DecodeIff(s: seq<Byte>, cp: nat, n: nat)
    ensures Decode(s) == Valid(cp, n) <==> Scalar(cp) && n == EncodedLen(cp) <= |s| && s[..n] == Encode(cp)
  {
    hide Decode, Encode;
    if Decode(s).Valid? {
      DecodeIsStrict(s);
    }
    if Scalar(cp) && n == EncodedLen(cp) <= |s| && s[..n] == Encode(cp) {
      assert s == s[..n] + s[n..];
      DecodeEncode(cp, s[n..]);
    }
  }

  // ---- whole strings -----------------------------------------------------

  ghost predicate Scalars(cps: seq<nat>) {
    forall i :: 0 <= i < |cps| ==> Scalar(cps[i])
  }

  function EncodeAll(cps: seq<nat>): seq<Byte>
    requires Scalars(cps)
  {
    if cps == [] then [] else Encode(cps[0]) + EncodeAll(cps[1..])
  }

  datatype Text = Malformed | Text(cps: seq<nat>)

  function DecodeAll(s: seq<Byte>): Text
    decreases |s|
  {
    if s == [] then Text([])
    else
      var d := Decode(s);
      if d.Invalid? then Malformed
      else
        var rest := DecodeAll(s[d.len..]);
        if rest.Malformed? then Malformed else Text([d.cp] + rest.cps)
  }

  lemma {:induction false} DecodeAllEncodeAll(cps: seq<nat>)
    requires Scalars(cps)
    ensures DecodeAll(EncodeAll(cps)) == Text(cps)
  {
    hide Decode, Encode;
    if cps != [] {
      var rest := EncodeAll(cps[1..]);
      DecodeEncode(cps[0], rest);
      DecodeAllEncodeAll(cps[1..]);
      assert (Encode(cps[0]) + rest)[EncodedLen(cps[0])..] == rest;
    }
  }

  lemma {:induction false} DecodeAllIsStrict(s: seq<Byte>)
    requires DecodeAll(s).Text?
    ensures Scalars(DecodeAll(s).cps) && s == EncodeAll(DecodeAll(s).cps)
    decreases |s|
  {
    hide Decode, Encode;
    if s != [] {
      var d := Decode(s);
      DecodeIsStrict(s);
      DecodeAllIsStrict(s[d.len..]);
      var cps := DecodeAll(s).cps;
      assert cps[1..] == DecodeAll(s[d.len..]).cps;
      assert s == s[..d.len] + s[d.len..];
    }
  }

  /** The code points up to the first sequence that does not decode, and whether there is
      one. */
  datatype Prefix = Prefix(cps: seq<nat>, cut: bool)

  function DecodePrefix(s: seq<Byte>): Prefix
    decreases |s|
  {
    if s == [] then Prefix([], false)
    else
      var d := Decode(s);
      if d.Invalid? then Prefix([], true)
      else
        var rest := DecodePrefix(s[d.len..]);
        Prefix([d.cp] + rest.cps, rest.cut)
  }

  /** Nothing is cut off exactly when the whole string decodes, to those code points. */
  lemma {:induction false} WholeIff(s: seq<Byte>)
    ensures var p := DecodePrefix(s);
      DecodeAll(s) == if p.cut then Malformed else Text(p.cps)
    decreases |s|
  {
    hide Value;
    if s != [] && Decode(s).Valid? {
      WholeIff(s[Decode(s).len..]);
    }
  }

  method DecodeName(s: seq<Byte>) returns (p: Prefix)
    ensures p == DecodePrefix(s)
  {
    hide Value;
    var cps: seq<nat>, rest := [], s;
    while rest != []
      invariant var r := DecodePrefix(rest); DecodePrefix(s) == Prefix(cps + r.cps, r.cut)
      decreases |rest|
    {
      var d := DecodeFront(rest);
      if d.Invalid? {
        return Prefix(cps, true);
      }
      cps, rest := cps + [d.cp], rest[d.len..];
    }
    return Prefix(cps, false);
  }
}
