/** The payload encoding of a DSSE envelope: section 4 of RFC 4648, read as strictly as the verifier does. */
module Base64 {
  import opened Prelude

  type Sextet = n: int | 0 <= n < 64

  const PAD: Byte := 61

  function Symbol(n: Sextet): (c: Byte)
    ensures c != PAD && 43 <= c <= 122 && c != 92
  {
    if n < 26 then 65 + n
    else if n < 52 then 71 + n
    else if n < 62 then n - 4
    else if n == 62 then 43
    else 47
  }

  function SextetOf(c: Byte): Option<Sextet> {
    if 65 <= c <= 90 then Some(c - 65)
    else if 97 <= c <= 122 then Some(c - 71)
    else if 48 <= c <= 57 then Some(c + 4)
    else if c == 43 then Some(62)
    else if c == 47 then Some(63)
    else None
  }

  // Three bytes are four sextets and back.
  function S0(a: Byte): Sextet { a / 4 }
  function S1(a: Byte, b: Byte): Sextet { a % 4 * 16 + b / 16 }
  function S2(b: Byte, c: Byte): Sextet { b % 16 * 4 + c / 64 }
  function S3(c: Byte): Sextet { c % 64 }
  function B0(w: Sextet, x: Sextet): Byte { w * 4 + x / 16 }
  function B1(x: Sextet, y: Sextet): Byte { x % 16 * 16 + y / 4 }
  function B2(y: Sextet, z: Sextet): Byte { y % 4 * 64 + z }

  function Encode(b: Bytes): Bytes {
    if |b| == 0 then []
    else if |b| == 1 then [Symbol(S0(b[0])), Symbol(S1(b[0], 0)), PAD, PAD]
    else if |b| == 2 then [Symbol(S0(b[0])), Symbol(S1(b[0], b[1])), Symbol(S2(b[1], 0)), PAD]
    else [Symbol(S0(b[0])), Symbol(S1(b[0], b[1])), Symbol(S2(b[1], b[2])), Symbol(S3(b[2]))] + Encode(b[3..])
  }

  /** Strict decoding; the unused bits of the last symbol before padding are not looked at. */
  function Decode(t: Bytes): Option<Bytes> {
    if |t| == 0 then Some([])
    else if |t| < 4 then None
    else
      var w, x, y, z := SextetOf(t[0]), SextetOf(t[1]), SextetOf(t[2]), SextetOf(t[3]);
      if w.None? || x.None? then None
      else if |t| == 4 && t[2] == PAD && t[3] == PAD then Some([B0(w.value, x.value)])
      else if y.None? then None
      else if |t| == 4 && t[3] == PAD then Some([B0(w.value, x.value), B1(x.value, y.value)])
      else if z.None? then None
      else
        var rest := Decode(t[4..]);
        if rest.None? then None
        else Some([B0(w.value, x.value), B1(x.value, y.value), B2(y.value, z.value)] + rest.value)
  }

  /** The bits a decoder drops are zero. */
  predicate PadBitsZero(t: Bytes) {
    if |t| < 4 then true
    else if |t| == 4 && t[2] == PAD then
      var x := SextetOf(t[1]); x.Some? && x.value % 16 == 0
    else if |t| == 4 && t[3] == PAD then
      var y := SextetOf(t[2]); y.Some? && y.value % 4 == 0
    else PadBitsZero(t[4..])
  }

  lemma SextetRoundTrip(c: Byte)
    ensures SextetOf(c).Some? ==> Symbol(SextetOf(c).value) == c
    ensures SextetOf(PAD).None?
  {
  }

  /** The alphabet and the bit order of table 1 and section 4 of RFC 4648. */
  lemma StandardAlphabet(a: Byte, b: Byte, c: Byte)
    ensures forall n: Sextet :: Symbol(n) ==
              if n < 26 then 'A' as int + n else if n < 52 then 'a' as int + n - 26
              else if n < 62 then '0' as int + n - 52 else if n == 62 then '+' as int else '/' as int
    ensures S0(a) * 262144 + S1(a, b) * 4096 + S2(b, c) * 64 + S3(c) == a * 65536 + b * 256 + c
    ensures PAD == '=' as int
  {
  }

  lemma SymbolInjective(m: Sextet, n: Sextet)
    ensures Symbol(m) == Symbol(n) <==> m == n
  {
  }

  lemma TripleRoundTrip(a: Byte, b: Byte, c: Byte)
    ensures B0(S0(a), S1(a, b)) == a && B1(S1(a, b), S2(b, c)) == b && B2(S2(b, c), S3(c)) == c
  {
  }

  lemma QuadRoundTrip(w: Sextet, x: Sextet, y: Sextet, z: Sextet)
    ensures S0(B0(w, x)) == w && S1(B0(w, x), B1(x, y)) == x
    ensures S2(B1(x, y), B2(y, z)) == y && S3(B2(y, z)) == z
    ensures S1(B0(w, x), 0) == x <==> x % 16 == 0
    ensures S2(B1(x, y), 0) == y <==> y % 4 == 0
  {
  }

  lemma GroupDecodes(a: Byte, b: Byte, c: Byte)
    ensures SextetOf(Symbol(S0(a))) == Some(S0(a)) && SextetOf(Symbol(S1(a, b))) == Some(S1(a, b))
    ensures SextetOf(Symbol(S2(b, c))) == Some(S2(b, c)) && SextetOf(Symbol(S3(c))) == Some(S3(c))
  {
  }

  lemma {:induction false} DecodeEncode(b: Bytes)
    ensures Decode(Encode(b)) == Some(b)
  {
    hide S0, S1, S2, S3, B0, B1, B2, SextetOf, Symbol;
    if |b| == 1 {
      GroupDecodes(b[0], 0, 0);
      TripleRoundTrip(b[0], 0, 0);
      assert b == [b[0]];
    } else if |b| == 2 {
      GroupDecodes(b[0], b[1], 0);
      TripleRoundTrip(b[0], b[1], 0);
      assert b == [b[0], b[1]];
    } else if |b| >= 3 {
      GroupDecodes(b[0], b[1], b[2]);
      TripleRoundTrip(b[0], b[1], b[2]);
      DecodeEncode(b[3..]);
      assert Encode(b)[4..] == Encode(b[3..]);
      assert b == [b[0], b[1], b[2]] + b[3..];
    }
  }

  /** A decodable text is the encoding of its bytes exactly when the dropped bits are zero. */
  lemma {:induction false} EncodeDecode(t: Bytes)
    requires Decode(t).Some?
    ensures Encode(Decode(t).value) == t <==> PadBitsZero(t)
    decreases t, 1
  {
    hide S0, S1, S2, S3, B0, B1, B2, SextetOf, Symbol;
    if |t| > 0 {
      var x := SextetOf(t[1]).value;
      SextetRoundTrip(t[0]);
      SextetRoundTrip(t[1]);
      SextetRoundTrip(t[2]);
      SextetRoundTrip(t[3]);
      var b := Decode(t).value;
      if |t| == 4 && t[2] == PAD && t[3] == PAD {
        QuadRoundTrip(SextetOf(t[0]).value, x, 0, 0);
        SymbolInjective(S1(b[0], 0), x);
        assert t == [t[0], t[1], PAD, PAD];
      } else if |t| == 4 && t[3] == PAD {
        var y := SextetOf(t[2]).value;
        QuadRoundTrip(SextetOf(t[0]).value, x, y, 0);
        SymbolInjective(S2(b[1], 0), y);
        assert t == [t[0], t[1], t[2], PAD];
      } else {
        EncodeDecodeGroup(t);
      }
    }
  }

  lemma {:induction false} EncodeDecodeGroup(t: Bytes)
    requires Decode(t).Some? && |t| >= 4 && (|t| > 4 || t[3] != PAD)
    ensures Encode(Decode(t).value) == t <==> PadBitsZero(t)
    decreases t, 0
  {
    hide S0, S1, S2, S3, B0, B1, B2, SextetOf, Symbol;
    SextetRoundTrip(t[0]);
    SextetRoundTrip(t[1]);
    SextetRoundTrip(t[2]);
    SextetRoundTrip(t[3]);
    QuadRoundTrip(SextetOf(t[0]).value, SextetOf(t[1]).value, SextetOf(t[2]).value, SextetOf(t[3]).value);
    EncodeDecode(t[4..]);
    var b, rest := Decode(t).value, Decode(t[4..]).value;
    assert b[3..] == rest;
    assert Encode(b) == t[..4] + Encode(rest);
    assert t == t[..4] + t[4..];
    assert Encode(b)[4..] == Encode(rest);
  }

  lemma {:induction false} EncodeIsGraphic(b: Bytes)
    ensures forall k :: 0 <= k < |Encode(b)| ==> 43 <= Encode(b)[k] <= 122 && Encode(b)[k] != 92
  {
    if |b| >= 3 {
      EncodeIsGraphic(b[3..]);
    }
  }
}
