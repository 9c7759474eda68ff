/** Base64 as the run record uses it, against the decoder of section 4 of RFC 4648. */
module Base64 {
  import opened Common
  import opened Wire

  const UPPER := "ABCDEFGHIJKLMNOPQRSTUVWXYZ"
  const LOWER := "abcdefghijklmnopqrstuvwxyz"
  const DIGITS := "0123456789"
  const ALPHABET: string := UPPER + LOWER + DIGITS + "+/"

  type Sextet = v: int | 0 <= v < 64

  function Symbol(v: Sextet): char {
    ALPHABET[v]
  }

  /** The value of a symbol of the alphabet. */
  function SymbolValue(c: char): Option<Sextet> {
    if 'A' <= c <= 'Z' then Some(c as int - 'A' as int)
    else if 'a' <= c <= 'z' then Some(c as int - 'a' as int + 26)
    else if '0' <= c <= '9' then Some(c as int - '0' as int + 52)
    else if c == '+' then Some(62)
    else if c == '/' then Some(63)
    else None
  }

  lemma UpperAt(i: nat)
    requires i < 26
    ensures UPPER[i] as int == 'A' as int + i
  {
  }

  lemma LowerAt(i: nat)
    requires i < 26
    ensures LOWER[i] as int == 'a' as int + i
  {
  }

  lemma DigitAt(i: nat)
    requires i < 10
    ensures DIGITS[i] as int == '0' as int + i
  {
  }

  /** The table in closed form: three runs of consecutive characters and two single ones. */
  lemma SymbolIs(v: Sextet)
    ensures v < 26 ==> Symbol(v) as int == 'A' as int + v
    ensures 26 <= v < 52 ==> Symbol(v) as int == 'a' as int + v - 26
    ensures 52 <= v < 62 ==> Symbol(v) as int == '0' as int + v - 52
    ensures v == 62 ==> Symbol(v) == '+'
    ensures v == 63 ==> Symbol(v) == '/'
  {
    if v < 26 {
      UpperAt(v);
    } else if v < 52 {
      LowerAt(v - 26);
    } else if v < 62 {
      DigitAt(v - 52);
    }
  }

  /** The symbol table and the symbol values are inverse to each other, and no symbol is the pad. */
  lemma SymbolRoundTrip(v: Sextet)
    ensures SymbolValue(Symbol(v)) == Some(v) && Symbol(v) != '='
  {
    hide Symbol;
    SymbolIs(v);
  }

  lemma ValueRoundTrip(c: char)
    requires SymbolValue(c).Some?
    ensures Symbol(SymbolValue(c).value) == c
  {
    hide Symbol;
    SymbolIs(SymbolValue(c).value);
  }

  // ----- 24 bits -----

  datatype Quad = Quad(v0: Sextet, v1: Sextet, v2: Sextet, v3: Sextet)
  datatype Triple = Triple(a: Byte, b: Byte, c: Byte)

  /** The 24 bits of three bytes as four groups of six. */
  function Pack(t: Triple): Quad {
    var n: nat := t.a as int * 0x1_0000 + t.b as int * 0x100 + t.c;
    Quad(n / 0x4_0000, n / 0x1000 % 64, n / 64 % 64, n % 64)
  }

  function Unpack(q: Quad): Triple {
    Triple(q.v0 as int * 4 + q.v1 / 16, q.v1 as int % 16 * 16 + q.v2 / 4, q.v2 as int % 4 * 64 + q.v3)
  }

  lemma Div4(x: int, q: int, r: int)
    requires x == 4 * q + r && 0 <= r < 4
    ensures x / 4 == q && x % 4 == r
  {
  }

  lemma Div16(x: int, q: int, r: int)
    requires x == 16 * q + r && 0 <= r < 16
    ensures x / 16 == q && x % 16 == r
  {
  }

  lemma Div64(x: int, q: int, r: int)
    requires x == 64 * q + r && 0 <= r < 64
    ensures x / 64 == q && x % 64 == r
  {
  }

  lemma Div4096(x: int, q: int, r: int)
    requires x == 0x1000 * q + r && 0 <= r < 0x1000
    ensures x / 0x1000 == q
  {
  }

  lemma Div262144(x: int, q: int, r: int)
    requires x == 0x4_0000 * q + r && 0 <= r < 0x4_0000
    ensures x / 0x4_0000 == q
  {
  }

  /** The four sextets of 24 bits given as bytes split at the sextet boundaries. */
  lemma Sextets(n: int, v0: int, v1: int, v2: int, v3: int)
    requires 0 <= v0 < 64 && 0 <= v1 < 64 && 0 <= v2 < 64 && 0 <= v3 < 64
    requires n == 0x4_0000 * v0 + 0x1000 * v1 + 64 * v2 + v3
    ensures n / 0x4_0000 == v0 && n / 0x1000 % 64 == v1 && n / 64 % 64 == v2 && n % 64 == v3
  {
    Div262144(n, v0, 0x1000 * v1 + 64 * v2 + v3);
    Div4096(n, 64 * v0 + v1, 64 * v2 + v3);
    Div64(64 * v0 + v1, v0, v1);
    Div64(n, 0x1000 * v0 + 64 * v1 + v2, v3);
    Div64(0x1000 * v0 + 64 * v1 + v2, 64 * v0 + v1, v2);
  }

  lemma PackIs(t: Triple)
    ensures Pack(t) == Quad(t.a / 4, t.a as int % 4 * 16 + t.b / 16, t.b as int % 16 * 4 + t.c / 64, t.c % 64)
  {
    Sextets(t.a as int * 0x1_0000 + t.b as int * 0x100 + t.c,
            t.a / 4, t.a as int % 4 * 16 + t.b / 16, t.b as int % 16 * 4 + t.c / 64, t.c % 64);
  }

  /** Packing and unpacking are inverse to each other. */
  lemma PackUnpack(t: Triple, q: Quad)
    ensures Unpack(Pack(t)) == t
    ensures Pack(Unpack(q)) == q
  {
    UnpackOfPack(t);
    PackOfUnpack(q);
  }

  lemma UnpackOfPack(t: Triple)
    ensures Unpack(Pack(t)) == t
  {
    hide Pack;
    PackIs(t);
    Div16(t.a as int % 4 * 16 + t.b / 16, t.a % 4, t.b / 16);
    Div4(t.b as int % 16 * 4 + t.c / 64, t.b % 16, t.c / 64);
  }

  lemma PackOfUnpack(q: Quad)
    ensures Pack(Unpack(q)) == q
  {
    hide Pack;
    PackIs(Unpack(q));
    Div4(q.v0 as int * 4 + q.v1 / 16, q.v0, q.v1 / 16);
    Div16(q.v1 as int % 16 * 16 + q.v2 / 4, q.v1 % 16, q.v2 / 4);
    Div64(q.v2 as int % 4 * 64 + q.v3, q.v2 % 4, q.v3);
  }

  // ----- one group -----

  /** A chunk of one to three bytes, absent bytes reading as zero. */
  function Filled(chunk: Bytes): Triple
    requires 1 <= |chunk| <= 3
  {
    Triple(chunk[0], if |chunk| > 1 then chunk[1] else 0, if |chunk| > 2 then chunk[2] else 0)
  }

  /** The four characters of a chunk. */
  function Group(chunk: Bytes): (g: string)
    requires 1 <= |chunk| <= 3
    ensures |g| == 4
  {
    var q := Pack(Filled(chunk));
    [Symbol(q.v0),
     Symbol(q.v1),
     if |chunk| > 1 then Symbol(q.v2) else '=',
     if |chunk| > 2 then Symbol(q.v3) else '=']
  }

  /** How many bytes a group of four characters carries. */
  function Carried(g: string): nat
    requires |g| == 4
  {
    if g[3] != '=' then 3 else if g[2] != '=' then 2 else 1
  }

  /** The bytes of one group. The bits a padded group does not carry must be zero. */
  function DecodeGroup(g: string): (r: Option<Bytes>)
    requires |g| == 4
    ensures r.Some? ==> |r.value| == Carried(g)
  {
    var k := Carried(g);
    var v0, v1 := SymbolValue(g[0]), SymbolValue(g[1]);
    var v2 := if k > 1 then SymbolValue(g[2]) else Some(0);
    var v3 := if k > 2 then SymbolValue(g[3]) else Some(0);
    if v0.None? || v1.None? || v2.None? || v3.None? then None
    else
      var t := Unpack(Quad(v0.value, v1.value, v2.value, v3.value));
      if (k < 2 && t.b != 0) || (k < 3 && t.c != 0) then None else Some([t.a, t.b, t.c][..k])
  }

  lemma GroupRoundTrip(chunk: Bytes)
    requires 1 <= |chunk| <= 3
    ensures DecodeGroup(Group(chunk)) == Some(chunk)
    ensures |chunk| < 3 <==> Group(chunk)[3] == '='
    ensures |chunk| < 2 <==> Group(chunk)[2] == '='
    ensures Group(chunk)[0] != '=' && Group(chunk)[1] != '='
  {
    hide Symbol, SymbolValue, Pack, Unpack;
    var t := Filled(chunk);
    var q := Pack(t);
    PackUnpack(t, q);
    SymbolRoundTrip(q.v0);
    SymbolRoundTrip(q.v1);
    SymbolRoundTrip(q.v2);
    SymbolRoundTrip(q.v3);
    UnusedSextets(t);
    assert [t.a, t.b, t.c][..|chunk|] == chunk;
  }

  /** The sextets that hold only absent bytes are zero. */
  lemma UnusedSextets(t: Triple)
    ensures t.c == 0 ==> Pack(t).v3 == 0
    ensures t.c == 0 && t.b == 0 ==> Pack(t).v2 == 0
  {
    hide Pack;
    PackIs(t);
  }

  lemma GroupDecodes(g: string)
    requires |g| == 4 && DecodeGroup(g).Some?
    ensures Group(DecodeGroup(g).value) == g
  {
    hide Symbol, SymbolValue, Pack, Unpack;
    var k := Carried(g);
    var v2 := if k > 1 then SymbolValue(g[2]).value else 0;
    var v3 := if k > 2 then SymbolValue(g[3]).value else 0;
    var q := Quad(SymbolValue(g[0]).value, SymbolValue(g[1]).value, v2, v3);
    PackUnpack(Unpack(q), q);
    ValueRoundTrip(g[0]);
    ValueRoundTrip(g[1]);
    if k > 1 {
      ValueRoundTrip(g[2]);
    }
    if k > 2 {
      ValueRoundTrip(g[3]);
    }
    assert Filled(DecodeGroup(g).value) == Unpack(q);
  }

  // ----- whole messages -----

  function Encode(bytes: Bytes): string {
    if bytes == [] then ""
    else if |bytes| <= 3 then Group(bytes)
    else Group(bytes[..3]) + Encode(bytes[3..])
  }

  /** The decoder of the standard: whole groups, and padding in the last one only. */
  function Decode(s: string): Option<Bytes> {
    if s == "" then Some([])
    else if |s| < 4 then None
    else if |s| == 4 then DecodeGroup(s)
    else if s[3] == '=' then None
    else
      var group, rest := DecodeGroup(s[..4]), Decode(s[4..]);
      if group.None? || rest.None? then None else Some(group.value + rest.value)
  }

  /** The encoder's loop over three-byte chunks. */
  method EncodeBytes(bytes: Bytes) returns (out: string)
    ensures out == Encode(bytes)
  {
    hide Group;
    out := "";
    var i := 0;
    while i < |bytes|
      invariant i <= |bytes| && out + Encode(bytes[i..]) == Encode(bytes)
    {
      var end := if i + 3 <= |bytes| then i + 3 else |bytes|;
      var chunk := bytes[i..end];
      EncodeStep(bytes[i..], end - i);
      assert bytes[i..][..end - i] == chunk && bytes[i..][end - i..] == bytes[end..];
      assert out + (Group(chunk) + Encode(bytes[end..])) == out + Group(chunk) + Encode(bytes[end..]);
      out := out + Group(chunk);
      i := end;
    }
  }

  lemma EncodeStep(bytes: Bytes, k: nat)
    requires bytes != [] && k == if |bytes| < 3 then |bytes| else 3
    ensures Encode(bytes) == Group(bytes[..k]) + Encode(bytes[k..])
  {
    hide Group;
    assert |bytes| <= 3 ==> bytes[..k] == bytes && bytes[k..] == [];
  }

  /** Decoding what was encoded gives the input back, for every byte sequence. */
  lemma {:induction false} DecodeEncode(bytes: Bytes)
    ensures Decode(Encode(bytes)) == Some(bytes)
  {
    hide Group, DecodeGroup;
    if bytes != [] && |bytes| <= 3 {
      GroupRoundTrip(bytes);
    } else if bytes != [] {
      var chunk, rest := bytes[..3], bytes[3..];
      GroupRoundTrip(chunk);
      DecodeEncode(rest);
      EncodedShape(rest);
      var s := Encode(bytes);
      assert s[..4] == Group(chunk) && s[4..] == Encode(rest) && s[3] == Group(chunk)[3];
      assert chunk + rest == bytes;
    }
  }

  /** The encoder is the only thing the decoder inverts: every text that decodes is the encoding of its bytes. */
  lemma {:induction false} EncodeDecode(s: string)
    requires Decode(s).Some?
    ensures Encode(Decode(s).value) == s
  {
    hide Group, DecodeGroup;
    if |s| == 4 {
      GroupDecodes(s);
    } else if s != "" {
      var group, rest := DecodeGroup(s[..4]).value, Decode(s[4..]).value;
      GroupDecodes(s[..4]);
      EncodeDecode(s[4..]);
      assert rest != [];
      var bytes := group + rest;
      assert bytes[..3] == group && bytes[3..] == rest;
      assert s == s[..4] + s[4..];
    }
  }

  /** Different inputs encode differently. */
  lemma EncodeInjective(a: Bytes, b: Bytes)
    requires Encode(a) == Encode(b)
    ensures a == b
  {
    DecodeEncode(a);
    DecodeEncode(b);
  }

  function Pads(n: nat): nat {
    (3 - n % 3) % 3
  }

  /** The text is four characters for every three bytes begun, and it is padded at its end alone, by as many
      characters as the last chunk lacks bytes. */
  lemma {:induction false} EncodedShape(bytes: Bytes)
    ensures |Encode(bytes)| == 4 * ((|bytes| + 2) / 3)
    ensures forall i :: 0 <= i < |Encode(bytes)| ==>
              (Encode(bytes)[i] == '=' <==> i >= |Encode(bytes)| - Pads(|bytes|))
  {
    hide Group, DecodeGroup;
    if bytes != [] && |bytes| <= 3 {
      GroupRoundTrip(bytes);
    } else if bytes != [] {
      var chunk, rest := bytes[..3], bytes[3..];
      GroupRoundTrip(chunk);
      EncodedShape(rest);
      assert Pads(|bytes|) == Pads(|rest|) && |Encode(rest)| > 0;
    }
  }
}
