/**
 * The base64 of file contents, without line breaks, and the strict decoder of
 * section 4 of RFC 4648: the two undo each other, in both directions.
 */
module Base64 {
  import opened CharClasses

  newtype Byte = n: int | 0 <= n < 256

  /** Table 1 of RFC 4648. */
  function Symbol(k: nat): char
    requires k < 64
  {
    if k < 26 then 'A' + k as char
    else if k < 52 then 'a' + (k - 26) as char
    else if k < 62 then '0' + (k - 52) as char
    else if k == 62 then '+' else '/'
  }

  function Value(c: char): (v: Option<nat>)
    ensures v.Some? ==> v.value < 64
  {
    if 'A' <= c <= 'Z' then Some((c - 'A') as nat)
    else if 'a' <= c <= 'z' then Some((c - 'a') as nat + 26)
    else if '0' <= c <= '9' then Some((c - '0') as nat + 52)
    else if c == '+' then Some(62)
    else if c == '/' then Some(63)
    else None
  }

  lemma SymbolValue(k: nat, c: char)
    requires k < 64
    ensures Value(Symbol(k)) == Some(k) && Symbol(k) != '='
    ensures Value(c) == Some(k) ==> c == Symbol(k)
  {
  }

  // ----- encoding

  /** The four groups of six bits in three bytes. */
  function Six0(b0: Byte): (v: nat)
    ensures v < 64
  {
    b0 as nat / 4
  }

  function Six1(b0: Byte, b1: Byte): (v: nat)
    ensures v < 64
  {
    b0 as nat % 4 * 16 + b1 as nat / 16
  }

  function Six2(b1: Byte, b2: Byte): (v: nat)
    ensures v < 64
  {
    b1 as nat % 16 * 4 + b2 as nat / 64
  }

  function Six3(b2: Byte): (v: nat)
    ensures v < 64
  {
    b2 as nat % 64
  }

  /** The four symbols of one, two or three bytes. */
  function Quad(chunk: seq<Byte>): (q: string)
    requires 1 <= |chunk| <= 3
    ensures |q| == 4
  {
    var b0 := chunk[0];
    var b1 := if |chunk| > 1 then chunk[1] else 0;
    var b2 := if |chunk| > 2 then chunk[2] else 0;
    [Symbol(Six0(b0)), Symbol(Six1(b0, b1)), if |chunk| > 1 then Symbol(Six2(b1, b2)) else '=',
     if |chunk| > 2 then Symbol(Six3(b2)) else '=']
  }

  function ChunkLength(n: nat): nat {
    if n < 3 then n else 3
  }

  function Encode(bytes: seq<Byte>): string {
    if bytes == [] then ""
    else
      var n := ChunkLength(|bytes|);
      Quad(bytes[..n]) + Encode(bytes[n..])
  }

  // ----- decoding

  function Byte0(v0: nat, v1: nat): Byte
    requires v0 < 64 && v1 < 64
  {
    (v0 * 4 + v1 / 16) as Byte
  }

  function Byte1(v1: nat, v2: nat): Byte
    requires v1 < 64 && v2 < 64
  {
    (v1 % 16 * 16 + v2 / 4) as Byte
  }

  function Byte2(v2: nat, v3: nat): Byte
    requires v2 < 64 && v3 < 64
  {
    (v2 % 4 * 64 + v3) as Byte
  }

  /** One quad back to bytes; the bits padding leaves over must be zero. */
  function Unquad(q: string): (r: Option<seq<Byte>>)
    requires |q| == 4
    ensures r.Some? ==> 1 <= |r.value| <= 3
  {
    var v0, v1, v2, v3 := Value(q[0]), Value(q[1]), Value(q[2]), Value(q[3]);
    if v0.None? || v1.None? then None
    else
      var b0 := Byte0(v0.value, v1.value);
      if q[2] == '=' then if q[3] == '=' && v1.value % 16 == 0 then Some([b0]) else None
      else if v2.None? then None
      else
        var b1 := Byte1(v1.value, v2.value);
        if q[3] == '=' then if v2.value % 4 == 0 then Some([b0, b1]) else None
        else if v3.None? then None
        else Some([b0, b1, Byte2(v2.value, v3.value)])
  }

  /** Only the last quad may be short. */
  function Decode(s: string): Option<seq<Byte>> {
    if s == "" then Some([])
    else if |s| < 4 then None
    else
      var chunk := Unquad(s[..4]);
      if chunk.None? then None
      else if |chunk.value| < 3 then if |s| == 4 then chunk else None
      else
        var rest := Decode(s[4..]);
        if rest.None? then None else Some(chunk.value + rest.value)
  }

  // ----- the round trips

  lemma Joined(b0: Byte, b1: Byte, b2: Byte)
    ensures Byte0(Six0(b0), Six1(b0, b1)) == b0
    ensures Byte1(Six1(b0, b1), Six2(b1, b2)) == b1
    ensures Byte2(Six2(b1, b2), Six3(b2)) == b2
    ensures (b1 == 0 ==> Six1(b0, b1) % 16 == 0) && (b2 == 0 ==> Six2(b1, b2) % 4 == 0)
  {
  }

  lemma Taken(v0: nat, v1: nat, v2: nat, v3: nat)
    requires v0 < 64 && v1 < 64 && v2 < 64 && v3 < 64
    ensures var b0, b1, b2 := Byte0(v0, v1), Byte1(v1, v2), Byte2(v2, v3);
            && Six0(b0) == v0 && Six1(b0, b1) == v1 && Six2(b1, b2) == v2 && Six3(b2) == v3
            && (v1 % 16 == 0 ==> Six1(b0, 0) == v1) && (v2 % 4 == 0 ==> Six2(b1, 0) == v2)
  {
  }

  lemma UnquadQuad(chunk: seq<Byte>)
    requires 1 <= |chunk| <= 3
    ensures Unquad(Quad(chunk)) == Some(chunk)
  {
    hide Symbol, Value, Six0, Six1, Six2, Six3, Byte0, Byte1, Byte2;
    var b0 := chunk[0];
    var b1 := if |chunk| > 1 then chunk[1] else 0;
    var b2 := if |chunk| > 2 then chunk[2] else 0;
    SymbolValue(Six0(b0), 'A');
    SymbolValue(Six1(b0, b1), 'A');
    SymbolValue(Six2(b1, b2), 'A');
    SymbolValue(Six3(b2), 'A');
    Joined(b0, b1, b2);
    assert chunk == if |chunk| == 1 then [b0] else if |chunk| == 2 then [b0, b1] else [b0, b1, b2];
  }

  lemma QuadUnquad(q: string)
    requires |q| == 4 && Unquad(q).Some?
    ensures Quad(Unquad(q).value) == q
  {
    hide Symbol, Value, Six0, Six1, Six2, Six3, Byte0, Byte1, Byte2;
    forall k | 0 <= k < 4 && Value(q[k]).Some? ensures q[k] == Symbol(Value(q[k]).value) {
      SymbolValue(Value(q[k]).value, q[k]);
    }
    var v2 := if Value(q[2]).Some? then Value(q[2]).value else 0;
    var v3 := if Value(q[3]).Some? then Value(q[3]).value else 0;
    Taken(Value(q[0]).value, Value(q[1]).value, v2, v3);
  }

  lemma DecodeStep(q: string, rest: string)
    requires |q| == 4 && Unquad(q).Some? && (|Unquad(q).value| == 3 || rest == "")
    ensures Decode(rest).Some? ==> Decode(q + rest) == Some(Unquad(q).value + Decode(rest).value)
  {
    hide Unquad;
    assert (q + rest)[..4] == q && (q + rest)[4..] == rest;
    assert Decode("") == Some([]);
    assert Unquad(q).value + [] == Unquad(q).value;
  }

  /** The length is four for every three bytes begun, and decoding gives the bytes back. */
  lemma {:induction false} DecodeEncode(bytes: seq<Byte>)
    ensures |Encode(bytes)| == 4 * ((|bytes| + 2) / 3) && Decode(Encode(bytes)) == Some(bytes)
  {
    hide Quad, Unquad, Decode;
    if bytes == [] {
      DecodeNothing();
    } else {
      var n := ChunkLength(|bytes|);
      var chunk, rest := bytes[..n], bytes[n..];
      DecodeEncode(rest);
      UnquadQuad(chunk);
      DecodeStep(Quad(chunk), Encode(rest));
      assert bytes == chunk + rest;
    }
  }

  lemma DecodeNothing()
    ensures Decode("") == Some([])
  {
  }

  /** Every text the strict decoder accepts is the encoding of what it decodes to. */
  lemma {:induction false} EncodeDecode(s: string)
    requires Decode(s).Some?
    ensures Encode(Decode(s).value) == s
  {
    hide Quad, Unquad;
    if s != "" {
      var chunk := Unquad(s[..4]).value;
      QuadUnquad(s[..4]);
      if |chunk| < 3 {
        assert chunk[..|chunk|] == chunk && chunk[|chunk|..] == [];
      } else {
        EncodeDecode(s[4..]);
        var rest := Decode(s[4..]).value;
        assert (chunk + rest)[..3] == chunk && (chunk + rest)[3..] == rest;
      }
      assert s == s[..4] + s[4..];
    }
  }

  // ----- the symbols, by the bits they stand for

  /** `n` characters from `a` on. */
  function Range(a: char, n: nat): (s: string)
    requires a as int + n < 128
    ensures |s| == n
  {
    seq(n, i requires 0 <= i < n => (a as int + i) as char)
  }

  /** A to Z, a to z, 0 to 9, plus and slash. */
  function Alphabet(): (s: string)
    ensures |s| == 64
  {
    Range('A', 26) + Range('a', 26) + Range('0', 10) + "+/"
  }

  const WEIGHTS: seq<nat> := [128, 64, 32, 16, 8, 4, 2, 1]

  /** The bits of the bytes in order, the highest of each byte first; behind them there are zeros. */
  function Bit(bytes: seq<Byte>, i: nat): (b: nat)
    ensures b < 2
  {
    if i / 8 < |bytes| then bytes[i / 8] as nat / WEIGHTS[i % 8] % 2 else 0
  }

  /** The number that six bits from `i` on make. */
  function SixBits(bytes: seq<Byte>, i: nat): (v: nat)
    ensures v < 64
  {
    32 * Bit(bytes, i) + 16 * Bit(bytes, i + 1) + 8 * Bit(bytes, i + 2)
    + 4 * Bit(bytes, i + 3) + 2 * Bit(bytes, i + 4) + Bit(bytes, i + 5)
  }

  lemma SymbolIs(k: nat)
    requires k < 64
    ensures Symbol(k) == Alphabet()[k]
  {
  }

  /** A byte is eight halvings, each leaving one bit. */
  lemma Halved(b: Byte)
    ensures var n := b as nat;
            && n / 4 == n / 2 / 2 && n / 8 == n / 4 / 2 && n / 16 == n / 8 / 2 && n / 32 == n / 16 / 2
            && n / 64 == n / 32 / 2 && n / 128 == n / 64 / 2 && n / 128 < 2
  {
  }

  lemma HighBits(b: Byte)
    ensures Bit([b], 0) == b as nat / 128
    ensures 2 * Bit([b], 0) + Bit([b], 1) == b as nat / 64
    ensures 8 * Bit([b], 0) + 4 * Bit([b], 1) + 2 * Bit([b], 2) + Bit([b], 3) == b as nat / 16
    ensures 32 * Bit([b], 0) + 16 * Bit([b], 1) + 8 * Bit([b], 2) + 4 * Bit([b], 3) + 2 * Bit([b], 4) + Bit([b], 5)
            == b as nat / 4
  {
    Halved(b);
  }

  lemma LowBits(b: Byte)
    ensures 2 * Bit([b], 6) + Bit([b], 7) == b as nat % 4
    ensures 8 * Bit([b], 4) + 4 * Bit([b], 5) + 2 * Bit([b], 6) + Bit([b], 7) == b as nat % 16
    ensures 32 * Bit([b], 2) + 16 * Bit([b], 3) + 8 * Bit([b], 4) + 4 * Bit([b], 5) + 2 * Bit([b], 6) + Bit([b], 7)
            == b as nat % 64
  {
    Halved(b);
    HighBits(b);
    var n := b as nat;
    assert n % 4 == n - 4 * (n / 4) && n % 16 == n - 16 * (n / 16) && n % 64 == n - 64 * (n / 64);
    assert n == 2 * (n / 2) + Bit([b], 7) && n / 2 == 2 * (n / 4) + Bit([b], 6);
  }

  lemma QuadBits(chunk: seq<Byte>, k: nat)
    requires 1 <= |chunk| <= 3 && k < 4
    ensures Quad(chunk)[k] == if 6 * k < 8 * |chunk| then Alphabet()[SixBits(chunk, 6 * k)] else '='
  {
    hide Symbol, Alphabet, Bit, Six0, Six1, Six2, Six3;
    if 6 * k < 8 * |chunk| {
      SymbolIs(SixBits(chunk, 6 * k));
      SixesAreBits(chunk);
      assert k == 0 || k == 1 || k == 2 || k == 3;
    }
  }

  lemma SixesAreBits(chunk: seq<Byte>)
    requires 1 <= |chunk| <= 3
    ensures var b0 := chunk[0];
            var b1 := if |chunk| > 1 then chunk[1] else 0;
            var b2 := if |chunk| > 2 then chunk[2] else 0;
            && Six0(b0) == SixBits(chunk, 0) && Six1(b0, b1) == SixBits(chunk, 6)
            && Six2(b1, b2) == SixBits(chunk, 12) && Six3(b2) == SixBits(chunk, 18)
  {
    hide Bit;
    var b0 := chunk[0];
    var b1 := if |chunk| > 1 then chunk[1] else 0;
    var b2 := if |chunk| > 2 then chunk[2] else 0;
    HighBits(b0);
    LowBits(b0);
    HighBits(b1);
    LowBits(b1);
    HighBits(b2);
    LowBits(b2);
    ChunkBits(chunk, b0, b1, b2);
  }

  lemma ChunkBits(chunk: seq<Byte>, b0: Byte, b1: Byte, b2: Byte)
    requires 1 <= |chunk| <= 3 && b0 == chunk[0]
    requires b1 == (if |chunk| > 1 then chunk[1] else 0) && b2 == if |chunk| > 2 then chunk[2] else 0
    ensures forall i: nat :: i < 8 ==> Bit(chunk, i) == Bit([b0], i)
    ensures forall i: nat :: 8 <= i < 16 ==> Bit(chunk, i) == Bit([b1], i - 8)
    ensures forall i: nat :: 16 <= i < 24 ==> Bit(chunk, i) == Bit([b2], i - 16)
  {
    ZeroBits();
    forall i: nat | 8 <= i < 16 ensures Bit(chunk, i) == Bit([b1], i - 8) {
      assert i / 8 == 1 && i % 8 == i - 8;
    }
    forall i: nat | 16 <= i < 24 ensures Bit(chunk, i) == Bit([b2], i - 16) {
      assert i / 8 == 2 && i % 8 == i - 16;
    }
  }

  lemma ZeroBits()
    ensures forall i: nat :: i < 8 ==> Bit([0], i) == 0
  {
  }

  lemma BitsBehind(bytes: seq<Byte>, i: nat)
    requires |bytes| >= 3 && i >= 24
    ensures Bit(bytes, i) == Bit(bytes[3..], i - 24)
  {
    assert (i - 24) / 8 == i / 8 - 3;
  }

  lemma SixBehind(bytes: seq<Byte>, k: nat)
    requires |bytes| >= 3 && k >= 4
    ensures SixBits(bytes, 6 * k) == SixBits(bytes[3..], 6 * (k - 4))
  {
    hide Bit;
    BitsBehind(bytes, 6 * k);
    BitsBehind(bytes, 6 * k + 1);
    BitsBehind(bytes, 6 * k + 2);
    BitsBehind(bytes, 6 * k + 3);
    BitsBehind(bytes, 6 * k + 4);
    BitsBehind(bytes, 6 * k + 5);
  }

  /** Symbol `k` stands for the six bits from `6 * k` on; where no bit is left there is padding. */
  lemma {:induction false} SymbolsSpellTheBits(bytes: seq<Byte>, k: nat)
    requires k < |Encode(bytes)|
    ensures Encode(bytes)[k] == if 6 * k < 8 * |bytes| then Alphabet()[SixBits(bytes, 6 * k)] else '='
    decreases |bytes|
  {
    hide Quad, SixBits;
    var n := ChunkLength(|bytes|);
    if k < 4 {
      QuadBits(bytes[..n], k);
      BitsOfChunk(bytes, n, 6 * k);
    } else {
      SymbolsSpellTheBits(bytes[n..], k - 4);
      SixBehind(bytes, k);
    }
  }

  lemma BitsOfChunk(bytes: seq<Byte>, n: nat, i: nat)
    requires n <= |bytes| && (n == |bytes| || i + 6 <= 8 * n)
    ensures SixBits(bytes[..n], i) == SixBits(bytes, i)
  {
    if n == |bytes| {
      assert bytes[..n] == bytes;
    }
  }

  /** The loop over chunks of three. */
  method Base64Encode(input: seq<Byte>) returns (out: string)
    ensures out == Encode(input)
  {
    hide Quad;
    out := "";
    var i := 0;
    while i < |input|
      invariant i <= |input| && Encode(input) == out + Encode(input[i..])
    {
      var n := ChunkLength(|input| - i);
      assert input[i..][..n] == input[i..i + n] && input[i..][n..] == input[i + n..];
      out := out + Quad(input[i..i + n]);
      i := i + n;
    }
  }
}
