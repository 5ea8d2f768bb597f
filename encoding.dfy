/**
 * The concrete byte encodings used by the payment proof:
 * fixed-width little-endian integers (`encoding/binary`, LittleEndian),
 * big-endian reading of a byte string as an unsigned integer (`big.Int.SetBytes`)
 * and lower-case hexadecimal text (`hex.EncodeToString`).
 */
module Encoding {
  import opened Results

  type byte = b: int | 0 <= b < 256

  /** Go's `uint64`. */
  type uint64 = v: int | 0 <= v < 0x1_0000_0000_0000_0000

  /** 256 to the power `n`: the number of distinct `n`-byte strings. */
  function Pow256(n: nat): (r: nat)
    ensures r > 0
  {
    if n == 0 then 1 else 256 * Pow256(n - 1)
  }

  lemma Pow256Of8()
    ensures Pow256(8) == 0x1_0000_0000_0000_0000
  {
  }

  // ---------------------------------------------------------------------------
  // Little-endian (binary.Write with binary.LittleEndian)

  /** The low `n` bytes of `v`, least significant byte first. */
  function LittleEndian(v: nat, n: nat): (r: seq<byte>)
    ensures |r| == n
  {
    if n == 0 then [] else [v % 256] + LittleEndian(v / 256, n - 1)
  }

  /** The unsigned integer whose little-endian bytes are `s`. */
  function FromLittleEndian(s: seq<byte>): (v: nat)
    ensures v < Pow256(|s|)
  {
    if s == [] then 0 else s[0] + 256 * FromLittleEndian(s[1..])
  }

  /** Reading back the `n` little-endian bytes of a value that fits in them gives the value. */
  lemma {:induction false} LittleEndianRoundTrip(v: nat, n: nat)
    requires v < Pow256(n)
    ensures FromLittleEndian(LittleEndian(v, n)) == v
  {
    if n > 0 {
      LittleEndianRoundTrip(v / 256, n - 1);
      assert LittleEndian(v, n)[1..] == LittleEndian(v / 256, n - 1);
    }
  }

  /** Writing a `uint64` with binary.Write gives exactly 8 bytes, and distinct values give distinct bytes. */
  lemma Uint64LittleEndianInjective(v1: uint64, v2: uint64)
    ensures |LittleEndian(v1, 8)| == 8
    ensures LittleEndian(v1, 8) == LittleEndian(v2, 8) <==> v1 == v2
  {
    Pow256Of8();
    LittleEndianRoundTrip(v1, 8);
    LittleEndianRoundTrip(v2, 8);
  }

  // ---------------------------------------------------------------------------
  // Big-endian (big.Int.SetBytes)

  /** The unsigned integer whose big-endian bytes are `s`, as `new(big.Int).SetBytes(s)`. */
  function FromBigEndian(s: seq<byte>): (v: nat)
    ensures v < Pow256(|s|)
  {
    if s == [] then 0 else FromBigEndian(s[..|s| - 1]) * 256 + s[|s| - 1]
  }

  /** The low `n` bytes of `v`, most significant byte first. */
  function BigEndian(v: nat, n: nat): (r: seq<byte>)
    ensures |r| == n
  {
    if n == 0 then [] else BigEndian(v / 256, n - 1) + [v % 256]
  }

  /** SetBytes loses nothing: the integer read from `s`, written back in `|s|` bytes, is `s`. */
  lemma {:induction false} BigEndianRoundTrip(s: seq<byte>)
    ensures BigEndian(FromBigEndian(s), |s|) == s
  {
    if s != [] {
      var init := s[..|s| - 1];
      BigEndianRoundTrip(init);
      var v := FromBigEndian(s);
      assert v / 256 == FromBigEndian(init) && v % 256 == s[|s| - 1];
      assert s == init + [s[|s| - 1]];
    }
  }

  /** Byte strings of one length read as the same integer only when they are equal. */
  lemma FromBigEndianInjective(s1: seq<byte>, s2: seq<byte>)
    requires |s1| == |s2|
    ensures FromBigEndian(s1) == FromBigEndian(s2) <==> s1 == s2
  {
    BigEndianRoundTrip(s1);
    BigEndianRoundTrip(s2);
  }

  // ---------------------------------------------------------------------------
  // Hexadecimal (hex.EncodeToString, and hex.DecodeString as its inverse)

  /** The lower-case hex digit for `d` ("0123456789abcdef"). */
  function HexDigit(d: int): (c: char)
    requires 0 <= d < 16
    ensures '0' <= c <= '9' || 'a' <= c <= 'f'
  {
    if d < 10 then ('0' as int + d) as char else ('a' as int + d - 10) as char
  }

  /** The value of a hex digit of either case, as `fromHexChar` in encoding/hex. */
  function HexDigitValue(ch: char): (r: Option<int>)
    ensures r.Some? ==> 0 <= r.value < 16
  {
    if '0' <= ch <= '9' then Some(ch as int - '0' as int)
    else if 'a' <= ch <= 'f' then Some(ch as int - 'a' as int + 10)
    else if 'A' <= ch <= 'F' then Some(ch as int - 'A' as int + 10)
    else None
  }

  /** Two lower-case hex digits per byte, high nibble first. */
  function HexEncode(s: seq<byte>): (r: string)
    ensures |r| == 2 * |s|
  {
    if s == [] then "" else [HexDigit(s[0] / 16), HexDigit(s[0] % 16)] + HexEncode(s[1..])
  }

  /** The bytes a hex string stands for; `None` for an odd length or a non-hex character. */
  function HexDecode(t: string): (r: Option<seq<byte>>)
    ensures r.Some? ==> 2 * |r.value| == |t|
  {
    if |t| == 0 then Some([])
    else if |t| == 1 then None
    else
      match (HexDigitValue(t[0]), HexDigitValue(t[1]), HexDecode(t[2..]))
      case (Some(hi), Some(lo), Some(rest)) => Some([hi * 16 + lo] + rest)
      case _ => None
  }

  lemma HexDigitRoundTrip(d: int)
    requires 0 <= d < 16
    ensures HexDigitValue(HexDigit(d)) == Some(d)
  {
  }

  /** Decoding the hex text of `s` gives back `s`. */
  lemma {:induction false} HexRoundTrip(s: seq<byte>)
    ensures HexDecode(HexEncode(s)) == Some(s)
  {
    if s != [] {
      var t := HexEncode(s);
      HexDigitRoundTrip(s[0] / 16);
      HexDigitRoundTrip(s[0] % 16);
      HexRoundTrip(s[1..]);
      assert t[2..] == HexEncode(s[1..]);
      assert [s[0] / 16 * 16 + s[0] % 16] + s[1..] == s;
    }
  }

  /** Hex encoding is injective: two byte strings have the same hex text only when they are equal. */
  lemma HexEncodeInjective(s1: seq<byte>, s2: seq<byte>)
    ensures HexEncode(s1) == HexEncode(s2) <==> s1 == s2
  {
    HexRoundTrip(s1);
    HexRoundTrip(s2);
  }
}
