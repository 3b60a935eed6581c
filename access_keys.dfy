/**
 * Access keys: `generateAccessKey` (utils.py) returns `secrets.token_hex(64)`, the
 * lowercase hexadecimal spelling of 64 random bytes, and `verifyAccessKey`
 * (dbService.py) only consults the table for keys of length 128 made of letters
 * and digits.
 *
 * The random bytes are a parameter: the model says what the key is for any
 * bytes the operating system supplies.
 */
module AccessKeys {
  import opened Wrappers
  import opened Strings

  newtype byte = x: int | 0 <= x < 256

  /** The number of random bytes `generateAccessKey` asks for. */
  const KeyBytes: nat := 64

  /** One draw of the operating system's randomness, as `generateAccessKey` asks for it. */
  type Entropy = s: seq<byte> | |s| == KeyBytes witness seq(KeyBytes, _ => 0)

  /** The length of a key: two hex digits per byte. */
  const KeyLength: nat := 2 * KeyBytes

  const HexDigits: string := "0123456789abcdef"

  predicate IsHexDigit(c: char)
  {
    ('0' <= c <= '9') || ('a' <= c <= 'f')
  }

  /** The digit for a value below 16. */
  function HexDigit(n: int): (c: char)
    requires 0 <= n < 16
    ensures IsHexDigit(c)
    ensures HexValue(c) == n
  {
    HexDigits[n]
  }

  /** The value of a lowercase hex digit. */
  function HexValue(c: char): (n: int)
    requires IsHexDigit(c)
    ensures 0 <= n < 16
  {
    if '0' <= c <= '9' then c as int - '0' as int else c as int - 'a' as int + 10
  }

  /** `bytes.hex()`: two lowercase digits per byte, high nibble first. */
  function HexEncode(bs: seq<byte>): (s: string)
    ensures |s| == 2 * |bs|
    ensures forall k :: 0 <= k < |s| ==> IsHexDigit(s[k])
  {
    if bs == [] then []
    else [HexDigit(bs[0] as int / 16), HexDigit(bs[0] as int % 16)] + HexEncode(bs[1..])
  }

  /** Reading a hex string back into bytes; `None` for an odd length or a non-digit. */
  function HexDecode(s: string): (r: Option<seq<byte>>)
    ensures r.Some? ==> 2 * |r.value| == |s|
    decreases |s|
  {
    if s == [] then Some([])
    else if |s| == 1 || !IsHexDigit(s[0]) || !IsHexDigit(s[1]) then None
    else
      match HexDecode(s[2..])
      case None => None
      case Some(rest) => Some([(HexValue(s[0]) * 16 + HexValue(s[1])) as byte] + rest)
  }

  /** Decoding the encoding gives the bytes back: the key carries all the entropy drawn. */
  lemma {:induction false} HexRoundTrip(bs: seq<byte>)
    ensures HexDecode(HexEncode(bs)) == Some(bs)
  {
    if bs != [] {
      var s := HexEncode(bs);
      assert s[2..] == HexEncode(bs[1..]);
      HexRoundTrip(bs[1..]);
      var b := bs[0] as int;
      assert HexValue(s[0]) * 16 + HexValue(s[1]) == b;
      assert bs == [bs[0]] + bs[1..];
    }
  }

  /** `generateAccessKey()`: `secrets.token_hex(64)` on the bytes drawn. */
  function GenerateAccessKey(entropy: Entropy): (key: string)
    ensures |key| == KeyLength
    ensures forall k :: 0 <= k < |key| ==> IsHexDigit(key[k])
    ensures HexDecode(key) == Some(entropy)
  {
    HexRoundTrip(entropy);
    HexEncode(entropy)
  }

  /** `s.isalnum()` over ASCII: non-empty, every character a letter or a digit. */
  predicate IsAlnum(s: string)
  {
    |s| > 0 && forall k :: 0 <= k < |s| ==> IsAsciiAlnum(s[k])
  }

  /** The format test at the head of `verifyAccessKey`: 128 characters, all letters or digits. */
  predicate KeyFormatOk(key: string)
  {
    |key| == KeyLength && IsAlnum(key)
  }

  /** Every generated key passes the format test of `verifyAccessKey`. */
  lemma GeneratedKeyWellFormed(entropy: Entropy)
    ensures KeyFormatOk(GenerateAccessKey(entropy))
  {
    var key := GenerateAccessKey(entropy);
    forall k | 0 <= k < |key| ensures IsAsciiAlnum(key[k]) {
      assert IsHexDigit(key[k]);
    }
  }
}
