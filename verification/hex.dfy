/** Conversions between byte arrays and hexadecimal text, as the card-reader
    service performs them: `byteArrayToHex` renders each byte with
    `toString(16).padStart(2, '0')`, and `hexToByteArray` reads two
    characters at a time with `parseInt(_, 16)` into a `Uint8Array`. */
module Hex {
  import opened Wrappers
  import opened Bytes
  import Text

  /** The lower-case hexadecimal digit for `d`, as `toString(16)` writes it. */
  function HexDigit(d: nat): (c: char)
    requires d < 16
    ensures IsLowerHexDigit(c)
  {
    if d < 10 then ('0' as int + d) as char else ('a' as int + d - 10) as char
  }

  /** A character of `[0-9a-f]`. */
  predicate IsLowerHexDigit(c: char)
  {
    '0' <= c <= '9' || 'a' <= c <= 'f'
  }

  /** `n.toString(16)` for a non-negative integer. */
  function Radix16(n: nat): (s: string)
    ensures 1 <= |s|
    ensures forall i :: 0 <= i < |s| ==> IsLowerHexDigit(s[i])
    ensures n < 16 <==> |s| == 1
    decreases n
  {
    if n < 16 then [HexDigit(n)] else Radix16(n / 16) + [HexDigit(n % 16)]
  }

  /** `byte.toString(16).padStart(2, '0')`. */
  function ByteToHex(b: byte): (s: string)
    ensures |s| == 2 && IsLowerHexDigit(s[0]) && IsLowerHexDigit(s[1])
  {
    assert b >= 16 ==> |Radix16(b / 16)| == 1;
    Text.PadStart(Radix16(b), 2, '0')
  }

  /** Each byte becomes exactly two lower-case digits: the high nibble, then
      the low nibble. */
  lemma ByteToHexDigits(b: byte)
    ensures ByteToHex(b) == [HexDigit(b / 16), HexDigit(b % 16)]
  {
    var n := b;
    if n >= 16 {
      assert Radix16(n / 16) == [HexDigit(n / 16)];
    }
  }

  /** `byteArrayToHex(array)`: the two-digit renderings of the bytes, joined. */
  function ByteArrayToHex(bytes: seq<byte>): (s: string)
    ensures |s| == 2 * |bytes|
  {
    if bytes == [] then ""
    else
      ByteToHexDigits(bytes[0]);
      ByteToHex(bytes[0]) + ByteArrayToHex(bytes[1..])
  }

  /** Characters `2i` and `2i+1` of `byteArrayToHex(bytes)` are the high and
      low nibble of byte `i`. */
  lemma {:induction false} ByteArrayToHexAt(bytes: seq<byte>, i: nat)
    requires i < |bytes|
    ensures ByteArrayToHex(bytes)[2 * i] == HexDigit(bytes[i] / 16)
    ensures ByteArrayToHex(bytes)[2 * i + 1] == HexDigit(bytes[i] % 16)
  {
    var head, tail := ByteToHex(bytes[0]), ByteArrayToHex(bytes[1..]);
    assert ByteArrayToHex(bytes) == head + tail;
    if i == 0 {
      ByteToHexDigits(bytes[0]);
    } else {
      ByteArrayToHexAt(bytes[1..], i - 1);
      assert bytes[1..][i - 1] == bytes[i];
      assert (head + tail)[2 * i] == tail[2 * (i - 1)];
      assert (head + tail)[2 * i + 1] == tail[2 * (i - 1) + 1];
    }
  }

  /** `byteArrayToHex` emits only lower-case hexadecimal digits. */
  lemma {:induction false} ByteArrayToHexLower(bytes: seq<byte>)
    ensures forall k :: 0 <= k < |ByteArrayToHex(bytes)| ==> IsLowerHexDigit(ByteArrayToHex(bytes)[k])
  {
    if bytes != [] {
      ByteArrayToHexLower(bytes[1..]);
      var head, tail := ByteToHex(bytes[0]), ByteArrayToHex(bytes[1..]);
      assert ByteArrayToHex(bytes) == head + tail;
      forall k | 0 <= k < |head + tail|
        ensures IsLowerHexDigit((head + tail)[k])
      {
        if k >= 2 {
          assert (head + tail)[k] == tail[k - 2];
        }
      }
    }
  }

  // ---------------------------------------------------------------------
  // parseInt(s, 16), as ECMAScript defines it

  /** The characters `parseInt` skips before the number: white space and
      line terminators. */
  predicate IsJsWhiteSpace(c: char)
  {
    // TAB, LF, VT, FF, CR and SPACE
    '\U{0009}' <= c <= '\U{000D}' || c == ' ' ||
    // the other Unicode space separators, the byte order mark, LS and PS
    c == '\U{00A0}' || c == '\U{1680}' || '\U{2000}' <= c <= '\U{200A}' ||
    c == '\U{2028}' || c == '\U{2029}' || c == '\U{202F}' || c == '\U{205F}' ||
    c == '\U{3000}' || c == '\U{FEFF}'
  }

  /** The string without its leading white space. */
  function TrimStart(s: string): (r: string)
    ensures |r| <= |s|
  {
    if s != [] && IsJsWhiteSpace(s[0]) then TrimStart(s[1..]) else s
  }

  /** The value of a hexadecimal digit of either case, or `None`. */
  function HexDigitValue(c: char): (v: Option<nat>)
    ensures v.Some? ==> v.value < 16
  {
    if '0' <= c <= '9' then Some(c as int - '0' as int)
    else if 'a' <= c <= 'f' then Some(c as int - 'a' as int + 10)
    else if 'A' <= c <= 'F' then Some(c as int - 'A' as int + 10)
    else None
  }

  /** The length of the longest prefix of `s` made of hexadecimal digits. */
  function HexPrefixLength(s: string): (n: nat)
    ensures n <= |s|
  {
    if s != [] && HexDigitValue(s[0]).Some? then 1 + HexPrefixLength(s[1..]) else 0
  }

  /** The value of a string of hexadecimal digits, most significant first
      (only ever applied to digits). */
  function HexValue(digits: string): nat
  {
    if digits == [] then 0
    else 16 * HexValue(digits[..|digits| - 1]) + DigitOrZero(digits[|digits| - 1])
  }

  /** The value of a hexadecimal digit (0 for any other character). */
  function DigitOrZero(c: char): nat
  {
    match HexDigitValue(c)
    case Some(d) => d
    case None => 0
  }

  /** The value of the longest run of hexadecimal digits at the start of
      `w`, or `None` when `w` does not start with one. */
  function LeadingHexValue(w: string): (v: Option<nat>)
    ensures v.None? <==> HexPrefixLength(w) == 0
  {
    var n := HexPrefixLength(w);
    if n == 0 then None else Some(HexValue(w[..n]))
  }

  /** `u` without a leading `0x` or `0X`, which `parseInt` skips in radix 16. */
  function DropHexPrefix(u: string): string
  {
    if |u| >= 2 && u[0] == '0' && (u[1] == 'x' || u[1] == 'X') then u[2..] else u
  }

  /** `parseInt(s, 16)`: `None` stands for `NaN`. Leading white space is
      skipped, one sign is accepted, a `0x`/`0X` prefix is dropped, and the
      longest run of digits that follows is read. */
  function ParseInt16(s: string): Option<int>
  {
    var t := TrimStart(s);
    var negative := t != [] && t[0] == '-';
    var u := if t != [] && (t[0] == '-' || t[0] == '+') then t[1..] else t;
    match LeadingHexValue(DropHexPrefix(u))
    case None => None
    case Some(m) =>
      var v: int := if negative then -(m as int) else m;
      Some(v)
  }

  /** `parseInt(s, 16)` is `NaN` on an empty or blank text, negative only
      after a `-` sign, and on a text starting with a digit other than `0`
      the value of the digits up to the first non-digit. */
  lemma ParseInt16Reads(s: string)
    ensures TrimStart(s) == "" ==> ParseInt16(s).None?
    ensures ParseInt16(s).Some? && ParseInt16(s).value < 0 ==> TrimStart(s) != "" && TrimStart(s)[0] == '-'
    ensures s != "" && HexDigitValue(s[0]).Some? && s[0] != '0' ==>
      ParseInt16(s) == Some(HexValue(s[..HexPrefixLength(s)]))
  {
  }

  /** Storing a number into a `Uint8Array`: `NaN` becomes 0, everything else
      is reduced modulo 256. */
  function ToUint8(v: Option<int>): (b: byte)
    ensures v.None? ==> b == 0
    ensures v.Some? ==> (v.value - b) % 256 == 0
    ensures v.Some? && 0 <= v.value < 256 ==> b == v.value
  {
    match v
    case None => 0
    case Some(n) => n % 256
  }

  /** What `hexToByteArray(hex)` returns: `⌊|hex|/2⌋` bytes, byte `i` being
      `parseInt` of characters `2i` and `2i+1`. A trailing odd character is
      parsed but its index lies outside the array, so the write is lost. */
  function HexToBytes(hex: string): (r: seq<byte>)
    ensures |r| == |hex| / 2
  {
    seq(|hex| / 2, i requires 0 <= i < |hex| / 2 => ToUint8(ParseInt16(hex[2 * i..2 * i + 2])))
  }

  /** `parseInt` reads back the digit `toString(16)` writes. */
  lemma HexDigitValueOf(d: nat)
    requires d < 16
    ensures HexDigitValue(HexDigit(d)) == Some(d)
  {
  }

  /** `parseInt` of two lower-case digits is their two-digit value. */
  lemma ParseTwoDigits(hi: nat, lo: nat)
    requires hi < 16 && lo < 16
    ensures ParseInt16([HexDigit(hi), HexDigit(lo)]) == Some(16 * hi + lo)
  {
    var s := [HexDigit(hi), HexDigit(lo)];
    HexDigitValueOf(hi);
    HexDigitValueOf(lo);
    assert TrimStart(s) == s;
    assert DropHexPrefix(s) == s;
    assert HexPrefixLength(s[1..][1..]) == 0;
    assert HexPrefixLength(s) == 2;
    assert s[..2] == s;
    assert s[..1] == [s[0]];
    assert HexValue(s[..1]) == hi;
  }

  /** Two lower-case digits parse back to the byte they render. */
  lemma ParseByteHex(b: byte)
    ensures ToUint8(ParseInt16([HexDigit(b / 16), HexDigit(b % 16)])) == b
  {
    ParseTwoDigits(b / 16, b % 16);
  }

  /** Byte `i` of `hexToByteArray(hex)` comes from characters `2i` and `2i+1`. */
  lemma HexToBytesAt(hex: string, i: nat)
    requires i < |hex| / 2
    ensures HexToBytes(hex)[i] == ToUint8(ParseInt16(hex[2 * i..2 * i + 2]))
  {
  }

  /** Characters `2i` and `2i+1` of `byteArrayToHex(bytes)` parse back to byte `i`. */
  lemma HexPairRoundTrip(bytes: seq<byte>, i: nat)
    requires i < |bytes|
    ensures ToUint8(ParseInt16(ByteArrayToHex(bytes)[2 * i..2 * i + 2])) == bytes[i]
  {
    HexPairAt(bytes, i);
    ParseByteHex(bytes[i]);
  }

  /** Characters `2i` and `2i+1` of `byteArrayToHex(bytes)` are byte `i`'s two digits. */
  lemma HexPairAt(bytes: seq<byte>, i: nat)
    requires i < |bytes|
    ensures ByteArrayToHex(bytes)[2 * i..2 * i + 2] == [HexDigit(bytes[i] / 16), HexDigit(bytes[i] % 16)]
  {
    ByteArrayToHexAt(bytes, i);
    PairSlice(ByteArrayToHex(bytes), 2 * i);
  }

  /** A two-character slice is the list of its two characters. */
  lemma PairSlice(s: string, j: nat)
    requires j + 2 <= |s|
    ensures s[j..j + 2] == [s[j], s[j + 1]]
  {
    assert s[j..j + 2][0] == s[j] && s[j..j + 2][1] == s[j + 1];
  }

  /** `hexToByteArray` inverts `byteArrayToHex`. */
  lemma HexRoundTrip(bytes: seq<byte>)
    ensures HexToBytes(ByteArrayToHex(bytes)) == bytes
  {
    var hex := ByteArrayToHex(bytes);
    forall i | 0 <= i < |bytes|
      ensures HexToBytes(hex)[i] == bytes[i]
    {
      HexToBytesAt(hex, i);
      HexPairRoundTrip(bytes, i);
    }
  }
}
