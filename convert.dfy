/** Infrastructure/Convert.cs: big-endian integer conversions on top of
    `BitConverter`, which reads and writes in the byte order of the host, and
    text conversions through `Encoding.UTF8`. */
module Convert {
  import opened Wrappers
  import opened Linq

  type Byte = b: int | 0 <= b < 0x100
  type Int16 = n: int | -0x8000 <= n < 0x8000
  type Int32 = n: int | -0x8000_0000 <= n < 0x8000_0000

  /** `BitConverter.IsLittleEndian`. */
  datatype Endianness = LittleEndian | BigEndian

  /** The host is taken to be little-endian. The lemmas below show that
      the conversions the codec uses do not depend on it. */
  const Host: Endianness := LittleEndian

  // ----- Two's complement -----

  function Signed16(u: nat): Int16
    requires u < 0x1_0000
  {
    if u >= 0x8000 then u - 0x1_0000 else u
  }

  function Unsigned16(n: Int16): (u: nat)
    ensures u < 0x1_0000 && Signed16(u) == n
  {
    if n < 0 then n + 0x1_0000 else n
  }

  function Signed32(u: nat): Int32
    requires u < 0x1_0000_0000
  {
    if u >= 0x8000_0000 then u - 0x1_0000_0000 else u
  }

  function Unsigned32(n: Int32): (u: nat)
    ensures u < 0x1_0000_0000 && Signed32(u) == n
  {
    if n < 0 then n + 0x1_0000_0000 else n
  }

  /** `(short)n`: the C# cast keeps the low 16 bits. */
  function WrapInt16(n: int): (r: Int16)
    ensures -0x8000 <= n < 0x8000 ==> r == n
    ensures (r - n) % 0x1_0000 == 0
  {
    Signed16(n % 0x1_0000)
  }

  // ----- BitConverter, on a host of either byte order -----

  /** `BitConverter.ToInt16(arr, 0)`: throws unless two bytes are there. */
  function NativeToInt16(host: Endianness, arr: seq<Byte>): Result<Int16> {
    if |arr| < 2 then Failure(TooFewBytes(|arr|))
    else if host == LittleEndian then Success(Signed16(arr[1] as int * 0x100 + arr[0]))
    else Success(Signed16(arr[0] as int * 0x100 + arr[1]))
  }

  /** `BitConverter.ToInt32(arr, 0)`: throws unless four bytes are there. */
  function NativeToInt32(host: Endianness, arr: seq<Byte>): Result<Int32> {
    if |arr| < 4 then Failure(TooFewBytes(|arr|))
    else if host == LittleEndian then
      Success(Signed32(((arr[3] as int * 0x100 + arr[2]) * 0x100 + arr[1]) * 0x100 + arr[0]))
    else
      Success(Signed32(((arr[0] as int * 0x100 + arr[1]) * 0x100 + arr[2]) * 0x100 + arr[3]))
  }

  /** `BitConverter.GetBytes(short)`: two bytes in host order. */
  function NativeBytes16(host: Endianness, n: Int16): seq<Byte> {
    var u := Unsigned16(n);
    if host == LittleEndian then [u % 0x100, u / 0x100] else [u / 0x100, u % 0x100]
  }

  /** `BitConverter.GetBytes(int)`: four bytes in host order. */
  function NativeBytes32(host: Endianness, n: Int32): seq<Byte> {
    var u := Unsigned32(n);
    var be := [u / 0x100_0000, (u / 0x1_0000) % 0x100, (u / 0x100) % 0x100, u % 0x100];
    if host == LittleEndian then Reverse(be) else be
  }

  // ----- Convert, on a host of either byte order -----

  function ToShortOn(host: Endianness, bytes: seq<Byte>): Result<Int16> {
    NativeToInt16(host, if host == LittleEndian then Reverse(bytes) else bytes)
  }

  function ToIntOn(host: Endianness, bytes: seq<Byte>): Result<Int32> {
    NativeToInt32(host, if host == LittleEndian then Reverse(bytes) else bytes)
  }

  function GetBytesShortOn(host: Endianness, n: Int16): seq<Byte> {
    var bytes := NativeBytes16(host, n);
    if host == LittleEndian then Reverse(bytes) else bytes
  }

  function GetBytesIntOn(host: Endianness, n: Int32): seq<Byte> {
    var bytes := NativeBytes32(host, n);
    if host == LittleEndian then Reverse(bytes) else bytes
  }

  /** `Convert.ToShort`. */
  function ToShort(bytes: seq<Byte>): (r: Result<Int16>)
    ensures r.Failure? <==> |bytes| < 2
    ensures |bytes| == 2 ==> r == Success(BigEndian16(bytes[0], bytes[1]))
  {
    ToShortOn(Host, bytes)
  }

  /** `Convert.ToInt`. */
  function ToInt(bytes: seq<Byte>): (r: Result<Int32>)
    ensures r.Failure? <==> |bytes| < 4
    ensures |bytes| == 4 ==> r == Success(BigEndian32(bytes[0], bytes[1], bytes[2], bytes[3]))
  {
    ToIntOn(Host, bytes)
  }

  /** `Convert.GetBytes(short)`, by the bytes it gives on every host (see
      `GetBytesShortIsBigEndian`): the high byte, then the low byte. */
  function GetBytesShort(n: Int16): (r: seq<Byte>)
    ensures |r| == 2 && BigEndian16(r[0], r[1]) == n
  {
    var u := Unsigned16(n);
    [u / 0x100, u % 0x100]
  }

  /** `Convert.GetBytes(int)`, by the bytes it gives on every host (see
      `GetBytesIntIsBigEndian`): most significant byte first. */
  function GetBytesInt(n: Int32): (r: seq<Byte>)
    ensures |r| == 4 && BigEndian32(r[0], r[1], r[2], r[3]) == n
  {
    var u := Unsigned32(n);
    [u / 0x100_0000, (u / 0x1_0000) % 0x100, (u / 0x100) % 0x100, u % 0x100]
  }

  /** Big-endian two's complement value of two bytes. */
  function BigEndian16(hi: Byte, lo: Byte): Int16 {
    Signed16(hi * 0x100 + lo)
  }

  /** Big-endian two's complement value of four bytes. */
  function BigEndian32(b0: Byte, b1: Byte, b2: Byte, b3: Byte): Int32 {
    Signed32(((b0 * 0x100 + b1) * 0x100 + b2) * 0x100 + b3)
  }

  /** `GetBytes(short)` is two bytes, high byte first, on either host, and
      they read back as the short. */
  lemma GetBytesShortIsBigEndian(host: Endianness, n: Int16)
    ensures GetBytesShortOn(host, n) == GetBytesShort(n)
    ensures var r := GetBytesShort(n);
      |r| == 2 && r[0] as int * 0x100 + r[1] == Unsigned16(n) && BigEndian16(r[0], r[1]) == n
  {
  }

  /** `GetBytes(int)` is four bytes, most significant first, on either
      host, and they read back as the int. */
  lemma GetBytesIntIsBigEndian(host: Endianness, n: Int32)
    ensures GetBytesIntOn(host, n) == GetBytesInt(n)
    ensures var r := GetBytesInt(n);
      |r| == 4 && ((r[0] as int * 0x100 + r[1]) * 0x100 + r[2]) * 0x100 + r[3] == Unsigned32(n)
      && BigEndian32(r[0], r[1], r[2], r[3]) == n
  {
    Digits32(Unsigned32(n));
  }

  /** The four base-256 digits of a 32-bit value put back together. */
  lemma Digits32(u: nat)
    requires u < 0x1_0000_0000
    ensures ((u / 0x100_0000 * 0x100 + (u / 0x1_0000) % 0x100) * 0x100 + (u / 0x100) % 0x100) * 0x100 + u % 0x100 == u
  {
    var a := u / 0x100;
    var b := a / 0x100;
    var c := b / 0x100;
    assert u == a * 0x100 + u % 0x100;
    assert a == b * 0x100 + a % 0x100;
    assert b == c * 0x100 + b % 0x100;
    assert b == u / 0x1_0000;
    assert c == u / 0x100_0000;
  }

  /** `ToShort` reads two bytes as big-endian two's complement on either
      host, and throws on fewer. */
  lemma ToShortIsBigEndian(host: Endianness, bytes: seq<Byte>)
    requires |bytes| <= 2
    ensures ToShortOn(host, bytes).Failure? <==> |bytes| < 2
    ensures |bytes| == 2 ==> ToShortOn(host, bytes) == Success(BigEndian16(bytes[0], bytes[1]))
  {
  }

  /** `ToInt` reads four bytes as big-endian two's complement on either host,
      and throws on fewer. */
  lemma ToIntIsBigEndian(host: Endianness, bytes: seq<Byte>)
    requires |bytes| <= 4
    ensures ToIntOn(host, bytes).Failure? <==> |bytes| < 4
    ensures |bytes| == 4 ==> ToIntOn(host, bytes) == Success(BigEndian32(bytes[0], bytes[1], bytes[2], bytes[3]))
  {
  }

  /** The value of two big-endian bytes: the high byte times 256 plus the
      low byte, less 65536 when the sign bit is set. */
  lemma BigEndian16Value(hi: Byte, lo: Byte)
    ensures BigEndian16(hi, lo) == hi * 0x100 + lo - (if hi >= 0x80 then 0x1_0000 else 0)
  {
  }

  /** `ToShort(GetBytes(s)) == s` for every short. */
  lemma ShortRoundTrip(n: Int16)
    ensures ToShort(GetBytesShort(n)) == Success(n)
  {
    GetBytesShortIsBigEndian(Host, n);
    ToShortIsBigEndian(Host, GetBytesShort(n));
  }

  /** `ToInt(GetBytes(i)) == i` for every int. */
  lemma IntRoundTrip(n: Int32)
    ensures ToInt(GetBytesInt(n)) == Success(n)
  {
    GetBytesIntIsBigEndian(Host, n);
    ToIntIsBigEndian(Host, GetBytesInt(n));
  }

  // ----- Reads at a position of a message -----

  /** `ToShort(message.Skip(at).Take(2))`: the two bytes at `at`, big-endian,
      or the exception for the fewer bytes that are there. */
  function ShortAt(message: seq<Byte>, at: nat): Result<Int16> {
    if at + 2 <= |message| then Success(BigEndian16(message[at], message[at + 1]))
    else Failure(TooFewBytes(if at < |message| then |message| - at else 0))
  }

  /** `ToInt(message.Skip(at).Take(4))`: the four bytes at `at`, big-endian,
      or the exception for the fewer bytes that are there. */
  function IntAt(message: seq<Byte>, at: nat): Result<Int32> {
    if at + 4 <= |message| then
      Success(BigEndian32(message[at], message[at + 1], message[at + 2], message[at + 3]))
    else Failure(TooFewBytes(if at < |message| then |message| - at else 0))
  }

  lemma ShortAtIsToShort(message: seq<Byte>, at: nat)
    ensures ToShort(Take(Skip(message, at), 2)) == ShortAt(message, at)
  {
    SkipTake(message, at, 2);
    ToShortIsBigEndian(Host, Take(Skip(message, at), 2));
  }

  lemma IntAtIsToInt(message: seq<Byte>, at: nat)
    ensures ToInt(Take(Skip(message, at), 4)) == IntAt(message, at)
  {
    SkipTake(message, at, 4);
    ToIntIsBigEndian(Host, Take(Skip(message, at), 4));
  }

  /** A short written at `at` reads back there. */
  lemma ShortAtGetBytes(message: seq<Byte>, at: nat, n: Int16)
    requires At(message, at, GetBytesShort(n))
    ensures ShortAt(message, at) == Success(n)
  {
    var bytes := GetBytesShort(n);
    GetBytesShortIsBigEndian(Host, n);
    assert message[at] == bytes[0] && message[at + 1] == bytes[1];
  }

  /** An int written at `at` reads back there. */
  lemma IntAtGetBytes(message: seq<Byte>, at: nat, n: Int32)
    requires At(message, at, GetBytesInt(n))
    ensures IntAt(message, at) == Success(n)
  {
    var bytes := GetBytesInt(n);
    GetBytesIntIsBigEndian(Host, n);
    assert message[at] == bytes[0] && message[at + 1] == bytes[1];
    assert message[at + 2] == bytes[2] && message[at + 3] == bytes[3];
  }

  // ----- Text -----

  predicate IsAscii(text: string) {
    forall k :: 0 <= k < |text| ==> text[k] as int < 0x80
  }

  predicate IsAsciiBytes(bytes: seq<Byte>) {
    forall k :: 0 <= k < |bytes| ==> bytes[k] < 0x80
  }

  /** UTF-8 encoding of one Unicode scalar value. */
  function Utf8Char(c: char): (r: seq<Byte>)
    ensures 1 <= |r| <= 4
    ensures |r| == 1 <==> c as int < 0x80
    ensures c as int < 0x80 ==> r == [c as int]
  {
    var n := c as int;
    if n < 0x80 then [n]
    else if n < 0x800 then [0xC0 + n / 0x40, 0x80 + n % 0x40]
    else if n < 0x1_0000 then [0xE0 + n / 0x1000, 0x80 + (n / 0x40) % 0x40, 0x80 + n % 0x40]
    else [0xF0 + n / 0x4_0000, 0x80 + (n / 0x1000) % 0x40, 0x80 + (n / 0x40) % 0x40, 0x80 + n % 0x40]
  }

  /** `Convert.GetBytes(string)`, that is `Encoding.UTF8.GetBytes`. */
  function GetBytes(text: string): (r: seq<Byte>)
    ensures |r| >= |text|
  {
    if text == [] then [] else Utf8Char(text[0]) + GetBytes(text[1..])
  }

  /** `Encoding.UTF8` on one byte: an ASCII byte is its character; any other
      byte on its own is not valid UTF-8 and becomes the replacement character. */
  function DecodeByte(b: Byte): char {
    if b < 0x80 then b as char else '\U{FFFD}'
  }

  /** `Convert.ToString`, that is `Encoding.UTF8.GetString`, byte by byte. */
  function ToString(bytes: seq<Byte>): (r: string)
    ensures |r| == |bytes|
  {
    seq(|bytes|, k requires 0 <= k < |bytes| => DecodeByte(bytes[k]))
  }

  /** For ASCII text, `GetBytes` is one byte per character: its code. */
  lemma {:induction false} AsciiBytes(text: string)
    requires IsAscii(text)
    ensures |GetBytes(text)| == |text|
  {
    if text != [] {
      AsciiBytes(text[1..]);
    }
  }

  /** For ASCII text, `ToString` inverts `GetBytes`. */
  lemma {:induction false} TextRoundTrip(text: string)
    requires IsAscii(text)
    ensures ToString(GetBytes(text)) == text
  {
    if text != [] {
      TextRoundTrip(text[1..]);
      var b := GetBytes(text);
      assert b == [text[0] as int] + GetBytes(text[1..]);
      assert ToString(b) == [DecodeByte(b[0])] + ToString(b[1..]);
      assert b[0] == text[0] as int && b[1..] == GetBytes(text[1..]);
    }
  }

  /** For ASCII bytes, `GetBytes` inverts `ToString`. */
  lemma {:induction false} BytesRoundTrip(bytes: seq<Byte>)
    requires IsAsciiBytes(bytes)
    ensures GetBytes(ToString(bytes)) == bytes
  {
    if bytes != [] {
      BytesRoundTrip(bytes[1..]);
      var t := ToString(bytes);
      assert t[1..] == ToString(bytes[1..]);
      assert t == [t[0]] + t[1..];
    }
  }
}
