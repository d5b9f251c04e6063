/**
 * ppm.c: a raster written as a binary Netpbm (P6) image. The header gives the
 * size and the largest channel value 255; then come three bytes per pixel,
 * red, green and blue, for the rows from the top of the image down. The
 * buffer stores rows bottom-up, so output row j is buffer row height - 1 - j.
 */
module Ppm {
  import opened Colours

  newtype byte = b: int | 0 <= b < 256

  /** An output stream; only the bytes written to it are modelled. */
  class Stream {
    var written: seq<byte>

    constructor ()
      ensures written == []
    {
      written := [];
    }

    /** fwrite/fprintf of a block of bytes (their results are ignored by ppm_write). */
    method Write(bytes: seq<byte>)
      modifies this
      ensures written == old(written) + bytes
    {
      written := written + bytes;
    }
  }

  function Digit(d: int): (c: char)
    requires 0 <= d < 10
    ensures '0' <= c <= '9' && c as int - '0' as int == d
  {
    (d + '0' as int) as char
  }

  /** The decimal digits of a natural number, with no leading zero. */
  function NatDigits(n: nat): (s: string)
    ensures |s| >= 1 && forall k | 0 <= k < |s| :: '0' <= s[k] <= '9'
    ensures s[0] == '0' <==> n == 0
    decreases n
  {
    if n < 10 then [Digit(n)] else NatDigits(n / 10) + [Digit(n % 10)]
  }

  /** printf's %d. */
  function Decimal(n: int): (s: string)
    ensures |s| >= 1 && forall k | 0 <= k < |s| :: s[k] == '-' || '0' <= s[k] <= '9'
  {
    if n < 0 then "-" + NatDigits(-n) else NatDigits(n)
  }

  /** The number a string of decimal digits stands for. */
  function DigitsValue(s: string): int
    requires forall k | 0 <= k < |s| :: '0' <= s[k] <= '9'
  {
    if s == [] then 0 else DigitsValue(s[..|s| - 1]) * 10 + (s[|s| - 1] as int - '0' as int)
  }

  /** Reading the digits back gives the number. */
  lemma {:induction false} NatDigitsValue(n: nat)
    ensures DigitsValue(NatDigits(n)) == n
    decreases n
  {
    if n >= 10 {
      NatDigitsValue(n / 10);
      var s := NatDigits(n);
      assert s[..|s| - 1] == NatDigits(n / 10);
    }
  }

  /** The sign and digits of %d read back as the number. */
  lemma DecimalValue(n: int)
    ensures Decimal(n)[0] == '-' <==> n < 0
    ensures n < 0 ==> DigitsValue(Decimal(n)[1..]) == -n
    ensures n >= 0 ==> DigitsValue(Decimal(n)) == n
  {
    if n < 0 {
      NatDigitsValue(-n);
      assert Decimal(n)[1..] == NatDigits(-n);
    } else {
      NatDigitsValue(n);
    }
  }

  /** The byte a character is written as (its code, for the ASCII characters of the header). */
  function Byte(c: char): byte
  {
    (c as int % 256) as byte
  }

  function Ascii(s: string): (b: seq<byte>)
    ensures |b| == |s|
  {
    seq(|s|, k requires 0 <= k < |s| => Byte(s[k]))
  }

  /** Writing two strings one after the other writes their concatenation. */
  lemma AsciiAppend(start: seq<byte>, a: string, b: string)
    ensures start + Ascii(a) + Ascii(b) == start + Ascii(a + b)
  {
    assert Ascii(a + b) == Ascii(a) + Ascii(b);
  }

  /** The second header line, the size. */
  function SizeLine(width: int, height: int): string
  {
    Decimal(width) + " " + Decimal(height) + "\n"
  }

  /** The third header line, the largest channel value. */
  function MaxLine(): string
  {
    Decimal(255) + "\n"
  }

  /** The header: "P6", the size line and the largest value 255, each ended by a newline. */
  function Header(width: int, height: int): string
  {
    "P6\n" + SizeLine(width, height) + MaxLine()
  }

  lemma HeaderText(width: int, height: int)
    ensures Header(width, height) == "P6\n" + Decimal(width) + " " + Decimal(height) + "\n255\n"
  {
    assert Digit(2) == '2' && Digit(5) == '5';
    assert NatDigits(2) == "2";
    assert NatDigits(25) == NatDigits(2) + [Digit(5)] == "25";
    assert NatDigits(255) == NatDigits(25) + [Digit(5)] == "255";
  }

  /** CLAMP(v * 255, 0, 255) converted to unsigned char, which truncates. */
  function ChannelByte(v: real): (b: byte)
    ensures v <= 0.0 ==> b == 0
    ensures v >= 1.0 ==> b == 255
    ensures 0.0 <= v <= 1.0 ==> b as real <= v * 255.0 < b as real + 1.0
  {
    var c := if v * 255.0 < 0.0 then 0.0 else if v * 255.0 > 255.0 then 255.0 else v * 255.0;
    c.Floor as byte
  }

  /** The three bytes of a pixel; alpha is dropped. */
  function PixelBytes(c: Colour): (b: seq<byte>)
    ensures |b| == 3
  {
    [ChannelByte(c.r), ChannelByte(c.g), ChannelByte(c.b)]
  }

  /** Channel ch (0 red, 1 green, 2 blue) of a colour. */
  function Channel(c: Colour, ch: int): real
    requires 0 <= ch < 3
  {
    if ch == 0 then c.r else if ch == 1 then c.g else c.b
  }

  /** Output row j holds buffer row height - 1 - j; the index of its pixel i. */
  lemma FlippedCell(width: int, height: int, j: int, i: int)
    requires 0 <= j < height && 0 <= i < width
    ensures 0 <= width * (height - 1 - j) + i < width * height
  {
    assert width * (height - 1 - j) >= 0;
    assert width * (height - 1 - j) + width == width * (height - j);
    assert width * (height - j) <= width * height;
  }

  /** The bytes of the first i pixels of output row j. */
  function RowBytes(cells: seq<Colour>, width: int, height: int, j: int, i: int): (b: seq<byte>)
    requires 0 <= j < height && 0 <= i <= width && |cells| == width * height
    ensures |b| == 3 * i
    decreases i
  {
    if i == 0 then []
    else
      FlippedCell(width, height, j, i - 1);
      RowBytes(cells, width, height, j, i - 1) + PixelBytes(cells[width * (height - 1 - j) + i - 1])
  }

  /** The bytes of the first j output rows. */
  function Body(cells: seq<Colour>, width: int, height: int, j: int): (b: seq<byte>)
    requires 0 <= j <= height && 0 <= width && |cells| == width * height
    decreases j
  {
    if j == 0 then [] else Body(cells, width, height, j - 1) + RowBytes(cells, width, height, j - 1, width)
  }

  lemma {:induction false} BodyLength(cells: seq<Colour>, width: int, height: int, j: int)
    requires 0 <= j <= height && 0 <= width && |cells| == width * height
    ensures |Body(cells, width, height, j)| == 3 * (width * j)
    decreases j
  {
    if j > 0 {
      BodyLength(cells, width, height, j - 1);
      assert width * j == width * (j - 1) + width;
    }
  }

  /** Where byte ch of pixel i of output row j sits among the first n rows. */
  lemma PixelOffset(width: int, n: int, j: int, i: int, ch: int)
    requires 0 <= j < n && 0 <= i < width && 0 <= ch < 3
    ensures 0 <= 3 * (width * j) <= 3 * (width * j + i) + ch < 3 * (width * n)
    ensures 3 * (width * j + i) + ch == 3 * (width * j) + (3 * i + ch)
  {
    assert width * j >= 0;
    assert width * j + width == width * (j + 1);
    assert width * (j + 1) <= width * n;
  }

  predicate FlippedCellIn(width: int, height: int, j: int, i: int)
  {
    0 <= width * (height - 1 - j) + i < width * height
  }

  lemma {:induction false} RowByte(cells: seq<Colour>, width: int, height: int, j: int, n: int, i: int, ch: int)
    requires 0 <= j < height && 0 <= i < n <= width && |cells| == width * height && 0 <= ch < 3
    ensures FlippedCellIn(width, height, j, i) &&
      RowBytes(cells, width, height, j, n)[3 * i + ch] == ChannelByte(Channel(cells[width * (height - 1 - j) + i], ch))
    decreases n
  {
    FlippedCell(width, height, j, i);
    if i < n - 1 {
      RowByte(cells, width, height, j, n - 1, i, ch);
    }
  }

  lemma {:induction false} BodyByte(cells: seq<Colour>, width: int, height: int, n: int, j: int, i: int, ch: int)
    requires 0 <= j < n <= height && 0 <= i < width && |cells| == width * height && 0 <= ch < 3
    ensures 3 * (width * j + i) + ch < |Body(cells, width, height, n)|
    ensures FlippedCellIn(width, height, j, i) &&
      Body(cells, width, height, n)[3 * (width * j + i) + ch] == ChannelByte(Channel(cells[width * (height - 1 - j) + i], ch))
    decreases n
  {
    var prev := Body(cells, width, height, n - 1);
    var row := RowBytes(cells, width, height, n - 1, width);
    assert Body(cells, width, height, n) == prev + row;
    BodyLength(cells, width, height, n);
    PixelOffset(width, n, j, i, ch);
    if j < n - 1 {
      BodyByte(cells, width, height, n - 1, j, i, ch);
    } else {
      BodyLength(cells, width, height, n - 1);
      RowByte(cells, width, height, j, width, i, ch);
    }
  }

  /**
   * After the header come 3 * width * height bytes, and byte ch of output
   * pixel (i, j) is the clamped, truncated channel ch of buffer pixel
   * (i, height - 1 - j): rows are flipped, columns are not.
   */
  lemma PpmLayout(cells: seq<Colour>, width: int, height: int, j: int, i: int, ch: int)
    requires 0 <= width && 0 <= height && |cells| == width * height
    requires 0 <= j < height && 0 <= i < width && 0 <= ch < 3
    ensures |Body(cells, width, height, height)| == 3 * (width * height)
    ensures 3 * (width * j + i) + ch < 3 * (width * height) && FlippedCellIn(width, height, j, i)
    ensures Body(cells, width, height, height)[3 * (width * j + i) + ch] ==
      ChannelByte(Channel(cells[width * (height - 1 - j) + i], ch))
  {
    BodyLength(cells, width, height, height);
    BodyByte(cells, width, height, height, j, i, ch);
  }

  /**
   * ppm_write: the header, then the pixels row by row from the top of the
   * image; always returns true.
   */
  method PpmWrite(buffer: array<Colour>, width: int, height: int, fd: Stream) returns (ok: bool)
    requires 0 <= width && 0 <= height && buffer.Length == width * height
    modifies fd
    ensures ok
    ensures fd.written == old(fd.written) + Ascii(Header(width, height)) + Body(buffer[..], width, height, height)
  {
    ghost var cells := buffer[..];
    WriteHeader(width, height, fd);
    ghost var start := fd.written;
    for j := 0 to height
      invariant fd.written == start + Body(cells, width, height, j)
    {
      WriteRow(buffer, width, height, j, fd);
      BodyStep(start, cells, width, height, j);
    }
    return true;
  }

  lemma BodyStep(start: seq<byte>, cells: seq<Colour>, width: int, height: int, j: int)
    requires 0 <= j < height && 0 <= width && |cells| == width * height
    ensures start + Body(cells, width, height, j + 1) == start + Body(cells, width, height, j) + RowBytes(cells, width, height, j, width)
  {
  }

  /** The three fprintf calls of ppm_write. */
  method WriteHeader(width: int, height: int, fd: Stream)
    modifies fd
    ensures fd.written == old(fd.written) + Ascii(Header(width, height))
  {
    var magic, size, max := "P6\n", SizeLine(width, height), MaxLine();
    ghost var start := fd.written;
    fd.Write(Ascii(magic));
    fd.Write(Ascii(size));
    AsciiAppend(start, magic, size);
    fd.Write(Ascii(max));
    AsciiAppend(start, magic + size, max);
  }

  /** The inner loop of ppm_write: the pixels of output row j, left to right. */
  method WriteRow(buffer: array<Colour>, width: int, height: int, j: int, fd: Stream)
    requires 0 <= j < height && 0 <= width && buffer.Length == width * height
    modifies fd
    ensures fd.written == old(fd.written) + RowBytes(buffer[..], width, height, j, width)
  {
    ghost var start := fd.written;
    for i := 0 to width
      invariant fd.written == start + RowBytes(buffer[..], width, height, j, i)
    {
      FlippedCell(width, height, j, i);
      var c := buffer[width * (height - 1 - j) + i];
      var out := [ChannelByte(c.r), ChannelByte(c.g), ChannelByte(c.b)];
      fd.Write(out);
      assert start + RowBytes(buffer[..], width, height, j, i + 1) == start + RowBytes(buffer[..], width, height, j, i) + out;
    }
  }
}
