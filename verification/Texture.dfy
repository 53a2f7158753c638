/** The tiled texture decoder (native/Texture.h). */
module Texture {
  import opened Bytes

  datatype Pixel = Pixel(r: Byte, g: Byte, b: Byte, a: Byte)

  /** The colours a palette format looks up: their address, kind and number. */
  datatype Palette = Palette(colors: nat, kind: nat, count: nat)

  /** An image: its size, format and where its first block starts in the archive's data. */
  datatype Image = Image(width: nat, height: nat, format: nat, data: nat, palette: Option<Palette>)

  // ---- reads, which fail outside the archive ----

  function U8(archive: seq<Byte>, at: nat): Option<Byte> {
    if at < |archive| then Some(archive[at]) else None
  }

  function U16(archive: seq<Byte>, at: nat): (r: Option<nat>)
    ensures r.Some? ==> r.value < 0x1_0000
  {
    if at + 2 <= |archive| then Some(archive[at] as int * 256 + archive[at + 1] as int) else None
  }

  // ---- colours ----

  function Expand(v: nat, max: nat): Byte
    requires v <= max && (max == 7 || max == 15 || max == 31 || max == 63)
  {
    v * 255 / max
  }

  /** A channel is stretched from its own range over all of 0 to 255, no two values to the same one. */
  lemma ExpandStretches(v: nat, w: nat, max: nat)
    requires v < w <= max && (max == 7 || max == 15 || max == 31 || max == 63)
    ensures Expand(0, max) == 0 && Expand(max, max) == 255 && Expand(v, max) < Expand(w, max)
  {
    assert w * 255 >= v * 255 + 255;
  }

  function RGB565(c: nat): Pixel
    requires c < 0x1_0000
  {
    Pixel(Expand(c / 2048, 31), Expand(c / 32 % 64, 63), Expand(c % 32, 31), 255)
  }

  function RGB5A3(c: nat): Pixel
    requires c < 0x1_0000
  {
    if c >= 0x8000 then Pixel(Expand(c / 1024 % 32, 31), Expand(c / 32 % 32, 31), Expand(c % 32, 31), 255)
    else Pixel(Expand(c / 256 % 16, 15), Expand(c / 16 % 16, 15), Expand(c % 16, 15), Expand(c / 4096 % 8, 7))
  }

  function Lookup(archive: seq<Byte>, palette: Option<Palette>, index: nat): Option<Pixel> {
    if palette.None? || index >= palette.value.count then None
    else
      match U16(archive, palette.value.colors + index * 2)
      case None => None
      case Some(c) =>
        if palette.value.kind == 0 then Some(Pixel(c % 256, c % 256, c % 256, c / 256))
        else if palette.value.kind == 1 then Some(RGB565(c))
        else if palette.value.kind == 2 then Some(RGB5A3(c))
        else None
  }

  /** One of the four colours of a compressed sub-block with end colours c0 and c1. */
  function BlockColor(c0: nat, c1: nat, code: nat): Pixel
    requires c0 < 0x1_0000 && c1 < 0x1_0000
  {
    var (p, q) := (RGB565(c0), RGB565(c1));
    if code == 0 then p
    else if code == 1 then q
    else if c0 > c1 then
      (if code == 2 then Pixel((2 * p.r + q.r) / 3, (2 * p.g + q.g) / 3, (2 * p.b + q.b) / 3, 255)
       else Pixel((p.r + 2 * q.r) / 3, (p.g + 2 * q.g) / 3, (p.b + 2 * q.b) / 3, 255))
    else Pixel((p.r + q.r) / 2, (p.g + q.g) / 2, (p.b + q.b) / 2, if code == 2 then 255 else 0)
  }

  predicate Between(v: nat, p: nat, q: nat) {
    if p <= q then p <= v <= q else q <= v <= p
  }

  function Gap(p: nat, q: nat): nat {
    if p < q then q - p else p - q
  }

  /** Each colour lies between the ends; of two in between, code 2 is the one nearer the first end. */
  lemma BlockColorsBetween(c0: nat, c1: nat, code: nat)
    requires c0 < 0x1_0000 && c1 < 0x1_0000 && code < 4
    ensures var (p, q, v) := (RGB565(c0), RGB565(c1), BlockColor(c0, c1, code));
      Between(v.r, p.r, q.r) && Between(v.g, p.g, q.g) && Between(v.b, p.b, q.b)
    ensures c0 > c1 ==>
      var (p, two, three) := (RGB565(c0), BlockColor(c0, c1, 2), BlockColor(c0, c1, 3));
      Gap(p.r, two.r) <= Gap(p.r, three.r) && Gap(p.g, two.g) <= Gap(p.g, three.g)
        && Gap(p.b, two.b) <= Gap(p.b, three.b)
    ensures BlockColor(c0, c1, code).a == 0 <==> c0 <= c1 && code == 3
  {
    hide Expand;
  }

  /**
    Codes 0 and 1 are the two ends; 2 and 3 are thirds of the way, rounded down, or half way when c0 is not above c1.
  */
  lemma BlockColorsExact(c0: nat, c1: nat)
    requires c0 < 0x1_0000 && c1 < 0x1_0000
    ensures BlockColor(c0, c1, 0) == RGB565(c0) && BlockColor(c0, c1, 1) == RGB565(c1)
    ensures var (p, q, two, three) := (RGB565(c0), RGB565(c1), BlockColor(c0, c1, 2), BlockColor(c0, c1, 3));
      if c0 > c1 then
        && 0 <= 2 * p.r + q.r - 3 * two.r < 3 && 0 <= 2 * p.g + q.g - 3 * two.g < 3
          && 0 <= 2 * p.b + q.b - 3 * two.b < 3
        && 0 <= p.r + 2 * q.r - 3 * three.r < 3 && 0 <= p.g + 2 * q.g - 3 * three.g < 3
        && 0 <= p.b + 2 * q.b - 3 * three.b < 3
      else
        && 0 <= p.r + q.r - 2 * two.r < 2 && 0 <= p.g + q.g - 2 * two.g < 2 && 0 <= p.b + q.b - 2 * two.b < 2
        && (three.r, three.g, three.b) == (two.r, two.g, two.b)
  {
    hide Expand;
  }

  /** The 2-bit code of column `x` in a row of four. */
  function Code(row: Byte, x: nat): nat
    requires x < 4
  {
    if x == 0 then row / 64 else if x == 1 then row / 16 % 4 else if x == 2 then row / 4 % 4 else row % 4
  }

  // ---- one texel of a block ----

  function BlockWidth(format: nat): nat {
    if format == 0 || format == 8 || format == 14 || format == 1 || format == 2 || format == 9 then 8 else 4
  }

  function BlockHeight(format: nat): nat {
    if format == 0 || format == 8 || format == 14 then 8 else 4
  }

  function BlockBytes(format: nat): nat {
    if format == 6 then 64 else 32
  }

  function Texel14(archive: seq<Byte>, block: nat, x: nat, y: nat): Option<Pixel>
    requires x < 8 && y < 8
  {
    var at := block + 8 * (y / 4 * 2 + x / 4);
    var (c0, c1, row) := (U16(archive, at), U16(archive, at + 2), U8(archive, at + 4 + y % 4));
    if c0.None? || c1.None? || row.None? then None else Some(BlockColor(c0.value, c1.value, Code(row.value, x % 4)))
  }

  /** Texel `index`, counted along the rows of the block that starts at `block`. */
  function Texel(archive: seq<Byte>, image: Image, block: nat, index: nat): Option<Pixel> {
    var (byte, half, nibble) :=
      (U8(archive, block + index), U16(archive, block + 2 * index), U8(archive, block + index / 2));
    var format := image.format;
    if format == 0 || format == 8 then
      if nibble.None? then None
      else
        var v := if index % 2 == 1 then nibble.value % 16 else nibble.value / 16;
        if format == 8 then Lookup(archive, image.palette, v)
          else Some(Pixel(Expand(v, 15), Expand(v, 15), Expand(v, 15), Expand(v, 15)))
    else if format == 1 then
      if byte.None? then None else Some(Pixel(byte.value, byte.value, byte.value, byte.value))
    else if format == 2 then
      if byte.None? then None
      else
        var v := Expand(byte.value % 16, 15);
        Some(Pixel(v, v, v, Expand(byte.value / 16, 15)))
    else if format == 3 then
      if half.None? then None else Some(Pixel(half.value % 256, half.value % 256, half.value % 256, half.value / 256))
    else if format == 4 then
      if half.None? then None else Some(RGB565(half.value))
    else if format == 5 then
      if half.None? then None else Some(RGB5A3(half.value))
    else if format == 6 then
      var (ar, gb) := (half, U16(archive, block + 32 + 2 * index));
      if ar.None? || gb.None? then None else Some(Pixel(ar.value % 256, gb.value / 256, gb.value % 256, ar.value / 256))
    else if format == 9 then
      if byte.None? then None else Lookup(archive, image.palette, byte.value)
    else if format == 10 then
      if half.None? then None else Lookup(archive, image.palette, half.value % 0x4000)
    else if format == 14 then Texel14(archive, block, index % 8, index / 8 % 8)
    else None
  }

  // ---- the closed form ----

  /** Blocks needed for `n` texels in blocks of `size`. */
  function Blocks(n: nat, size: nat): nat
    requires size == 4 || size == 8
  {
    (n + size - 1) / size
  }

  /** Where the block in block row `r` and block column `c` starts. */
  function BlockStart(image: Image, r: nat, c: nat): nat {
    image.data + (r * Blocks(image.width, BlockWidth(image.format)) + c) * BlockBytes(image.format)
  }

  /** The bytes of all blocks. */
  function Consumed(image: Image): nat {
    Blocks(image.width, BlockWidth(image.format)) * Blocks(image.height,
      BlockHeight(image.format)) * BlockBytes(image.format)
  }

  /** dy * bw + dx, for the two block widths. */
  function TexelIndex(bw: nat, dx: nat, dy: nat): nat {
    if bw == 8 then 8 * dy + dx else 4 * dy + dx
  }

  /** The pixel at (x, y), straight from its block. */
  function PixelAt(archive: seq<Byte>, image: Image, x: nat, y: nat): Option<Pixel> {
    var (bw, bh) := (BlockWidth(image.format), BlockHeight(image.format));
    Texel(archive, image, BlockStart(image, y / bh, x / bw), TexelIndex(bw, x % bw, y % bh))
  }

  predicate BlockDecodes(archive: seq<Byte>, image: Image, block: nat) {
    forall i :: 0 <= i < BlockWidth(image.format) * BlockHeight(image.format) ==> Texel(archive, image, block, i).Some?
  }

  /** Every texel of every block can be decoded, those past the edges included. */
  predicate AllDecode(archive: seq<Byte>, image: Image) {
    forall r, c ::
      0 <= r < Blocks(image.height, BlockHeight(image.format))
      && 0 <= c < Blocks(image.width, BlockWidth(image.format)) ==>
      BlockDecodes(archive, image, BlockStart(image, r, c))
  }

  // ---- level_bytes ----

  /** The size of one palette level in tools/companion_texture_diagnostic.py. */
  function LevelBytes(width: nat, height: nat, format: nat): nat {
    var blockHeight := if format == 8 then 8 else 4;
    (width + 7) / 8 * ((height + blockHeight - 1) / blockHeight) * 32
  }

  /** For the two palette formats it measures, it is what the decoder consumes. */
  lemma LevelBytesIsConsumed(image: Image)
    requires image.format == 8 || image.format == 9
    ensures LevelBytes(image.width, image.height, image.format) == Consumed(image)
  {}

  // ---- positions ----

  function Index(width: nat, x: nat, y: nat): nat {
    y * width + x
  }

  lemma IndexInside(width: nat, height: nat, x: nat, y: nat)
    requires x < width && y < height
    ensures Index(width, x, y) < width * height
  {
    assert (y + 1) * width <= height * width by { MulMonotone(y + 1, height, width); }
    assert (y + 1) * width == y * width + width;
  }

  lemma MulMonotone(a: nat, b: nat, m: nat)
    requires a <= b
    ensures a * m <= b * m
  {
    assert b * m == a * m + (b - a) * m;
  }

  lemma IndexInjective(width: nat, x: nat, y: nat, x': nat, y': nat)
    requires x < width && x' < width && (x != x' || y != y')
    ensures Index(width, x, y) != Index(width, x', y')
  {
    if y < y' {
      MulMonotone(y + 1, y', width);
      assert (y + 1) * width == y * width + width;
    } else if y' < y {
      MulMonotone(y' + 1, y, width);
      assert (y' + 1) * width == y' * width + width;
    }
  }

  // ---- the decoder as it runs ----

  ghost predicate InImage(image: Image, x: nat, y: nat) {
    x < image.width && y < image.height
  }

  ghost predicate InBlock(image: Image, left: nat, top: nat, x: nat, y: nat) {
    left <= x < left + BlockWidth(image.format) && top <= y < top + BlockHeight(image.format)
  }

  /** Pixel (x, y) of the output holds `want`. */
  ghost predicate Stored(image: Image, pixels: seq<Pixel>, x: nat, y: nat, want: Option<Pixel>) {
    Index(image.width, x, y) < |pixels| && want == Some(pixels[Index(image.width, x, y)])
  }

  /** The pixels of the image outside the block are those of `was`. */
  ghost predicate Outside(image: Image, left: nat, top: nat, was: seq<Pixel>, pixels: seq<Pixel>) {
    |was| == |pixels| == image.width * image.height
    && forall x: nat, y: nat :: InImage(image, x, y) && !InBlock(image, left, top, x, y) ==>
         Index(image.width, x, y) < |pixels| && pixels[Index(image.width, x, y)] == was[Index(image.width, x, y)]
  }

  /** The texels of a block for which `done` holds are stored. */
  ghost predicate Drawn(archive: seq<Byte>, image: Image, left: nat, top: nat, block: nat, pixels: seq<Pixel>,
      done: (nat, nat) -> bool) {
    forall x: nat, y: nat :: InImage(image, x, y) && InBlock(image, left, top, x, y) && done(x - left, y - top) ==>
      Stored(image, pixels, x, y, Texel(archive, image, block, TexelIndex(BlockWidth(image.format), x - left, y - top)))
  }

  /** The bounds check and the store of one texel. */
  method Store(image: Image, pixels: array<Pixel>, x: nat, y: nat, pixel: Pixel)
    requires pixels.Length == image.width * image.height
    modifies pixels
    ensures InImage(image, x, y) ==> Stored(image, pixels[..], x, y, Some(pixel))
    ensures forall i: nat, j: nat :: InImage(image, i, j) && (i != x || j != y) ==>
      Index(image.width, i, j) < pixels.Length
        && pixels[Index(image.width, i, j)] == old(pixels[Index(image.width, i, j)])
  {
    if x < image.width && y < image.height {
      IndexInside(image.width, image.height, x, y);
      pixels[Index(image.width, x, y)] := pixel;
    }
    forall i: nat, j: nat | InImage(image, i, j) && (i != x || j != y)
      ensures Index(image.width, i, j) < pixels.Length
        && pixels[Index(image.width, i, j)] == old(pixels[Index(image.width, i, j)])
    {
      IndexInside(image.width, image.height, i, j);
      if x < image.width && y < image.height {
        IndexInjective(image.width, x, y, i, j);
      }
    }
  }

  /** One more texel drawn. */
  lemma DrawnMore(archive: seq<Byte>, image: Image, left: nat, top: nat, block: nat, was: seq<Pixel>,
      pixels: seq<Pixel>,
                  done: (nat, nat) -> bool, dx: nat, dy: nat, more: (nat, nat) -> bool, start: seq<Pixel>)
    requires Drawn(archive, image, left, top, block, was, done) && Outside(image, left, top, start, was)
      && |pixels| == |was|
    requires InBlock(image, left, top, left + dx, top + dy)
    requires forall i: nat, j: nat :: i < BlockWidth(image.format) && j < BlockHeight(image.format) && more(i, j) ==>
      done(i, j) || (i == dx && j == dy)
    requires InImage(image, left + dx, top + dy) ==>
      Stored(image, pixels, left + dx, top + dy,
        Texel(archive, image, block, TexelIndex(BlockWidth(image.format), dx, dy)))
    requires forall i: nat, j: nat :: InImage(image, i, j) && (i != left + dx || j != top + dy) ==>
      Index(image.width, i, j) < |pixels| && pixels[Index(image.width, i, j)] == was[Index(image.width, i, j)]
    ensures Drawn(archive, image, left, top, block, pixels, more) && Outside(image, left, top, start, pixels)
  {
    hide Texel, Index, BlockWidth, BlockHeight, TexelIndex;
    forall x: nat, y: nat | InImage(image, x, y) && InBlock(image, left, top, x, y) && more(x - left, y - top)
      ensures Stored(image, pixels, x, y,
        Texel(archive, image, block, TexelIndex(BlockWidth(image.format), x - left, y - top)))
    {
      if x != left + dx || y != top + dy {
        assert done(x - left, y - top);
        assert Stored(image, was, x, y,
          Texel(archive, image, block, TexelIndex(BlockWidth(image.format), x - left, y - top)));
      }
    }
  }

  /** Texels before (x, y) in reading order. */
  function Before(x: nat, y: nat): (nat, nat) -> bool {
    (i: nat, j: nat) => j < y || (j == y && i < x)
  }

  lemma NothingDrawn(archive: seq<Byte>, image: Image, left: nat, top: nat, block: nat, pixels: seq<Pixel>)
    requires |pixels| == image.width * image.height
    ensures Drawn(archive, image, left, top, block, pixels, Before(0, 0)) && Outside(image, left, top, pixels, pixels)
  {
    forall x: nat, y: nat | InImage(image, x, y)
      ensures Index(image.width, x, y) < |pixels|
    {
      IndexInside(image.width, image.height, x, y);
    }
  }

  /** A block of any format but 14, row by row. */
  method DecodeBlock(archive: seq<Byte>, image: Image, pixels: array<Pixel>, left: nat, top: nat, cursor: nat)
      returns (ok: bool)
    requires pixels.Length == image.width * image.height
    modifies pixels
    ensures ok <==> BlockDecodes(archive, image, cursor)
    ensures ok ==> Drawn(archive, image, left, top, cursor, pixels[..], Before(0, BlockHeight(image.format)))
    ensures ok ==> Outside(image, left, top, old(pixels[..]), pixels[..])
  {
    hide Texel, Index, Drawn, Outside, Stored, BlockDecodes;
    var bw, bh := BlockWidth(image.format), BlockHeight(image.format);
    ghost var start := pixels[..];
    NothingDrawn(archive, image, left, top, cursor, start);
    for y := 0 to bh
      invariant Drawn(archive, image, left, top, cursor, pixels[..], Before(0, y))
        && Outside(image, left, top, start, pixels[..])
      invariant forall i :: 0 <= i < TexelIndex(bw, 0, y) ==> Texel(archive, image, cursor, i).Some?
    {
      for x := 0 to bw
        invariant Drawn(archive, image, left, top, cursor, pixels[..], Before(x, y))
          && Outside(image, left, top, start, pixels[..])
        invariant forall i :: 0 <= i < TexelIndex(bw, x, y) ==> Texel(archive, image, cursor, i).Some?
      {
        var pixel := Texel(archive, image, cursor, TexelIndex(bw, x, y));
        if pixel.None? {
          OneFails(archive, image, cursor, TexelIndex(bw, x, y));
          return false;
        }
        ghost var was := pixels[..];
        Store(image, pixels, left + x, top + y, pixel.value);
        DrawnMore(archive, image, left, top, cursor, was, pixels[..], Before(x, y), x, y, Before(x + 1, y), start);
      }
      RowDone(archive, image, left, top, cursor, pixels[..], y);
    }
    AllDecoded(archive, image, cursor);
    ok := true;
  }

  lemma OneFails(archive: seq<Byte>, image: Image, block: nat, i: nat)
    requires i < BlockWidth(image.format) * BlockHeight(image.format) && Texel(archive, image, block, i).None?
    ensures !BlockDecodes(archive, image, block)
  {
    hide Texel;
  }

  lemma AllDecoded(archive: seq<Byte>, image: Image, block: nat)
    requires forall i :: 0 <= i < TexelIndex(BlockWidth(image.format), 0, BlockHeight(image.format)) ==>
      Texel(archive, image, block, i).Some?
    ensures BlockDecodes(archive, image, block)
  {
    hide Texel;
  }

  lemma RowDone(archive: seq<Byte>, image: Image, left: nat, top: nat, block: nat, pixels: seq<Pixel>, y: nat)
    requires Drawn(archive, image, left, top, block, pixels, Before(BlockWidth(image.format), y))
    ensures Drawn(archive, image, left, top, block, pixels, Before(0, y + 1))
  {
    hide Texel, Stored, TexelIndex;
  }

  // ---- the compressed format: four sub-blocks of 4 x 4 ----

  function Quadrant(dx: nat, dy: nat): nat {
    dy / 4 * 2 + dx / 4
  }

  /** Texels of the sub-blocks before `sub`, and those before (x, y) inside it. */
  function Before14(sub: nat, x: nat, y: nat): (nat, nat) -> bool {
    (i: nat, j: nat) => Quadrant(i, j) < sub || (Quadrant(i, j) == sub && (j % 4 < y || (j % 4 == y && i % 4 < x)))
  }

  lemma TexelPlace(dx: nat, dy: nat)
    requires dx < 8 && dy < 8
    ensures TexelIndex(8, dx, dy) % 8 == dx && TexelIndex(8, dx, dy) / 8 % 8 == dy
  {}

  lemma Texel14Is(archive: seq<Byte>, image: Image, block: nat, dx: nat, dy: nat)
    requires image.format == 14 && dx < 8 && dy < 8
    ensures Texel(archive, image, block, TexelIndex(8, dx, dy)) == Texel14(archive, block, dx, dy)
  {
    hide Texel14, TexelIndex, Lookup, Expand, RGB565, RGB5A3, U8, U16;
    TexelPlace(dx, dy);
  }

  lemma Texel14At(archive: seq<Byte>, block: nat, sub: nat, x: nat, y: nat)
    requires sub < 4 && x < 4 && y < 4
    ensures var at, dx, dy := block + 8 * sub, sub % 2 * 4 + x, sub / 2 * 4 + y;
      && Quadrant(dx, dy) == sub
      && Texel14(archive, block, dx, dy) ==
           (if U16(archive, at).None? || U16(archive, at + 2).None? || U8(archive, at + 4 + y).None? then None
            else Some(BlockColor(U16(archive, at).value, U16(archive, at + 2).value,
              Code(U8(archive, at + 4 + y).value, x))))
  {
    hide BlockColor, Code, U16, U8;
    var dx, dy := sub % 2 * 4 + x, sub / 2 * 4 + y;
    assert dx % 4 == x && dx / 4 == sub % 2 && dy % 4 == y && dy / 4 == sub / 2;
  }

  /** A block of format 14. */
  method DecodeBlock14(archive: seq<Byte>, image: Image, pixels: array<Pixel>, left: nat, top: nat, cursor: nat)
      returns (ok: bool)
    requires pixels.Length == image.width * image.height && image.format == 14
    modifies pixels
    ensures ok <==> BlockDecodes(archive, image, cursor)
    ensures ok ==> Drawn(archive, image, left, top, cursor, pixels[..], Before(0, BlockHeight(image.format)))
    ensures ok ==> Outside(image, left, top, old(pixels[..]), pixels[..])
  {
    hide Texel, Texel14, Index, Drawn, Outside, Stored, BlockDecodes, BlockColor, Code, U16, U8, Quadrant;
    ghost var start := pixels[..];
    NothingDrawn14(archive, image, left, top, cursor, start);
    for sub := 0 to 4
      invariant Drawn(archive, image, left, top, cursor, pixels[..], Before14(sub, 0, 0))
        && Outside(image, left, top, start, pixels[..])
      invariant forall i: nat, j: nat :: i < 8 && j < 8 && Before14(sub, 0, 0)(i, j) ==>
        Texel14(archive, cursor, i, j).Some?
    {
      var at := cursor + 8 * sub;
      var c0, c1 := U16(archive, at), U16(archive, at + 2);
      if c0.None? || c1.None? {
        Texel14At(archive, cursor, sub, 0, 0);
        TexelFails14(archive, image, cursor, sub % 2 * 4, sub / 2 * 4);
        return false;
      }
      for y := 0 to 4
        invariant Drawn(archive, image, left, top, cursor, pixels[..], Before14(sub, 0, y))
          && Outside(image, left, top, start, pixels[..])
        invariant forall i: nat, j: nat :: i < 8 && j < 8 && Before14(sub, 0, y)(i, j) ==>
          Texel14(archive, cursor, i, j).Some?
      {
        var row := U8(archive, at + 4 + y);
        if row.None? {
          Texel14At(archive, cursor, sub, 0, y);
          TexelFails14(archive, image, cursor, sub % 2 * 4, sub / 2 * 4 + y);
          return false;
        }
        for x := 0 to 4
          invariant Drawn(archive, image, left, top, cursor, pixels[..], Before14(sub, x, y))
            && Outside(image, left, top, start, pixels[..])
          invariant forall i: nat, j: nat :: i < 8 && j < 8 && Before14(sub, x, y)(i, j) ==>
            Texel14(archive, cursor, i, j).Some?
        {
          var dx, dy := sub % 2 * 4 + x, sub / 2 * 4 + y;
          Texel14At(archive, cursor, sub, x, y);
          Texel14Is(archive, image, cursor, dx, dy);
          ghost var was := pixels[..];
          Store(image, pixels, left + dx, top + dy, BlockColor(c0.value, c1.value, Code(row.value, x)));
          OneMore14(sub, x, y);
          DrawnMore(archive, image, left, top, cursor, was, pixels[..], Before14(sub, x, y), dx, dy,
            Before14(sub, x + 1, y), start);
        }
        RowDone14(archive, image, left, top, cursor, pixels[..], Before14(sub, 4, y), Before14(sub, 0, y + 1));
      }
      RowDone14(archive, image, left, top, cursor, pixels[..], Before14(sub, 0, 4), Before14(sub + 1, 0, 0));
    }
    EveryQuadrant();
    RowDone14(archive, image, left, top, cursor, pixels[..], Before14(4, 0, 0), Before(0, 8));
    AllDecoded14(archive, image, cursor);
    ok := true;
  }

  lemma NothingDrawn14(archive: seq<Byte>, image: Image, left: nat, top: nat, block: nat, pixels: seq<Pixel>)
    requires |pixels| == image.width * image.height
    ensures Drawn(archive, image, left, top, block, pixels, Before14(0, 0, 0))
      && Outside(image, left, top, pixels, pixels)
  {
    NothingDrawn(archive, image, left, top, block, pixels);
  }

  lemma TexelFails14(archive: seq<Byte>, image: Image, block: nat, dx: nat, dy: nat)
    requires image.format == 14 && dx < 8 && dy < 8 && Texel14(archive, block, dx, dy).None?
    ensures !BlockDecodes(archive, image, block)
  {
    Texel14Is(archive, image, block, dx, dy);
    OneFails(archive, image, block, TexelIndex(8, dx, dy));
  }

  /** The next texel of a sub-block is the only one added. */
  lemma OneMore14(sub: nat, x: nat, y: nat)
    requires sub < 4 && x < 4 && y < 4
    ensures forall i: nat, j: nat :: i < 8 && j < 8 && Before14(sub, x + 1, y)(i, j) ==>
      Before14(sub, x, y)(i, j) || (i == sub % 2 * 4 + x && j == sub / 2 * 4 + y)
  {}

  lemma RowDone14(archive: seq<Byte>, image: Image, left: nat, top: nat, block: nat, pixels: seq<Pixel>,
                  done: (nat, nat) -> bool, more: (nat, nat) -> bool)
    requires Drawn(archive, image, left, top, block, pixels, done) && image.format == 14
    requires forall i: nat, j: nat :: i < 8 && j < 8 && more(i, j) ==> done(i, j)
    ensures Drawn(archive, image, left, top, block, pixels, more)
  {
    hide Texel, Stored, TexelIndex;
  }

  lemma EveryQuadrant()
    ensures forall i: nat, j: nat :: i < 8 && j < 8 ==> Before14(4, 0, 0)(i, j)
  {}

  lemma AllDecoded14(archive: seq<Byte>, image: Image, block: nat)
    requires image.format == 14
    requires forall i: nat, j: nat :: i < 8 && j < 8 && Before14(4, 0, 0)(i, j) ==> Texel14(archive, block, i, j).Some?
    ensures BlockDecodes(archive, image, block)
  {
    EveryQuadrant();
    hide Texel, Texel14;
    forall k | 0 <= k < 64
      ensures Texel(archive, image, block, k).Some?
    {
      assert Before14(4, 0, 0)(k % 8, k / 8);
      Texel14Is(archive, image, block, k % 8, k / 8);
    }
  }

  // ---- the whole image ----

  function Times(size: nat, n: nat): nat {
    if size == 8 then 8 * n else 4 * n
  }

  lemma BlocksBound(size: nat, n: nat, length: nat)
    requires size == 4 || size == 8
    ensures Times(size, n) < length <==> n < Blocks(length, size)
    ensures Times(size, n + 1) == Times(size, n) + size
  {}

  lemma BlockOf(size: nat, n: nat, v: nat)
    requires (size == 4 || size == 8) && Times(size, n) <= v < Times(size, n) + size
    ensures v / size == n && v % size == v - Times(size, n)
  {}

  lemma NextColumn(image: Image, r: nat, c: nat)
    ensures BlockStart(image, r, c + 1) == BlockStart(image, r, c) + BlockBytes(image.format)
  {
    var n := r * Blocks(image.width, BlockWidth(image.format)) + c;
    assert (n + 1) * BlockBytes(image.format) == n * BlockBytes(image.format) + BlockBytes(image.format);
  }

  lemma NextRow(image: Image, r: nat)
    ensures BlockStart(image, r, Blocks(image.width, BlockWidth(image.format))) == BlockStart(image, r + 1, 0)
  {
    var n := Blocks(image.width, BlockWidth(image.format));
    assert (r + 1) * n == r * n + n;
  }

  lemma EndOfBlocks(image: Image)
    ensures BlockStart(image, Blocks(image.height, BlockHeight(image.format)), 0) == image.data + Consumed(image)
    ensures BlockStart(image, 0, 0) == image.data
  {
    var h, w := Blocks(image.height, BlockHeight(image.format)), Blocks(image.width, BlockWidth(image.format));
    assert h * w + 0 == w * h;
  }

  /** The pixels above `top`, and left of `left` in the block row at `top`, are those of the closed form. */
  ghost predicate Finished(archive: seq<Byte>, image: Image, pixels: seq<Pixel>, left: nat, top: nat) {
    |pixels| == image.width * image.height
    && forall x: nat, y: nat ::
      InImage(image, x, y) && (y < top || (y < top + BlockHeight(image.format) && x < left)) ==>
         Stored(image, pixels, x, y, PixelAt(archive, image, x, y))
  }

  lemma BlockAdds(archive: seq<Byte>, image: Image, was: seq<Pixel>, pixels: seq<Pixel>, r: nat, c: nat)
    requires var left, top := Times(BlockWidth(image.format), c), Times(BlockHeight(image.format), r);
      && Finished(archive, image, was, left, top)
      && Drawn(archive, image, left, top, BlockStart(image, r, c), pixels, Before(0, BlockHeight(image.format)))
      && Outside(image, left, top, was, pixels)
    ensures Finished(archive, image, pixels, Times(BlockWidth(image.format), c + 1),
      Times(BlockHeight(image.format), r))
  {
    hide Texel, Index, BlockStart, TexelIndex;
    var bw, bh := BlockWidth(image.format), BlockHeight(image.format);
    var left, top := Times(bw, c), Times(bh, r);
    forall x: nat, y: nat | InImage(image, x, y) && (y < top || (y < top + bh && x < left + bw))
      ensures Stored(image, pixels, x, y, PixelAt(archive, image, x, y))
    {
      if InBlock(image, left, top, x, y) {
        BlockOf(bw, c, x);
        BlockOf(bh, r, y);
        assert Before(0, bh)(x - left, y - top);
      } else {
        assert Stored(image, was, x, y, PixelAt(archive, image, x, y));
      }
    }
  }

  lemma RowFinished(archive: seq<Byte>, image: Image, pixels: seq<Pixel>, left: nat, top: nat)
    requires Finished(archive, image, pixels, left, top) && left >= image.width
    ensures Finished(archive, image, pixels, 0, top + BlockHeight(image.format))
  {
    hide Texel, Stored, PixelAt;
  }

  /** The blocks before column `c` of row `r` all decode. */
  ghost predicate DecodedTo(archive: seq<Byte>, image: Image, r: nat, c: nat) {
    forall i: nat, j: nat :: (i < r && j < Blocks(image.width, BlockWidth(image.format))) || (i == r && j < c) ==>
      BlockDecodes(archive, image, BlockStart(image, i, j))
  }

  lemma DecodedAll(archive: seq<Byte>, image: Image)
    requires DecodedTo(archive, image, Blocks(image.height, BlockHeight(image.format)), 0)
    ensures AllDecode(archive, image)
  {
    hide BlockDecodes, BlockStart;
  }

  lemma NotDecoded(archive: seq<Byte>, image: Image, r: nat, c: nat)
    requires r < Blocks(image.height, BlockHeight(image.format)) && c < Blocks(image.width, BlockWidth(image.format))
    requires !BlockDecodes(archive, image, BlockStart(image, r, c))
    ensures !AllDecode(archive, image)
  {
    hide BlockDecodes, BlockStart;
  }

  predicate SizeOk(image: Image) {
    0 < image.width <= 4096 && 0 < image.height <= 4096
  }

  /**
    Decodes an image block by block. It succeeds exactly when every texel of every block decodes;
    every pixel is then the one of the closed form, and every block has been consumed.
  */
  method DecodeTexture(archive: seq<Byte>, image: Image) returns (r: Option<seq<Pixel>>, cursor: nat)
    ensures r.Some? <==> SizeOk(image) && AllDecode(archive, image)
    ensures r.Some? ==> |r.value| == image.width * image.height
    ensures r.Some? ==> forall x: nat, y: nat :: InImage(image, x, y) ==>
      Stored(image, r.value, x, y, PixelAt(archive, image, x, y))
    ensures r.Some? ==> cursor == image.data + Consumed(image)
  {
    hide AllDecode, BlockDecodes, DecodedTo, BlockStart, Drawn, Outside, Finished, Stored, PixelAt, Consumed, Blocks;
    hide Before;
    cursor := image.data;
    if !SizeOk(image) {
      return None, cursor;
    }
    var bw, bh := BlockWidth(image.format), BlockHeight(image.format);
    var pixels := new Pixel[image.width * image.height](_ => Pixel(0, 0, 0, 0));
    var top := 0;
    ghost var row := 0;
    EndOfBlocks(image);
    NothingFinished(archive, image, pixels[..]);
    while top < image.height
      invariant top == Times(bh, row) && row <= Blocks(image.height, bh)
      invariant cursor == BlockStart(image, row, 0)
      invariant Finished(archive, image, pixels[..], 0, top) && DecodedTo(archive, image, row, 0)
      decreases Blocks(image.height, bh) - row
    {
      BlocksBound(bh, row, image.height);
      var left := 0;
      ghost var column := 0;
      while left < image.width
        invariant left == Times(bw, column) && column <= Blocks(image.width, bw)
        invariant cursor == BlockStart(image, row, column)
        invariant Finished(archive, image, pixels[..], left, top) && DecodedTo(archive, image, row, column)
        decreases Blocks(image.width, bw) - column
      {
        BlocksBound(bw, column, image.width);
        ghost var was := pixels[..];
        var ok;
        if image.format == 14 {
          ok := DecodeBlock14(archive, image, pixels, left, top, cursor);
        } else {
          ok := DecodeBlock(archive, image, pixels, left, top, cursor);
        }
        if !ok {
          NotDecoded(archive, image, row, column);
          return None, cursor;
        }
        BlockAdds(archive, image, was, pixels[..], row, column);
        DecodedMore(archive, image, row, column);
        NextColumn(image, row, column);
        cursor := cursor + BlockBytes(image.format);
        left, column := left + bw, column + 1;
      }
      BlocksBound(bw, column, image.width);
      RowFinished(archive, image, pixels[..], left, top);
      DecodedRow(archive, image, row);
      NextRow(image, row);
      top, row := top + bh, row + 1;
    }
    BlocksBound(bh, row, image.height);
    DecodedAll(archive, image);
    AllFinished(archive, image, pixels[..], top);
    r := Some(pixels[..]);
  }

  lemma NothingFinished(archive: seq<Byte>, image: Image, pixels: seq<Pixel>)
    requires |pixels| == image.width * image.height
    ensures Finished(archive, image, pixels, 0, 0) && DecodedTo(archive, image, 0, 0)
  {}

  lemma DecodedMore(archive: seq<Byte>, image: Image, r: nat, c: nat)
    requires DecodedTo(archive, image, r, c) && BlockDecodes(archive, image, BlockStart(image, r, c))
    ensures DecodedTo(archive, image, r, c + 1)
  {
    hide BlockDecodes, BlockStart;
  }

  lemma DecodedRow(archive: seq<Byte>, image: Image, r: nat)
    requires DecodedTo(archive, image, r, Blocks(image.width, BlockWidth(image.format)))
    ensures DecodedTo(archive, image, r + 1, 0)
  {
    hide BlockDecodes, BlockStart;
  }

  lemma AllFinished(archive: seq<Byte>, image: Image, pixels: seq<Pixel>, top: nat)
    requires Finished(archive, image, pixels, 0, top) && top >= image.height
    ensures forall x: nat, y: nat :: InImage(image, x, y) ==> Stored(image, pixels, x, y, PixelAt(archive, image, x, y))
  {
    hide Stored, PixelAt;
  }
}
