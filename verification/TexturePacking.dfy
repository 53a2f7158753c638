/** What the bytes of a texture stand for: blocks packed from texels, read back by the decoder (native/Texture.h). */
module TexturePacking {
  import opened Bytes
  import opened Texture

  // ---- formats ----

  predicate Known(format: nat) {
    format <= 6 || 8 <= format <= 10 || format == 14
  }

  /** Bits for one texel. */
  function Bits(format: nat): nat {
    if format == 0 || format == 8 || format == 14 then 4
    else if format == 1 || format == 2 || format == 9 then 8
    else if format == 6 then 32
    else 16
  }

  /**
    The shape of a block follows from the bits of a texel: texels fill all its bytes, blocks of up to 8 bits a texel are
    8 wide, the others 4, and only 32 bits a texel take 64 bytes.
  */
  lemma ShapeFollowsBits(format: nat)
    requires Known(format)
    ensures BlockWidth(format) * BlockHeight(format) * Bits(format) == 8 * BlockBytes(format)
    ensures BlockWidth(format) == (if Bits(format) <= 8 then 8 else 4)
    ensures BlockBytes(format) == (if Bits(format) == 32 then 64 else 32)
  {}

  // ---- texels ----

  type Nibble = x: int | 0 <= x < 0x10
  type Five = x: int | 0 <= x < 0x20
  type Six = x: int | 0 <= x < 0x40
  type Three = x: int | 0 <= x < 8
  type Half = x: int | 0 <= x < 0x1_0000

  /** A texel by its channels, or by the palette entry it names. */
  datatype Sample =
    | Grey4(v: Nibble)
    | Grey8(w: Byte)
    | GreyAlpha4(grey: Nibble, alpha: Nibble)
    | GreyAlpha8(light: Byte, opacity: Byte)
    | Rgb565(r: Five, g: Six, b: Five)
    | Rgb5(red: Five, green: Five, blue: Five)
    | Rgb4A3(r4: Nibble, g4: Nibble, b4: Nibble, a3: Three)
    | Argb(a8: Byte, r8: Byte, g8: Byte, b8: Byte)
    | Index(entry: nat)

  predicate IsOf(s: Sample, format: nat) {
    if format == 0 then s.Grey4?
    else if format == 1 then s.Grey8?
    else if format == 2 then s.GreyAlpha4?
    else if format == 3 then s.GreyAlpha8?
    else if format == 4 then s.Rgb565?
    else if format == 5 then s.Rgb5? || s.Rgb4A3?
    else if format == 6 then s.Argb?
    else if format == 8 then s.Index? && s.entry < 0x10
    else if format == 9 then s.Index? && s.entry < 0x100
    else if format == 10 then s.Index? && s.entry < 0x4000
    else false
  }

  /** The number that stands for a texel: its channels from the highest bits down. */
  function Code(s: Sample): nat {
    match s
    case Grey4(v) => v
    case Grey8(v) => v
    case GreyAlpha4(v, a) => a * 16 + v
    case GreyAlpha8(v, a) => a * 256 + v
    case Rgb565(r, g, b) => r * 2048 + g * 32 + b
    case Rgb5(r, g, b) => 0x8000 + r * 1024 + g * 32 + b
    case Rgb4A3(r, g, b, a) => a * 4096 + r * 256 + g * 16 + b
    case Argb(a, r, g, b) => a * 0x100_0000 + r * 0x1_0000 + g * 256 + b
    case Index(i) => i
  }

  /** The palette's entries, as texels. */
  type Colors = seq<Sample>

  /** The pixel a texel stands for. */
  function Meaning(s: Sample, colors: Colors): Option<Pixel>
    decreases s.Index?
  {
    match s
    case Grey4(v) => Some(Pixel(Expand(v, 15), Expand(v, 15), Expand(v, 15), Expand(v, 15)))
    case Grey8(v) => Some(Pixel(v, v, v, v))
    case GreyAlpha4(v, a) => Some(Pixel(Expand(v, 15), Expand(v, 15), Expand(v, 15), Expand(a, 15)))
    case GreyAlpha8(v, a) => Some(Pixel(v, v, v, a))
    case Rgb565(r, g, b) => Some(Pixel(Expand(r, 31), Expand(g, 63), Expand(b, 31), 255))
    case Rgb5(r, g, b) => Some(Pixel(Expand(r, 31), Expand(g, 31), Expand(b, 31), 255))
    case Rgb4A3(r, g, b, a) => Some(Pixel(Expand(r, 15), Expand(g, 15), Expand(b, 15), Expand(a, 7)))
    case Argb(a, r, g, b) => Some(Pixel(r, g, b, a))
    case Index(i) => if i < |colors| && !colors[i].Index? then Meaning(colors[i], []) else None
  }

  /** Numbers of two bytes are read back as they were spelled. */
  lemma ColorIs(s: Sample)
    requires s.Rgb565? || s.Rgb5? || s.Rgb4A3?
    ensures Code(s) < 0x1_0000
    ensures Meaning(s, []) == Some(if s.Rgb565? then RGB565(Code(s)) else RGB5A3(Code(s)))
  {
    hide Expand, RGB565, RGB5A3;
    match s
    case Rgb565(r, g, b) => Is565(r, g, b);
    case Rgb5(r, g, b) => Is555(r, g, b);
    case Rgb4A3(r, g, b, a) => Is4443(r, g, b, a);
    case _ =>
  }

  lemma Is565(r: Five, g: Six, b: Five)
    ensures RGB565(r * 2048 + g * 32 + b) == Pixel(Expand(r, 31), Expand(g, 63), Expand(b, 31), 255)
  {
    hide Expand;
    Three565(r, g, b);
  }

  lemma Is555(r: Five, g: Five, b: Five)
    ensures RGB5A3(0x8000 + r * 1024 + g * 32 + b) == Pixel(Expand(r, 31), Expand(g, 31), Expand(b, 31), 255)
  {
    hide Expand;
    Three555(r, g, b);
  }

  lemma Is4443(r: Nibble, g: Nibble, b: Nibble, a: Three)
    ensures a * 4096 + r * 256 + g * 16 + b < 0x8000
    ensures RGB5A3(a * 4096 + r * 256 + g * 16 + b) == Pixel(Expand(r, 15), Expand(g, 15), Expand(b, 15), Expand(a, 7))
  {
    hide Expand;
    Four4443(r, g, b, a);
  }

  lemma Three565(r: Five, g: Six, b: Five)
    ensures var c := r * 2048 + g * 32 + b; c / 2048 == r && c / 32 % 64 == g && c % 32 == b
  {
    var c := r * 2048 + g * 32 + b;
    ModUnique(c, 32, r * 64 + g, b);
    ModUnique(r * 64 + g, 64, r, g);
    ModUnique(c, 2048, r, g * 32 + b);
  }

  lemma Three555(r: Five, g: Five, b: Five)
    ensures var c := 0x8000 + r * 1024 + g * 32 + b;
      0x8000 <= c < 0x1_0000 && c / 1024 % 32 == r && c / 32 % 32 == g && c % 32 == b
  {
    var c := 0x8000 + r * 1024 + g * 32 + b;
    ModUnique(c, 32, 1024 + r * 32 + g, b);
    ModUnique(1024 + r * 32 + g, 32, 32 + r, g);
    ModUnique(c, 1024, 32 + r, g * 32 + b);
    ModUnique(32 + r, 32, 1, r);
  }

  lemma Four4443(r: Nibble, g: Nibble, b: Nibble, a: Three)
    ensures var c := a * 4096 + r * 256 + g * 16 + b;
      c < 0x8000 && c / 256 % 16 == r && c / 16 % 16 == g && c % 16 == b && c / 4096 % 8 == a
  {
    var c := a * 4096 + r * 256 + g * 16 + b;
    ModUnique(c, 16, a * 256 + r * 16 + g, b);
    ModUnique(a * 256 + r * 16 + g, 16, a * 16 + r, g);
    ModUnique(c, 256, a * 16 + r, g * 16 + b);
    ModUnique(a * 16 + r, 16, a, r);
    ModUnique(c, 4096, a, r * 256 + g * 16 + b);
    ModUnique(a, 8, 0, a);
  }

  /** How many numbers a texel of the format can be. */
  function Codes(format: nat): nat {
    if Bits(format) == 4 then 0x10
    else if Bits(format) == 8 then 0x100
    else if format == 10 then 0x4000
    else if Bits(format) == 16 then 0x1_0000
    else 0x1_0000_0000
  }

  /** Each of them is the number of some texel. */
  lemma EverySample(format: nat, code: nat) returns (s: Sample)
    requires Known(format) && format != 14 && code < Codes(format)
    ensures IsOf(s, format) && Code(s) == code
  {
    if format == 0 {
      s := Grey4(code);
    } else if format == 1 {
      s := Grey8(code);
    } else if format == 2 {
      s := GreyAlpha4(code % 16, code / 16);
    } else if format == 3 {
      s := GreyAlpha8(code % 256, code / 256);
    } else if format == 4 {
      s := Some565(code);
    } else if format == 5 {
      s := Some5A3(code);
    } else if format == 6 {
      s := SomeArgb(code);
    } else {
      s := Index(code);
    }
  }

  lemma Some565(code: Half) returns (s: Sample)
    ensures s.Rgb565? && Code(s) == code
  {
    Parts(code, 32, 64);
    s := Rgb565(code / 2048, code / 32 % 64, code % 32);
  }

  lemma Some5A3(code: Half) returns (s: Sample)
    ensures (s.Rgb5? || s.Rgb4A3?) && Code(s) == code
  {
    if code >= 0x8000 {
      Parts(code - 0x8000, 32, 32);
      var c := code - 0x8000;
      s := Rgb5(c / 1024, c / 32 % 32, c % 32);
    } else {
      Parts(code, 16, 16);
      Parts(code / 256, 16, 1);
      s := Rgb4A3(code / 256 % 16, code / 16 % 16, code % 16, code / 256 / 16);
    }
  }

  lemma SomeArgb(code: nat) returns (s: Sample)
    requires code < 0x1_0000_0000
    ensures s.Argb? && Code(s) == code
  {
    var high, low := code / 0x1_0000, code % 0x1_0000;
    Parts(high, 256, 1);
    Parts(low, 256, 1);
    s := Argb(high / 256, high % 256, low / 256, low % 256);
  }

  lemma Parts(x: nat, p: nat, q: nat)
    requires p > 0 && q > 0
    ensures p * q > 0 && x == x / (p * q) * (p * q) + x / p % q * p + x % p
  {
    var a, r := x / p, x % p;
    var c, s := a / q, a % q;
    PartsFit(p, q, s, r);
    PartsSum(x, p, q, a, r, c, s);
    ModUnique(x, p * q, c, p * s + r);
  }

  lemma PartsFit(p: nat, q: nat, s: nat, r: nat)
    requires s < q && r < p
    ensures 0 < p * q && p * s + r < p * q
  {
    assert p * (q - 1 - s) >= 0;
    assert p * (q - 1 - s) == p * q - p - p * s;
  }

  lemma PartsSum(x: nat, p: nat, q: nat, a: nat, r: nat, c: nat, s: nat)
    requires x == p * a + r && a == q * c + s
    ensures x == p * q * c + (p * s + r)
  {
    assert p * (q * c + s) == p * (q * c) + p * s;
    assert p * (q * c) == p * q * c;
  }

  // ---- blocks ----

  /** The texels of a block, along its rows. */
  predicate IsBlock(format: nat, samples: seq<Sample>) {
    |samples| == BlockWidth(format) * BlockHeight(format) && forall i :: 0 <= i < |samples| ==> IsOf(samples[i], format)
  }

  /**
    The first four bits of a byte are its earlier texel; two bytes have their high byte first; four have two planes.
  */
  function PackedByte(format: nat, samples: seq<Sample>, k: nat): Byte
    requires Known(format) && format != 14 && IsBlock(format, samples) && k < BlockBytes(format)
  {
    if Bits(format) == 4 then
      assert IsOf(samples[2 * k], format) && IsOf(samples[2 * k + 1], format);
      Code(samples[2 * k]) * 16 + Code(samples[2 * k + 1])
    else if Bits(format) == 8 then
      assert IsOf(samples[k], format);
      Code(samples[k])
    else if Bits(format) == 16 then
      assert IsOf(samples[k / 2], format);
      HalfCode(samples[k / 2], format);
      if k % 2 == 0 then Code(samples[k / 2]) / 256 else Code(samples[k / 2]) % 256
    else
      var s := samples[k % 32 / 2];
      assert IsOf(s, format);
      if k < 32 then (if k % 2 == 0 then s.a8 else s.r8) else (if k % 2 == 0 then s.g8 else s.b8)
  }

  lemma HalfCode(s: Sample, format: nat)
    requires IsOf(s, format) && Bits(format) == 16
    ensures Code(s) < 0x1_0000
  {}

  /** The bytes of a block are in the archive. */
  ghost predicate Holds(archive: seq<Byte>, block: nat, format: nat, samples: seq<Sample>)
    requires Known(format) && format != 14 && IsBlock(format, samples)
  {
    && block + BlockBytes(format) <= |archive|
    && forall k :: 0 <= k < BlockBytes(format) ==> archive[block + k] == PackedByte(format, samples, k)
  }

  /** The palette's colours are in the archive, high byte first, as texels of the palette's kind. */
  ghost predicate HoldsPalette(archive: seq<Byte>, palette: Option<Palette>, colors: Colors) {
    && palette.Some? && |colors| == palette.value.count
    && palette.value.colors + 2 * |colors| <= |archive| && palette.value.kind <= 2
    && forall i :: 0 <= i < |colors| ==> PaletteEntry(archive, palette.value, colors[i], i)
  }

  ghost predicate PaletteEntry(archive: seq<Byte>, palette: Palette, s: Sample, i: nat)
    requires palette.colors + 2 * i + 2 <= |archive|
  {
    && (if palette.kind == 0 then s.GreyAlpha8? else if palette.kind == 1 then s.Rgb565? else s.Rgb5? || s.Rgb4A3?)
    && Code(s) == archive[palette.colors + 2 * i] as int * 256 + archive[palette.colors + 2 * i + 1]
  }

  lemma PaletteReads(archive: seq<Byte>, palette: Option<Palette>, colors: Colors, i: nat)
    requires HoldsPalette(archive, palette, colors)
    ensures Lookup(archive, palette, i) == Meaning(Index(i), colors)
  {
    hide Expand;
    if i < |colors| {
      assert PaletteEntry(archive, palette.value, colors[i], i);
      var s, at := colors[i], palette.value.colors + i * 2;
      assert U16(archive, at) == Some(Code(s));
      if palette.value.kind == 0 {
        ModUnique(Code(s), 256, s.opacity, s.light);
      } else {
        hide RGB565, RGB5A3;
        ColorIs(s);
        if s.Rgb4A3? {
          Four4443(s.r4, s.g4, s.b4, s.a3);
        }
      }
    }
  }

  lemma ReadNibble(archive: seq<Byte>, block: nat, format: nat, samples: seq<Sample>, i: nat)
    requires Known(format) && format != 14 && IsBlock(format, samples) && Holds(archive, block, format, samples)
    requires Bits(format) == 4 && i < |samples|
    ensures U8(archive, block + i / 2).Some?
    ensures var v := U8(archive, block + i / 2).value; Code(samples[i]) == if i % 2 == 1 then v % 16 else v / 16
  {
    hide Expand;
    var k := i / 2;
    assert IsOf(samples[2 * k], format) && IsOf(samples[2 * k + 1], format);
    assert archive[block + k] == PackedByte(format, samples, k);
    ModUnique(archive[block + k], 16, Code(samples[2 * k]), Code(samples[2 * k + 1]));
  }

  lemma ReadByte(archive: seq<Byte>, block: nat, format: nat, samples: seq<Sample>, i: nat)
    requires Known(format) && format != 14 && IsBlock(format, samples) && Holds(archive, block, format, samples)
    requires Bits(format) == 8 && i < |samples|
    ensures U8(archive, block + i) == Some(Code(samples[i])) && IsOf(samples[i], format)
  {
    assert archive[block + i] == PackedByte(format, samples, i);
  }

  lemma HalfBytes(archive: seq<Byte>, block: nat, format: nat, samples: seq<Sample>, i: nat)
    requires Known(format) && format != 14 && IsBlock(format, samples) && Holds(archive, block, format, samples)
    requires Bits(format) == 16 && i < |samples|
    ensures block + 2 * i + 1 < |archive| && IsOf(samples[i], format)
    ensures archive[block + 2 * i] == Code(samples[i]) / 256 && archive[block + 2 * i + 1] == Code(samples[i]) % 256
  {
    hide Code, IsOf;
    assert IsOf(samples[i], format);
    NibblesOf(0, i);
    assert archive[block + 2 * i] == PackedByte(format, samples, 2 * i);
    assert archive[block + (2 * i + 1)] == PackedByte(format, samples, 2 * i + 1);
  }

  lemma ReadHalf(archive: seq<Byte>, block: nat, format: nat, samples: seq<Sample>, i: nat)
    requires Known(format) && format != 14 && IsBlock(format, samples) && Holds(archive, block, format, samples)
    requires Bits(format) == 16 && i < |samples|
    ensures U16(archive, block + 2 * i) == Some(Code(samples[i])) && IsOf(samples[i], format)
  {
    hide Code, IsOf, Holds;
    HalfBytes(archive, block, format, samples, i);
  }

  lemma PlaneByte(archive: seq<Byte>, block: nat, samples: seq<Sample>, k: nat, i: nat)
    requires IsBlock(6, samples) && Holds(archive, block, 6, samples) && i < 16
    requires k == 2 * i || k == 2 * i + 1 || k == 32 + 2 * i || k == 33 + 2 * i
    ensures IsOf(samples[i], 6) && block + k < |archive|
    ensures archive[block + k] ==
      if k == 2 * i then samples[i].a8 else if k == 2 * i + 1 then samples[i].r8
      else if k == 32 + 2 * i then samples[i].g8 else samples[i].b8
  {
    assert k % 32 / 2 == i;
    assert archive[block + k] == PackedByte(6, samples, k);
  }

  lemma ReadPlanes(archive: seq<Byte>, block: nat, format: nat, samples: seq<Sample>, i: nat)
    requires format == 6 && IsBlock(format, samples) && Holds(archive, block, format, samples)
    requires i < |samples|
    ensures IsOf(samples[i], format)
    ensures U16(archive, block + 2 * i) == Some(samples[i].a8 * 256 + samples[i].r8)
    ensures U16(archive, block + 32 + 2 * i) == Some(samples[i].g8 * 256 + samples[i].b8)
  {
    hide Holds, PackedByte;
    PlaneByte(archive, block, samples, 2 * i, i);
    PlaneByte(archive, block, samples, 2 * i + 1, i);
    PlaneByte(archive, block, samples, 32 + 2 * i, i);
    PlaneByte(archive, block, samples, 33 + 2 * i, i);
  }

  lemma TwoBytes(high: Byte, low: Byte)
    ensures Pair(high, low) == high * 256 + low && Pair(high, low) / 256 == high && Pair(high, low) % 256 == low
  {
    ModUnique(high * 256 + low, 256, high, low);
  }

  lemma NibbleReads(archive: seq<Byte>, image: Image, block: nat, samples: seq<Sample>, colors: Colors, i: nat)
    requires (image.format == 0 || image.format == 8) && IsBlock(image.format, samples) && i < |samples|
    requires Holds(archive, block, image.format, samples)
    requires image.format == 8 ==> HoldsPalette(archive, image.palette, colors)
    ensures Texel(archive, image, block, i) == Meaning(samples[i], colors)
  {
    hide Expand, RGB565, RGB5A3, Lookup, Holds, HoldsPalette, U8, U16, Texel14;
    assert IsOf(samples[i], image.format);
    ReadNibble(archive, block, image.format, samples, i);
    if image.format == 8 {
      PaletteReads(archive, image.palette, colors, samples[i].entry);
    }
  }

  lemma ByteReads(archive: seq<Byte>, image: Image, block: nat, samples: seq<Sample>, colors: Colors, i: nat)
    requires (image.format == 1 || image.format == 2 || image.format == 9)
    requires IsBlock(image.format, samples) && i < |samples| && Holds(archive, block, image.format, samples)
    requires image.format == 9 ==> HoldsPalette(archive, image.palette, colors)
    ensures Texel(archive, image, block, i) == Meaning(samples[i], colors)
  {
    hide Expand, RGB565, RGB5A3, Lookup, Holds, HoldsPalette, U8, U16, Texel14;
    ReadByte(archive, block, image.format, samples, i);
    if image.format == 2 {
      ModUnique(Code(samples[i]), 16, samples[i].alpha, samples[i].grey);
    } else if image.format == 9 {
      PaletteReads(archive, image.palette, colors, samples[i].entry);
    }
  }

  lemma HalfReads(archive: seq<Byte>, image: Image, block: nat, samples: seq<Sample>, colors: Colors, i: nat)
    requires 3 <= image.format <= 5 || image.format == 10
    requires IsBlock(image.format, samples) && i < |samples| && Holds(archive, block, image.format, samples)
    requires image.format == 10 ==> HoldsPalette(archive, image.palette, colors)
    ensures Texel(archive, image, block, i) == Meaning(samples[i], colors)
  {
    hide Expand, RGB565, RGB5A3, Lookup, Holds, HoldsPalette, U8, U16, Texel14;
    var s := samples[i];
    ReadHalf(archive, block, image.format, samples, i);
    if image.format == 3 {
      TwoBytes(s.opacity, s.light);
    } else if image.format == 4 {
      Is565(s.r, s.g, s.b);
    } else if image.format == 5 {
      if s.Rgb5? {
        Is555(s.red, s.green, s.blue);
      } else {
        Is4443(s.r4, s.g4, s.b4, s.a3);
      }
    } else {
      PaletteReads(archive, image.palette, colors, s.entry);
      ModUnique(s.entry, 0x4000, 0, s.entry);
    }
  }

  lemma PlanesRead(archive: seq<Byte>, image: Image, block: nat, samples: seq<Sample>, colors: Colors, i: nat)
    requires image.format == 6 && IsBlock(image.format, samples) && i < |samples|
    requires Holds(archive, block, image.format, samples)
    ensures Texel(archive, image, block, i) == Meaning(samples[i], colors)
  {
    hide Expand, RGB565, RGB5A3, Lookup, Holds, U8, U16, Texel14, Pair;
    ReadPlanes(archive, block, image.format, samples, i);
    TwoBytes(samples[i].a8, samples[i].r8);
    TwoBytes(samples[i].g8, samples[i].b8);
  }

  /** A texel of a block is read back as what it stands for: nibble order, byte order and channels are as packed. */
  lemma TexelReads(archive: seq<Byte>, image: Image, block: nat, samples: seq<Sample>, colors: Colors, i: nat)
    requires Known(image.format) && image.format != 14 && IsBlock(image.format, samples) && i < |samples|
    requires Holds(archive, block, image.format, samples)
    requires 8 <= image.format <= 10 ==> HoldsPalette(archive, image.palette, colors)
    ensures Texel(archive, image, block, i) == Meaning(samples[i], colors)
  {
    hide Texel, Meaning, Holds, HoldsPalette, IsOf;
    var f := image.format;
    if f == 0 || f == 8 {
      NibbleReads(archive, image, block, samples, colors, i);
    } else if f == 1 || f == 2 || f == 9 {
      ByteReads(archive, image, block, samples, colors, i);
    } else if f == 6 {
      PlanesRead(archive, image, block, samples, colors, i);
    } else {
      HalfReads(archive, image, block, samples, colors, i);
    }
  }

  // ---- every block is some block ----

  function Pair(high: Byte, low: Byte): Half {
    high as int * 256 + low as int
  }

  /** The number of texel `i`, put together from the bytes of a block. */
  function CodeAt(format: nat, bytes: seq<Byte>, i: nat): nat
    requires Known(format) && format != 14 && |bytes| == BlockBytes(format)
    requires i < BlockWidth(format) * BlockHeight(format)
  {
    if Bits(format) == 4 then (if i % 2 == 0 then bytes[i / 2] / 16 else bytes[i / 2] % 16)
    else if Bits(format) == 8 then bytes[i]
    else if Bits(format) == 16 then Pair(bytes[2 * i], bytes[2 * i + 1])
    else Pair(bytes[2 * i], bytes[2 * i + 1]) * 0x1_0000 + Pair(bytes[32 + 2 * i], bytes[33 + 2 * i])
  }

  lemma CodeFits(format: nat, bytes: seq<Byte>, i: nat)
    requires Known(format) && format != 14 && format != 10 && |bytes| == BlockBytes(format)
    requires i < BlockWidth(format) * BlockHeight(format)
    ensures CodeAt(format, bytes, i) < Codes(format)
  {}

  lemma {:induction false} SomeBlock(format: nat, bytes: seq<Byte>, n: nat) returns (samples: seq<Sample>)
    requires Known(format) && format != 14 && format != 10 && |bytes| == BlockBytes(format)
    requires n <= BlockWidth(format) * BlockHeight(format)
    ensures |samples| == n
    ensures forall i :: 0 <= i < n ==> IsOf(samples[i], format) && Code(samples[i]) == CodeAt(format, bytes, i)
  {
    hide IsOf, Code, CodeAt;
    if n == 0 {
      samples := [];
    } else {
      var front := SomeBlock(format, bytes, n - 1);
      CodeFits(format, bytes, n - 1);
      var last := EverySample(format, CodeAt(format, bytes, n - 1));
      samples := front + [last];
    }
  }

  lemma ByteOfCode(format: nat, bytes: seq<Byte>, samples: seq<Sample>, k: nat)
    requires Known(format) && format != 14 && format != 10 && |bytes| == BlockBytes(format) && IsBlock(format, samples)
    requires forall i :: 0 <= i < |samples| ==> Code(samples[i]) == CodeAt(format, bytes, i)
    requires k < BlockBytes(format)
    ensures PackedByte(format, samples, k) == bytes[k]
  {
    hide Code;
    if Bits(format) == 4 {
      NibblesOf(bytes[k], k);
    } else if Bits(format) == 16 {
      TwoBytes(bytes[2 * (k / 2)], bytes[2 * (k / 2) + 1]);
    } else if Bits(format) == 32 {
      var i := k % 32 / 2;
      assert IsOf(samples[i], format);
      ArgbBytes(samples[i], bytes[2 * i], bytes[2 * i + 1], bytes[32 + 2 * i], bytes[33 + 2 * i]);
    }
  }

  lemma NibblesOf(b: Byte, k: nat)
    ensures b == b / 16 * 16 + b % 16
    ensures 2 * k / 2 == k && (2 * k + 1) / 2 == k && 2 * k % 2 == 0 && (2 * k + 1) % 2 == 1
  {}

  lemma ArgbBytes(s: Sample, a: Byte, r: Byte, g: Byte, b: Byte)
    requires IsOf(s, 6) && Code(s) == Pair(a, r) * 0x1_0000 + Pair(g, b)
    ensures s == Argb(a, r, g, b)
  {
    ModUnique(Code(s), 0x1_0000, Pair(a, r), Pair(g, b));
    ModUnique(Code(s), 0x1_0000, Pair(s.a8, s.r8), Pair(s.g8, s.b8));
    TwoBytes(a, r);
    TwoBytes(g, b);
    TwoBytes(s.a8, s.r8);
    TwoBytes(s.g8, s.b8);
  }

  /**
    The texels of a block read all its bytes, different texels different bits: every content a block can have is the
    packing of some texels. (Format 10 leaves two bits of each texel unread.)
  */
  lemma EveryBlockIsPacked(format: nat, bytes: seq<Byte>) returns (samples: seq<Sample>)
    requires Known(format) && format != 14 && format != 10 && |bytes| == BlockBytes(format)
    ensures IsBlock(format, samples)
    ensures forall k :: 0 <= k < |bytes| ==> PackedByte(format, samples, k) == bytes[k]
  {
    hide IsOf, Code, CodeAt, PackedByte;
    samples := SomeBlock(format, bytes, BlockWidth(format) * BlockHeight(format));
    forall k | 0 <= k < |bytes|
      ensures PackedByte(format, samples, k) == bytes[k]
    {
      ByteOfCode(format, bytes, samples, k);
    }
  }

  // ---- compressed blocks ----

  type Two = x: int | 0 <= x < 4

  /** A compressed quarter: two colours and 16 codes of two bits, along its rows. */
  datatype Quarter = Quarter(first: Half, second: Half, codes: seq<Two>)

  predicate QuartersOk(quarters: seq<Quarter>) {
    |quarters| == 4 && forall q :: 0 <= q < 4 ==> |quarters[q].codes| == 16
  }

  function QuarterByte(q: Quarter, k: nat): Byte
    requires |q.codes| == 16 && k < 8
  {
    if k == 0 then q.first / 256
    else if k == 1 then q.first % 256
    else if k == 2 then q.second / 256
    else if k == 3 then q.second % 256
    else
      var y := 4 * (k - 4);
      q.codes[y] as int * 64 + q.codes[y + 1] as int * 16 + q.codes[y + 2] as int * 4 + q.codes[y + 3] as int
  }

  /** The quarters follow each other, upper left, upper right, lower left, lower right. */
  ghost predicate HoldsQuarters(archive: seq<Byte>, block: nat, quarters: seq<Quarter>)
    requires QuartersOk(quarters)
  {
    && block + 32 <= |archive|
    && forall q, k :: 0 <= q < 4 && 0 <= k < 8 ==> archive[block + 8 * q + k] == QuarterByte(quarters[q], k)
  }

  lemma CodeOfRow(row: Byte, c0: Two, c1: Two, c2: Two, c3: Two)
    requires row == c0 * 64 + c1 * 16 + c2 * 4 + c3
    ensures Texture.Code(row, 0) == c0 && Texture.Code(row, 1) == c1 && Texture.Code(row, 2) == c2
      && Texture.Code(row, 3) == c3
  {
    ModUnique(row, 64, c0, c1 * 16 + c2 * 4 + c3);
    ModUnique(row, 16, c0 * 4 + c1, c2 * 4 + c3);
    ModUnique(c0 * 4 + c1, 4, c0, c1);
    ModUnique(row, 4, c0 * 16 + c1 * 4 + c2, c3);
    ModUnique(c0 * 16 + c1 * 4 + c2, 4, c0 * 4 + c1, c2);
  }

  lemma ReadQuarter(archive: seq<Byte>, block: nat, quarters: seq<Quarter>, q: nat, y: nat)
    requires QuartersOk(quarters) && HoldsQuarters(archive, block, quarters) && q < 4 && y < 4
    ensures U16(archive, block + 8 * q) == Some(quarters[q].first)
    ensures U16(archive, block + 8 * q + 2) == Some(quarters[q].second)
    ensures U8(archive, block + 8 * q + 4 + y) == Some(QuarterByte(quarters[q], 4 + y))
  {
    var at := block + 8 * q;
    assert archive[block + 8 * q + 0] == QuarterByte(quarters[q], 0);
    assert archive[block + 8 * q + 1] == QuarterByte(quarters[q], 1);
    assert archive[block + 8 * q + 2] == QuarterByte(quarters[q], 2);
    assert archive[block + 8 * q + 3] == QuarterByte(quarters[q], 3);
    assert archive[block + 8 * q + (4 + y)] == QuarterByte(quarters[q], 4 + y);
  }

  /** Texel (x, y) of a compressed block has the colour of its own code in its own quarter. */
  lemma CompressedReads(archive: seq<Byte>, block: nat, quarters: seq<Quarter>, x: nat, y: nat)
    requires QuartersOk(quarters) && HoldsQuarters(archive, block, quarters) && x < 8 && y < 8
    ensures var q := quarters[y / 4 * 2 + x / 4];
      Texel14(archive, block, x, y) == Some(BlockColor(q.first, q.second, q.codes[y % 4 * 4 + x % 4]))
  {
    hide HoldsQuarters, BlockColor, U8, U16, Texture.Code;
    var n, row := y / 4 * 2 + x / 4, y % 4;
    var q := quarters[n];
    ReadQuarter(archive, block, quarters, n, row);
    var c := 4 * row;
    CodeOfRow(QuarterByte(q, 4 + row), q.codes[c], q.codes[c + 1], q.codes[c + 2], q.codes[c + 3]);
  }

  function RowCodes(row: Byte): (codes: seq<Two>)
    ensures |codes| == 4
  {
    [Texture.Code(row, 0), Texture.Code(row, 1), Texture.Code(row, 2), Texture.Code(row, 3)]
  }

  /** Any 8 bytes are some quarter. */
  lemma EveryQuarter(bytes: seq<Byte>) returns (q: Quarter)
    requires |bytes| == 8
    ensures |q.codes| == 16 && forall k :: 0 <= k < 8 ==> QuarterByte(q, k) == bytes[k]
  {
    hide Texture.Code;
    var codes := RowCodes(bytes[4]) + RowCodes(bytes[5]) + RowCodes(bytes[6]) + RowCodes(bytes[7]);
    q := Quarter(Pair(bytes[0], bytes[1]), Pair(bytes[2], bytes[3]), codes);
    TwoBytes(bytes[0], bytes[1]);
    TwoBytes(bytes[2], bytes[3]);
    RowParts(bytes[4]);
    RowParts(bytes[5]);
    RowParts(bytes[6]);
    RowParts(bytes[7]);
  }

  lemma RowParts(row: Byte)
    ensures var c := RowCodes(row); c[0] as int * 64 + c[1] as int * 16 + c[2] as int * 4 + c[3] as int == row
  {
    var high, low := row / 16, row % 16;
    assert row == high * 16 + low && row / 64 == high / 4 && row / 4 % 4 == low / 4 && row % 4 == low % 4;
  }

  // ---- whole images ----

  /** The texel of the image at (x, y), when `tiles` gives each block its texels. */
  function TexelOf(format: nat, tiles: (nat, nat) -> seq<Sample>, x: nat, y: nat): Option<Sample> {
    var w := if Bits(format) <= 8 then 8 else 4;
    var h := if Bits(format) == 4 then 8 else 4;
    var block := tiles(y / h, x / w);
    var i := y % h * w + x % w;
    if i < |block| then Some(block[i]) else None
  }

  /** Every block of the image is in the archive, one row of blocks after the other. */
  ghost predicate HoldsImage(archive: seq<Byte>, image: Image, tiles: (nat, nat) -> seq<Sample>)
    requires Known(image.format) && image.format != 14
  {
    forall r: nat, c: nat ::
      r < Blocks(image.height, BlockHeight(image.format)) && c < Blocks(image.width, BlockWidth(image.format)) ==>
      IsBlock(image.format, tiles(r, c)) && Holds(archive, BlockStart(image, r, c), image.format, tiles(r, c))
  }

  /** A pixel of an image whose blocks are packed from texels is what its own texel stands for. */
  lemma TiledPixel(archive: seq<Byte>, image: Image, tiles: (nat, nat) -> seq<Sample>, colors: Colors, x: nat, y: nat)
    requires Known(image.format) && image.format != 14 && HoldsImage(archive, image, tiles)
    requires 8 <= image.format <= 10 ==> HoldsPalette(archive, image.palette, colors)
    requires x < image.width && y < image.height
    ensures TexelOf(image.format, tiles, x, y).Some?
    ensures PixelAt(archive, image, x, y) == Meaning(TexelOf(image.format, tiles, x, y).value, colors)
  {
    hide Holds, HoldsPalette, Texel, BlockStart;
    var (w, h) := (BlockWidth(image.format), BlockHeight(image.format));
    BlocksBound(w, x / w, image.width);
    BlocksBound(h, y / h, image.height);
    ShapeFollowsBits(image.format);
    var i := y % h * w + x % w;
    assert i < w * h;
    TexelReads(archive, image, BlockStart(image, y / h, x / w), tiles(y / h, x / w), colors, i);
  }
}
