/**
 * TexFileParser: the conversion between the game's .tex header and the
 * DirectXTex metadata, and the mip-level count a .tex stream supports.
 * The values of TexFile.Attribute, the pixel sizes of the DXGI formats and
 * the numeric codes of TexFile.TextureFormat belong to Lumina and OtterTex,
 * which are not part of this model's source; they are passed in.
 */
module TexFiles {
  import opened Wrappers

  /** The DXGI formats the conversion knows; the others are kept by their code. */
  datatype DxgiFormat =
    | UnknownDxgi | R8UNorm | A8UNorm | B4G4R4A4UNorm | B5G5R5A1UNorm | B8G8R8A8UNorm | B8G8R8X8UNorm
    | R32Float | R16G16Float | R32G32Float | R16G16B16A16Float | R32G32B32A32Float
    | BC1UNorm | BC2UNorm | BC3UNorm | BC5UNorm | BC7UNorm
    | R16G16B16A16Typeless | R24G8Typeless | R16Typeless
    | OtherDxgi(code: int)

  /** TexFile.TextureFormat, with the same convention. */
  datatype TextureFormat =
    | UnknownFormat | L8 | A8 | B4G4R4A4 | B5G5R5A1 | B8G8R8A8 | B8G8R8X8
    | R32F | R16G16F | R32G32F | R16G16B16A16F | R32G32B32A32F
    | BC1 | BC2 | BC3 | BC5 | BC7
    | D16 | D24S8 | Shadow16 | Shadow24
    | OtherFormat(code: int)

  /** ToTexFormat. */
  function ToTexFormat(f: DxgiFormat): TextureFormat
  {
    match f
    case R8UNorm => L8
    case A8UNorm => A8
    case B4G4R4A4UNorm => B4G4R4A4
    case B5G5R5A1UNorm => B5G5R5A1
    case B8G8R8A8UNorm => B8G8R8A8
    case B8G8R8X8UNorm => B8G8R8X8
    case R32Float => R32F
    case R16G16Float => R16G16F
    case R32G32Float => R32G32F
    case R16G16B16A16Float => R16G16B16A16F
    case R32G32B32A32Float => R32G32B32A32F
    case BC1UNorm => BC1
    case BC2UNorm => BC2
    case BC3UNorm => BC3
    case BC5UNorm => BC5
    case BC7UNorm => BC7
    case R16G16B16A16Typeless => D16
    case R24G8Typeless => D24S8
    case R16Typeless => Shadow16
    case _ => UnknownFormat
  }

  /** ToDXGI. */
  function ToDxgi(f: TextureFormat): DxgiFormat
  {
    match f
    case L8 => R8UNorm
    case A8 => A8UNorm
    case B4G4R4A4 => B4G4R4A4UNorm
    case B5G5R5A1 => B5G5R5A1UNorm
    case B8G8R8A8 => B8G8R8A8UNorm
    case B8G8R8X8 => B8G8R8X8UNorm
    case R32F => R32Float
    case R16G16F => R16G16Float
    case R32G32F => R32G32Float
    case R16G16B16A16F => R16G16B16A16Float
    case R32G32B32A32F => R32G32B32A32Float
    case BC1 => BC1UNorm
    case BC2 => BC2UNorm
    case BC3 => BC3UNorm
    case BC5 => BC5UNorm
    case BC7 => BC7UNorm
    case D16 => R16G16B16A16Typeless
    case D24S8 => R24G8Typeless
    case Shadow16 => R16Typeless
    case Shadow24 => R24G8Typeless
    case _ => UnknownDxgi
  }

  /** Every DXGI format ToTexFormat maps comes back from ToDXGI; the others map to Unknown. */
  lemma DxgiRoundTrip(f: DxgiFormat)
    ensures ToTexFormat(f) != UnknownFormat ==> ToDxgi(ToTexFormat(f)) == f
    ensures ToTexFormat(f) == UnknownFormat <==> f.UnknownDxgi? || f.OtherDxgi?
  {
  }

  /** Every texture format comes back from ToTexFormat except Shadow24, which comes back as D24S8, and the unknown ones. */
  lemma TextureFormatRoundTrip(f: TextureFormat)
    ensures f != Shadow24 && !f.OtherFormat? ==> ToTexFormat(ToDxgi(f)) == f
    ensures ToTexFormat(ToDxgi(Shadow24)) == D24S8
    ensures ToDxgi(f) == UnknownDxgi <==> f.UnknownFormat? || f.OtherFormat?
  {
  }

  /** The TexFile.Attribute values ToDimension and ToTexHeader use. */
  datatype AttributeBits = AttributeBits(type1D: bv32, type2D: bv32, type3D: bv32, typeCube: bv32, typeMask: bv32)
  {
    /** The four texture types are distinct, non-zero and inside TextureTypeMask. */
    predicate Consistent()
    {
      && type1D != 0 && type2D != 0 && type3D != 0 && typeCube != 0
      && type1D != type2D && type1D != type3D && type1D != typeCube
      && type2D != type3D && type2D != typeCube && type3D != typeCube
      && type1D & typeMask == type1D && type2D & typeMask == type2D
      && type3D & typeMask == type3D && typeCube & typeMask == typeCube
    }
  }

  datatype TexDimension = UnknownDimension | Tex1D | Tex2D | Tex3D

  /** ToDimension: the texture type bits of an attribute. */
  function ToDimension(bits: AttributeBits, attribute: bv32): (d: TexDimension)
  {
    var t := attribute & bits.typeMask;
    if t == bits.type1D then Tex1D
    else if t == bits.type2D then Tex2D
    else if t == bits.type3D then Tex3D
    else UnknownDimension
  }

  /** ToDimension recognises each of the three plain texture types. */
  lemma ToDimensionOf1D(bits: AttributeBits)
    requires bits.Consistent()
    ensures ToDimension(bits, bits.type1D) == Tex1D
  {
  }

  lemma ToDimensionOf2D(bits: AttributeBits)
    requires bits.Consistent()
    ensures ToDimension(bits, bits.type2D) == Tex2D
  {
  }

  lemma ToDimensionOf3D(bits: AttributeBits)
    requires bits.Consistent()
    ensures ToDimension(bits, bits.type3D) == Tex3D
  {
  }

  /** A cube type alone, or no type at all, has no dimension. */
  lemma ToDimensionOfCube(bits: AttributeBits)
    requires bits.Consistent()
    ensures ToDimension(bits, bits.typeCube) == UnknownDimension
    ensures ToDimension(bits, 0) == UnknownDimension
  {
  }

  /** TexMeta, as far as the conversion fills it; sizes are taken as non-negative. */
  datatype TexMeta = TexMeta(
    width: nat, height: nat, depth: nat, arraySize: nat, mipLevels: nat,
    cubeFlag: bool, format: DxgiFormat, dimension: TexDimension)

  /** TexFile.TexHeader: three LOD offsets and thirteen surface offsets. */
  datatype TexHeader = TexHeader(
    attribute: bv32, format: TextureFormat, width: nat, height: nat, depth: nat, mipLevels: nat,
    lodOffsets: seq<int>, offsets: seq<int>)

  /** ToTexMeta. */
  function ToTexMeta(bits: AttributeBits, h: TexHeader): (m: TexMeta)
    ensures m.depth >= 1 && m.arraySize == 1
    ensures m.cubeFlag <==> h.attribute & bits.typeCube == bits.typeCube
    ensures m.width == h.width && m.height == h.height && m.mipLevels == h.mipLevels
    ensures m.format == ToDxgi(h.format) && m.dimension == ToDimension(bits, h.attribute)
    ensures h.depth >= 1 ==> m.depth == h.depth
  {
    TexMeta(h.width, h.height, if h.depth > 1 then h.depth else 1, 1, h.mipLevels,
            h.attribute & bits.typeCube == bits.typeCube, ToDxgi(h.format), ToDimension(bits, h.attribute))
  }

  /** The attribute ToTexHeader writes: the cube type for a cube map, otherwise the dimension's type, or 0. */
  function TypeOf(bits: AttributeBits, meta: TexMeta): bv32
  {
    if meta.cubeFlag then bits.typeCube
    else match meta.dimension
      case Tex1D => bits.type1D
      case Tex2D => bits.type2D
      case Tex3D => bits.type3D
      case UnknownDimension => 0
  }

  /**
   * The header's type gives back the dimension of a plain texture, and the
   * cube flag of a cube map; a cube map's header has no dimension of its own.
   */
  lemma TypeOfRoundTrip(bits: AttributeBits, meta: TexMeta)
    requires bits.Consistent()
    ensures !meta.cubeFlag ==> ToDimension(bits, TypeOf(bits, meta)) == meta.dimension
    ensures meta.cubeFlag ==> TypeOf(bits, meta) & bits.typeCube == bits.typeCube
                              && ToDimension(bits, TypeOf(bits, meta)) == UnknownDimension
  {
    if meta.cubeFlag {
      ToDimensionOfCube(bits);
    } else {
      match meta.dimension
      case Tex1D => ToDimensionOf1D(bits);
      case Tex2D => ToDimensionOf2D(bits);
      case Tex3D => ToDimensionOf3D(bits);
      case UnknownDimension => ToDimensionOfCube(bits);
    }
  }

  const U16Range := 0x1_0000
  const U32Range := 0x1_0000_0000

  /** The bytes of the base surface: bits per pixel times width times height, over 8. */
  function BaseSize(bitsPerPixel: nat, meta: TexMeta): nat
  {
    bitsPerPixel * meta.width * meta.height / 8
  }

  /** The size after i shifts right by two. */
  function Shifted(size: nat, i: nat): nat
  {
    if i == 0 then size else Shifted(size, i - 1) / 4
  }

  function Min(a: int, b: int): int { if a < b then a else b }

  /** The offset of surface j when each surface follows the previous one, truncated to a u32. */
  function SurfaceOffset(baseSize: nat, j: nat): int
  {
    if j == 0 then 80 else (SurfaceOffset(baseSize, j - 1) + Shifted(baseSize, j - 1)) % U32Range
  }

  /**
   * The offset loop and the zeroing loop of ToTexHeader, corrected: surface
   * j follows surface j - 1, and the loop runs up to the clamped mip-level
   * count `limit`. The count is cut at the first level whose shifted size
   * is 0; every offset from the count on is 0.
   */
  method FillOffsets(offsets: array<int>, baseSize: nat, limit: nat) returns (mip: nat)
    requires offsets.Length == 13 && limit <= 12
    modifies offsets
    ensures mip <= limit
    ensures forall j :: 1 <= j < mip ==> Shifted(baseSize, j) != 0
    ensures mip < limit ==> 1 <= mip && Shifted(baseSize, mip) == 0
    ensures forall j :: 0 <= j < mip ==> offsets[j] == SurfaceOffset(baseSize, j)
    ensures forall j :: mip <= j < 13 ==> offsets[j] == 0
  {
    offsets[0] := 80;
    mip := limit;
    var size := baseSize;
    var i := 1;
    while i < limit
      invariant 1 <= i && (limit >= 1 ==> i <= limit) && mip == limit
      invariant size == Shifted(baseSize, i - 1)
      invariant forall j :: 1 <= j < i ==> Shifted(baseSize, j) != 0
      invariant forall j :: 0 <= j < i ==> offsets[j] == SurfaceOffset(baseSize, j)
    {
      offsets[i] := (offsets[i - 1] + size) % U32Range;
      size := size / 4;
      if size == 0 {
        mip := i;
        break;
      }
      i := i + 1;
    }
    for j := mip to 13
      invariant forall k :: 0 <= k < mip ==> offsets[k] == SurfaceOffset(baseSize, k)
      invariant forall k :: mip <= k < j ==> offsets[k] == 0
    {
      offsets[j] := 0;
    }
  }

  /**
   * ToTexHeader, with the two corrections listed in the findings: each
   * surface offset follows the previous surface, and the offset loop stops
   * at the clamped mip-level count, so it stays inside the 13 surfaces.
   * Without a cut, MipLevels is the requested count clamped to 12; the
   * first level whose shifted size is 0 cuts it. OffsetToSurface[0] is 80
   * unless MipLevels is 0, and every offset from MipLevels on is 0.
   */
  method ToTexHeader(bits: AttributeBits, bitsPerPixel: nat, meta: TexMeta) returns (h: TexHeader)
    ensures h.width == meta.width % U16Range && h.height == meta.height % U16Range
    ensures h.depth == (if meta.depth > 1 then meta.depth else 1) % U16Range
    ensures h.format == ToTexFormat(meta.format) && h.attribute == TypeOf(bits, meta)
    ensures h.lodOffsets == [0, 1, 2] && |h.offsets| == 13
    ensures h.mipLevels <= Min(meta.mipLevels, 12)
    ensures forall j :: 1 <= j < h.mipLevels ==> Shifted(BaseSize(bitsPerPixel, meta), j) != 0
    ensures h.mipLevels < Min(meta.mipLevels, 12) ==> 1 <= h.mipLevels && Shifted(BaseSize(bitsPerPixel, meta), h.mipLevels) == 0
    ensures h.mipLevels > 0 ==> h.offsets[0] == 80
    ensures forall j :: 1 <= j < h.mipLevels ==>
              h.offsets[j] == (h.offsets[j - 1] + Shifted(BaseSize(bitsPerPixel, meta), j - 1)) % U32Range
    ensures forall j :: h.mipLevels <= j < 13 ==> h.offsets[j] == 0
  {
    var offsets := new int[13](_ => 0);
    var mip := FillOffsets(offsets, BaseSize(bitsPerPixel, meta), Min(meta.mipLevels, 12));
    h := TexHeader(TypeOf(bits, meta), ToTexFormat(meta.format), meta.width % U16Range, meta.height % U16Range,
                   (if meta.depth > 1 then meta.depth else 1) % U16Range, mip, [0, 1, 2], offsets[..]);
  }

  /**
   * The offset loop of ToTexHeader as written: it runs up to the requested
   * mip-level count, logs every (index, value) it writes, whether or not the
   * index lies inside the 13 surfaces, and writes 80 plus the shifted size.
   */
  function AsWrittenLoop(size: nat, i: nat, mipLevels: nat, log: seq<(int, int)>, mip: int): (r: (seq<(int, int)>, int))
    ensures log <= r.0
    decreases mipLevels - i
  {
    if i >= mipLevels then (log, mip)
    else
      var written := log + [(i, (80 + size) % U32Range)];
      if size / 4 == 0 then (written, i) else AsWrittenLoop(size / 4, i + 1, mipLevels, written, mip)
  }

  /** The surfaces after the logged writes that land inside them. */
  function Replay(surfaces: seq<int>, log: seq<(int, int)>): (r: seq<int>)
    ensures |r| == |surfaces|
    decreases |log|
  {
    if |log| == 0 then surfaces
    else
      var k := log[0].0;
      Replay(if 0 <= k < |surfaces| then surfaces[k := log[0].1] else surfaces, log[1..])
  }

  /** ToTexHeader's offsets as written, its mip-level count, and the log of its writes. */
  function AsWrittenOffsets(baseSize: nat, mipLevels: nat): (r: (seq<int>, int, seq<(int, int)>))
    ensures |r.0| == 13
  {
    var (log, mip) := AsWrittenLoop(baseSize, 1, mipLevels, [(0, 80)], Min(mipLevels, 12));
    var surfaces := Replay(seq(13, _ => 0), log);
    (seq(13, k requires 0 <= k < 13 => if k >= mip then 0 else surfaces[k]), mip, log)
  }

  predicate Writes(log: seq<(int, int)>, k: int)
  {
    exists j :: 0 <= j < |log| && log[j].0 == k
  }

  function Pow4(n: nat): (p: nat)
    ensures p >= 1
  {
    if n == 0 then 1 else 4 * Pow4(n - 1)
  }

  /** The loop as written reaches every index up to k when the size lasts that many shifts. */
  lemma {:induction false} AsWrittenLoopWrites(size: nat, i: nat, mipLevels: nat, log: seq<(int, int)>, mip: int, k: nat)
    requires i <= k < mipLevels && size >= Pow4(k - i)
    ensures Writes(AsWrittenLoop(size, i, mipLevels, log, mip).0, k)
    decreases k - i
  {
    var written := log + [(i, (80 + size) % U32Range)];
    var r := AsWrittenLoop(size, i, mipLevels, log, mip).0;
    if i == k {
      assert written <= r;
      assert r[|log|].0 == k;
    } else {
      assert size / 4 >= Pow4(k - (i + 1));
      AsWrittenLoopWrites(size / 4, i + 1, mipLevels, written, mip, k);
    }
  }

  /**
   * As written, an 8192 by 4096 texture of 32 bits per pixel with 14 mip
   * levels makes ToTexHeader write OffsetToSurface[13], past the thirteen
   * surfaces of the header. Its base size, 2^27 bytes, fits a C# int.
   */
  lemma AsWrittenOverrunsSurfaces()
    ensures 32 * 8192 * 4096 < 0x8000_0000
    ensures Writes(AsWrittenOffsets(32 * 8192 * 4096 / 8, 14).2, 13)
  {
    assert Pow4(12) == 0x100_0000;
    AsWrittenLoopWrites(32 * 8192 * 4096 / 8, 1, 14, [(0, 80)], 12, 13);
  }

  /**
   * As written, the offsets of a 16 by 16, 32-bit texture with three mip
   * levels are 80, 1104 and 336, and a stream of 2000 bytes with that header
   * is read back with two mip levels; with the surfaces following each other
   * the third offset is 1360 and all three levels are read back.
   */
  lemma ExampleOffsets()
    ensures var meta := TexMeta(16, 16, 1, 1, 3, false, B8G8R8A8UNorm, Tex2D);
            var (written, mip, _) := AsWrittenOffsets(BaseSize(32, meta), 3);
            && mip == 3
            && written == [80, 1104, 336, 0, 0, 0, 0, 0, 0, 0, 0, 0, 0]
            && MipCount(written, 2000, 32, meta) == 2
            && [SurfaceOffset(BaseSize(32, meta), 0), SurfaceOffset(BaseSize(32, meta), 1), SurfaceOffset(BaseSize(32, meta), 2)]
               == [80, 1104, 1360]
            && MipCount([80, 1104, 1360, 0, 0, 0, 0, 0, 0, 0, 0, 0, 0], 2000, 32, meta) == 3
  {
    var meta := TexMeta(16, 16, 1, 1, 3, false, B8G8R8A8UNorm, Tex2D);
    assert BaseSize(32, meta) == 1024;
    var log1 := [(0, 80), (1, 1104)];
    var log2 := log1 + [(2, 336)];
    assert AsWrittenLoop(64, 3, 3, log2, 3) == (log2, 3);
    assert AsWrittenLoop(256, 2, 3, log1, 3) == (log2, 3);
    assert [(0, 80)] + [(1, (80 + 1024) % U32Range)] == log1;
    assert AsWrittenLoop(1024, 1, 3, [(0, 80)], 3) == (log2, 3);
    var zeros: seq<int> := seq(13, _ => 0);
    var expected := [80, 1104, 336, 0, 0, 0, 0, 0, 0, 0, 0, 0, 0];
    assert Replay(zeros, log2) == expected by {
      var z1 := zeros[0 := 80];
      var z2 := z1[1 := 1104];
      var z3 := z2[2 := 336];
      assert log2[1..] == [(1, 1104), (2, 336)];
      assert log2[1..][1..] == [(2, 336)];
      assert Replay(zeros, log2) == Replay(z1, log2[1..]);
      assert Replay(z1, log2[1..]) == Replay(z2, log2[1..][1..]);
      assert Replay(z2, log2[1..][1..]) == Replay(z3, []);
      assert z3 == expected;
    }
    var (written, mip, _) := AsWrittenOffsets(1024, 3);
    assert written == expected;
    assert LevelBytes(16, 16, 32) == 1024 && LevelBytes(8, 8, 32) == 256 && LevelBytes(4, 4, 32) == 64;
    assert MipCount(written, 2000, 32, meta) == 2 by {
      assert CountFrom(written, 2000, 32, 2, 4, 4, 1104, 256) == 2;
      assert CountFrom(written, 2000, 32, 1, 8, 8, 80, 1024) == 2;
    }
    var corrected := [80, 1104, 1360, 0, 0, 0, 0, 0, 0, 0, 0, 0, 0];
    assert MipCount(corrected, 2000, 32, meta) == 3 by {
      assert CountFrom(corrected, 2000, 32, 3, 4, 4, 1360, 64) == 3;
      assert CountFrom(corrected, 2000, 32, 2, 4, 4, 1104, 256) == 3;
      assert CountFrom(corrected, 2000, 32, 1, 8, 8, 80, 1024) == 3;
    }
    assert Shifted(1024, 1) == 256;
  }

  /** The bytes a level of the given width and height occupies. */
  function LevelBytes(width: nat, height: nat, bitsPerPixel: nat): nat
  {
    width * height * bitsPerPixel / 8
  }

  function Max4(x: nat): nat { if x > 4 then x else 4 }

  /**
   * CountMipLevels on values: the levels accepted from level i on, given the
   * current width and height and the previous offset and size.
   */
  function CountFrom(offsets: seq<int>, length: int, bitsPerPixel: nat, i: nat, width: nat, height: nat,
                     lastOffset: int, lastSize: int): (r: nat)
    requires |offsets| == 13 && i <= 13
    ensures i <= r <= 13
    decreases 13 - i
  {
    if i == 13 then 13
    else
      var offset := offsets[i];
      var required := LevelBytes(width, height, bitsPerPixel);
      if offset == 0 || offset + required > length || offset - lastOffset != lastSize then i
      else CountFrom(offsets, length, bitsPerPixel, i + 1, Max4(width / 2), Max4(height / 2), offset, required)
  }

  /** The count CountMipLevels returns. */
  function MipCount(offsets: seq<int>, length: int, bitsPerPixel: nat, meta: TexMeta): nat
    requires |offsets| == 13
  {
    CountFrom(offsets, length, bitsPerPixel, 0, meta.width, meta.height, 0, 80)
  }

  /** The width or height of mip level i: halved per level, never below 4. */
  function LevelExtent(extent: nat, i: nat): (e: nat)
    ensures i > 0 ==> e >= 4
  {
    if i == 0 then extent else Max4(LevelExtent(extent, i - 1) / 2)
  }

  function LevelSize(bitsPerPixel: nat, width: nat, height: nat, i: nat): nat
  {
    LevelBytes(LevelExtent(width, i), LevelExtent(height, i), bitsPerPixel)
  }

  /**
   * Level i is acceptable: its offset is set, its data fits in the stream,
   * and it starts where the previous level ends (the first level at 80).
   */
  predicate LevelFits(offsets: seq<int>, length: int, bitsPerPixel: nat, width: nat, height: nat, i: nat)
    requires |offsets| == 13 && i < 13
  {
    && offsets[i] != 0
    && offsets[i] + LevelSize(bitsPerPixel, width, height, i) <= length
    && offsets[i] == (if i == 0 then 80 else offsets[i - 1] + LevelSize(bitsPerPixel, width, height, i - 1))
  }

  /** From level i on, CountFrom accepts the levels that fit and stops at the first that does not. */
  lemma {:induction false} CountFromFits(offsets: seq<int>, length: int, bitsPerPixel: nat, width: nat, height: nat, i: nat)
    requires |offsets| == 13 && i <= 13
    requires forall j :: 0 <= j < i ==> LevelFits(offsets, length, bitsPerPixel, width, height, j)
    ensures var r := CountFrom(offsets, length, bitsPerPixel, i, LevelExtent(width, i), LevelExtent(height, i),
                               if i == 0 then 0 else offsets[i - 1],
                               if i == 0 then 80 else LevelSize(bitsPerPixel, width, height, i - 1));
            && (forall j :: 0 <= j < r ==> LevelFits(offsets, length, bitsPerPixel, width, height, j))
            && (r < 13 ==> !LevelFits(offsets, length, bitsPerPixel, width, height, r))
    decreases 13 - i
  {
    if i < 13 && LevelFits(offsets, length, bitsPerPixel, width, height, i) {
      CountFromFits(offsets, length, bitsPerPixel, width, height, i + 1);
    }
  }

  /**
   * CountMipLevels: the number of leading levels that fit, at most 13. It
   * stops at the first level whose offset is 0, whose data overruns the
   * stream, or which does not start where the previous one ends; the first
   * level must start at 80.
   */
  method CountMipLevels(offsets: seq<int>, length: int, bitsPerPixel: nat, meta: TexMeta) returns (count: nat)
    requires |offsets| == 13
    ensures count <= 13
    ensures forall j :: 0 <= j < count ==> LevelFits(offsets, length, bitsPerPixel, meta.width, meta.height, j)
    ensures count < 13 ==> !LevelFits(offsets, length, bitsPerPixel, meta.width, meta.height, count)
    ensures count == MipCount(offsets, length, bitsPerPixel, meta)
  {
    CountFromFits(offsets, length, bitsPerPixel, meta.width, meta.height, 0);
    var width, height := meta.width, meta.height;
    var lastOffset, lastSize := 0, 80;
    var i := 0;
    while i < 13
      invariant 0 <= i <= 13
      invariant CountFrom(offsets, length, bitsPerPixel, i, width, height, lastOffset, lastSize)
             == MipCount(offsets, length, bitsPerPixel, meta)
    {
      var offset := offsets[i];
      if offset == 0 {
        return i;
      }
      var required := LevelBytes(width, height, bitsPerPixel);
      if offset + required > length {
        return i;
      }
      if offset - lastOffset != lastSize {
        return i;
      }
      width, height := Max4(width / 2), Max4(height / 2);
      lastOffset, lastSize := offset, required;
      i := i + 1;
    }
    return 13;
  }

  /**
   * Parse up to the pixel data: an unknown DXGI format or an unknown
   * dimension throws; otherwise the metadata gets the mip-level count the
   * stream supports. `bitsPerPixel` is DXGIFormat.BitsPerPixel.
   */
  method Parse(bits: AttributeBits, bitsPerPixel: DxgiFormat -> nat, h: TexHeader, length: int) returns (r: Completion<TexMeta>)
    requires |h.offsets| == 13
    ensures r.Thrown? <==> ToDxgi(h.format) == UnknownDxgi || ToDimension(bits, h.attribute) == UnknownDimension
    ensures r.Returned? ==>
              var meta := ToTexMeta(bits, h);
              r.value == meta.(mipLevels := MipCount(h.offsets, length, bitsPerPixel(meta.format), meta))
  {
    var meta := ToTexMeta(bits, h);
    if meta.format == UnknownDxgi {
      return Thrown;
    }
    if meta.dimension == UnknownDimension {
      return Thrown;
    }
    var count := CountMipLevels(h.offsets, length, bitsPerPixel(meta.format), meta);
    return Returned(meta.(mipLevels := count));
  }

  function Pow256(n: nat): (p: nat)
    ensures p >= 1
  {
    if n == 0 then 1 else 256 * Pow256(n - 1)
  }

  /** The n little-endian bytes of a value below 256^n. */
  function LittleEndian(x: nat, n: nat): (r: seq<int>)
    ensures |r| == n
    ensures forall i :: 0 <= i < n ==> 0 <= r[i] < 256
  {
    if n == 0 then [] else [x % 256] + LittleEndian(x / 256, n - 1)
  }

  /** The value of little-endian bytes. */
  function ReadLittleEndian(s: seq<int>): int
  {
    if |s| == 0 then 0 else s[0] + 256 * ReadLittleEndian(s[1..])
  }

  lemma {:induction false} ReadLittleEndianOf(x: nat, n: nat)
    requires x < Pow256(n)
    ensures ReadLittleEndian(LittleEndian(x, n)) == x
  {
    if n > 0 {
      var q := x / 256;
      assert x == 256 * q + x % 256;
      assert q < Pow256(n - 1);
      ReadLittleEndianOf(q, n - 1);
      assert LittleEndian(x, n)[1..] == LittleEndian(q, n - 1);
    }
  }

  /** The u32 values of a sequence, four little-endian bytes each. */
  function Words(s: seq<int>): (r: seq<int>)
    ensures |r| == 4 * |s|
  {
    if |s| == 0 then [] else LittleEndian(s[0] % U32Range, 4) + Words(s[1..])
  }

  lemma {:induction false} WordsAt(s: seq<int>, i: nat)
    requires i < |s|
    ensures Words(s)[4 * i..4 * i + 4] == LittleEndian(s[i] % U32Range, 4)
  {
    if i > 0 {
      WordsAt(s[1..], i - 1);
      assert Words(s)[4 * i..4 * i + 4] == Words(s[1..])[4 * (i - 1)..4 * (i - 1) + 4];
    }
  }

  /** The first sixteen bytes: type and format as u32, then width, height, depth and mip levels as u16. */
  function Prefix(h: TexHeader, formatCode: TextureFormat -> nat): (bytes: seq<int>)
    ensures |bytes| == 16
  {
    LittleEndian(h.attribute as nat, 4) + LittleEndian(formatCode(h.format) % U32Range, 4)
    + LittleEndian(h.width % U16Range, 2) + LittleEndian(h.height % U16Range, 2)
    + LittleEndian(h.depth % U16Range, 2) + LittleEndian(h.mipLevels % U16Range, 2)
  }

  /**
   * Write: the bytes of the header in field order, the sixteen-byte prefix,
   * then the three LOD offsets and the thirteen surface offsets as u32.
   * `formatCode` is the numeric value of each TextureFormat.
   */
  function Write(h: TexHeader, formatCode: TextureFormat -> nat): (bytes: seq<int>)
    requires |h.lodOffsets| == 3 && |h.offsets| == 13
    ensures |bytes| == 80
  {
    Prefix(h, formatCode) + Words(h.lodOffsets) + Words(h.offsets)
  }

  /** The field of `size` bytes at `at`, read back. */
  function Field(bytes: seq<int>, at: nat, size: nat): int
    requires at + size <= |bytes|
  {
    ReadLittleEndian(bytes[at..at + size])
  }

  lemma PrefixLayout(h: TexHeader, formatCode: TextureFormat -> nat)
    ensures var b := Prefix(h, formatCode);
            && Field(b, 0, 4) == h.attribute as nat
            && Field(b, 4, 4) == formatCode(h.format) % U32Range
            && Field(b, 8, 2) == h.width % U16Range
            && Field(b, 10, 2) == h.height % U16Range
            && Field(b, 12, 2) == h.depth % U16Range
            && Field(b, 14, 2) == h.mipLevels % U16Range
  {
    var b := Prefix(h, formatCode);
    assert Pow256(2) == U16Range && Pow256(4) == U32Range;
    assert b[0..4] == LittleEndian(h.attribute as nat, 4);
    ReadLittleEndianOf(h.attribute as nat, 4);
    assert b[4..8] == LittleEndian(formatCode(h.format) % U32Range, 4);
    ReadLittleEndianOf(formatCode(h.format) % U32Range, 4);
    assert b[8..10] == LittleEndian(h.width % U16Range, 2);
    ReadLittleEndianOf(h.width % U16Range, 2);
    assert b[10..12] == LittleEndian(h.height % U16Range, 2);
    ReadLittleEndianOf(h.height % U16Range, 2);
    assert b[12..14] == LittleEndian(h.depth % U16Range, 2);
    ReadLittleEndianOf(h.depth % U16Range, 2);
    assert b[14..16] == LittleEndian(h.mipLevels % U16Range, 2);
    ReadLittleEndianOf(h.mipLevels % U16Range, 2);
  }

  lemma WordsLayout(s: seq<int>, i: nat)
    requires i < |s|
    ensures Field(Words(s), 4 * i, 4) == s[i] % U32Range
  {
    var x := s[i] % U32Range;
    assert Words(s)[4 * i..4 * i + 4] == LittleEndian(x, 4) by { WordsAt(s, i); }
    assert ReadLittleEndian(LittleEndian(x, 4)) == x by {
      assert Pow256(4) == U32Range;
      ReadLittleEndianOf(x, 4);
    }
  }

  /**
   * Every field of a written header reads back at its offset: the type at
   * 0, the format at 4, width, height, depth and mip levels at 8 to 14, the
   * LOD offsets from 16 and the surface offsets from 28, each truncated to
   * its width.
   */
  lemma WriteLayout(h: TexHeader, formatCode: TextureFormat -> nat)
    requires |h.lodOffsets| == 3 && |h.offsets| == 13
    ensures var b := Write(h, formatCode);
            && Field(b, 0, 4) == h.attribute as nat
            && Field(b, 4, 4) == formatCode(h.format) % U32Range
            && Field(b, 8, 2) == h.width % U16Range
            && Field(b, 10, 2) == h.height % U16Range
            && Field(b, 12, 2) == h.depth % U16Range
            && Field(b, 14, 2) == h.mipLevels % U16Range
            && (forall i :: 0 <= i < 3 ==> Field(b, 16 + 4 * i, 4) == h.lodOffsets[i] % U32Range)
            && (forall i :: 0 <= i < 13 ==> Field(b, 28 + 4 * i, 4) == h.offsets[i] % U32Range)
  {
    var b := Write(h, formatCode);
    var p := Prefix(h, formatCode);
    var lod := Words(h.lodOffsets);
    var off := Words(h.offsets);
    PrefixLayout(h, formatCode);
    assert b[..16] == p;
    assert b[0..4] == p[0..4] && b[4..8] == p[4..8] && b[8..10] == p[8..10];
    assert b[10..12] == p[10..12] && b[12..14] == p[12..14] && b[14..16] == p[14..16];
    forall i | 0 <= i < 3 ensures Field(b, 16 + 4 * i, 4) == h.lodOffsets[i] % U32Range {
      WordsLayout(h.lodOffsets, i);
      assert b[16 + 4 * i..16 + 4 * i + 4] == lod[4 * i..4 * i + 4];
    }
    forall i | 0 <= i < 13 ensures Field(b, 28 + 4 * i, 4) == h.offsets[i] % U32Range {
      WordsLayout(h.offsets, i);
      assert b[28 + 4 * i..28 + 4 * i + 4] == off[4 * i..4 * i + 4];
    }
  }
}
