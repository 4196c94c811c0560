/** RamBitmap of the memory replay sample (samples/csharp.memreplay/RamBitmap.cs):
    renders a RamMap as pixels, one pixel per ZoomLevel frames in raster
    order. A pixel of frames that were never written is white; otherwise its
    colour fades from the hot write colour to the cold colour as the
    average age (in accesses) of its written frames approaches FadeMax. */
module RamBitmapping {
  import opened Wrappers
  import opened Exceptions
  import opened Bytes
  import opened RamMapping
  import opened Arithmetic

  datatype Color = Color(r: byte, g: byte, b: byte)

  const White: Color := Color(0xFF, 0xFF, 0xFF)
  const ColdFrame: Color := Color(0xBB, 0xBB, 0xBB)
  const HotWriteFrame: Color := Color(0xE5, 0x14, 0x00)
  /** The colour a new surface is cleared to. */
  const Background: Color := Color(0x22, 0x22, 0x22)

  const FadeMax: nat := 0x4F_FFFF
  /** Frames per pixel: the constructor sets one and nothing changes it. */
  const ZoomLevel: nat := 1
  const Uint: nat := 0x1_0000_0000

  /** One colour channel of _blend: amount num/den of c and the rest of
      back. The value lies between the two channels. */
  function BlendChannel(c: byte, back: byte, num: nat, den: nat): (v: byte)
    requires 0 < den && num <= den
    ensures c <= back ==> c <= v <= back
    ensures back <= c ==> back <= v <= c
  {
    var x := c as nat * num + back as nat * (den - num);
    var lo := if c <= back then c as nat else back as nat;
    var hi := if c <= back then back as nat else c as nat;
    MulMono(num, lo, hi);
    MulMono(den - num, lo, hi);
    assert den * lo == num * lo + (den - num) * lo;
    assert den * hi == num * hi + (den - num) * hi;
    DivLower(x, den, lo);
    DivUpper(x, den, hi);
    (x / den) as byte
  }

  /** _blend with the weight num/den, channel by channel. */
  function Blend(color: Color, backColor: Color, num: nat, den: nat): Color
    requires 0 < den && num <= den
  {
    Color(BlendChannel(color.r, backColor.r, num, den),
          BlendChannel(color.g, backColor.g, num, den),
          BlendChannel(color.b, backColor.b, num, den))
  }

  /** Amount one gives the colour, amount zero the back colour. */
  lemma BlendEnds(color: Color, backColor: Color, den: nat)
    requires 0 < den
    ensures Blend(color, backColor, den, den) == color
    ensures Blend(color, backColor, 0, den) == backColor
  {
    forall c: byte, back: byte
      ensures BlendChannel(c, back, den, den) == c && BlendChannel(c, back, 0, den) == back
    {
      assert c as nat * den + back as nat * 0 == den * c as nat;
      DivLower(den * c as nat, den, c as nat);
      DivUpper(den * c as nat, den, c as nat);
      assert c as nat * 0 + back as nat * den == den * back as nat;
      DivLower(den * back as nat, den, back as nat);
      DivUpper(den * back as nat, den, back as nat);
    }
  }

  /** Every stamp lies at or before the access index, as RamMap keeps it. */
  ghost predicate StampsBelow(fs: seq<FrameMetadata>, index: nat)
  {
    forall j :: 0 <= j < |fs| ==> fs[j].lastWriteAccess <= index
  }

  /** The inner loop of _draw: the sum of the ages index - lastWriteAccess of
      the written frames, and their number. */
  function WriteStats(fs: seq<FrameMetadata>, index: nat): (s: (nat, nat))
    requires StampsBelow(fs, index)
    ensures s.1 <= |fs|
  {
    if |fs| == 0 then (0, 0)
    else
      var p := WriteStats(fs[..|fs| - 1], index);
      var lw := fs[|fs| - 1].lastWriteAccess;
      if lw > 0 then (p.0 + (index - lw), p.1 + 1) else p
  }

  /** No frame counts as written exactly when no frame was ever written. */
  lemma {:induction false} WriteStatsNone(fs: seq<FrameMetadata>, index: nat)
    requires StampsBelow(fs, index)
    ensures WriteStats(fs, index).1 == 0 <==> forall j :: 0 <= j < |fs| ==> fs[j].lastWriteAccess == 0
  {
    if |fs| > 0 {
      WriteStatsNone(fs[..|fs| - 1], index);
      assert forall j :: 0 <= j < |fs| - 1 ==> fs[..|fs| - 1][j] == fs[j];
    }
  }

  /** Frames all written by the latest access have the age sum zero. */
  lemma {:induction false} WriteStatsFresh(fs: seq<FrameMetadata>, index: nat)
    requires StampsBelow(fs, index)
    requires forall j :: 0 <= j < |fs| && fs[j].lastWriteAccess > 0 ==> fs[j].lastWriteAccess == index
    ensures WriteStats(fs, index).0 == 0
  {
    if |fs| > 0 {
      assert forall j :: 0 <= j < |fs| - 1 ==> fs[..|fs| - 1][j] == fs[j];
      WriteStatsFresh(fs[..|fs| - 1], index);
    }
  }

  /** Written frames all older than FadeMax accesses have an age sum above
      FadeMax per frame. */
  lemma {:induction false} WriteStatsOld(fs: seq<FrameMetadata>, index: nat)
    requires StampsBelow(fs, index)
    requires forall j :: 0 <= j < |fs| && fs[j].lastWriteAccess > 0 ==> index - fs[j].lastWriteAccess > FadeMax
    ensures var s := WriteStats(fs, index); s.0 >= s.1 * (FadeMax + 1)
  {
    if |fs| > 0 {
      assert forall j :: 0 <= j < |fs| - 1 ==> fs[..|fs| - 1][j] == fs[j];
      WriteStatsOld(fs[..|fs| - 1], index);
    }
  }

  /** The colour of a pixel from the age sum and count of its written
      frames: white without writes, otherwise the hot colour blended into
      the cold one with weight (FadeMax - average age) / FadeMax, and the
      cold colour once the average age exceeds FadeMax. */
  function ColorOf(s: (nat, nat)): Color
  {
    if s.1 == 0 then White
    else
      var w := FadeMax - s.0 / s.1;
      if w < 0 then ColdFrame else Blend(HotWriteFrame, ColdFrame, w, FadeMax)
  }

  /** The colour of the pixel of frames first .. first + ZoomLevel - 1. */
  function PixelColor(fs: seq<FrameMetadata>, index: nat, first: nat): Color
    requires first + ZoomLevel <= |fs| && StampsBelow(fs, index)
  {
    ColorOf(WriteStats(fs[first..first + ZoomLevel], index))
  }

  /** A pixel is white exactly when none of its frames was written. */
  lemma PixelWhite(fs: seq<FrameMetadata>, index: nat, first: nat)
    requires first + ZoomLevel <= |fs| && StampsBelow(fs, index)
    ensures PixelColor(fs, index, first) == White <==>
            forall j :: first <= j < first + ZoomLevel ==> fs[j].lastWriteAccess == 0
  {
    var w := fs[first..first + ZoomLevel];
    WriteStatsNone(w, index);
    assert forall j :: first <= j < first + ZoomLevel ==> w[j - first] == fs[j];
    if WriteStats(w, index).1 != 0 {
      var s := WriteStats(w, index);
      assert s.0 / s.1 >= 0;
      assert White != ColdFrame;
      if FadeMax - s.0 / s.1 >= 0 {
        assert Blend(HotWriteFrame, ColdFrame, FadeMax - s.0 / s.1, FadeMax).b <= 0xBB;
      }
    }
  }

  /** Frames written by the latest access show the hot colour. */
  lemma PixelHot(fs: seq<FrameMetadata>, index: nat, first: nat)
    requires first + ZoomLevel <= |fs| && StampsBelow(fs, index) && index > 0
    requires forall j :: first <= j < first + ZoomLevel ==> fs[j].lastWriteAccess == index
    ensures PixelColor(fs, index, first) == HotWriteFrame
  {
    var w := fs[first..first + ZoomLevel];
    assert forall j :: 0 <= j < |w| ==> w[j] == fs[first + j];
    WriteStatsFresh(w, index);
    WriteStatsNone(w, index);
    var s := WriteStats(w, index);
    assert w[0].lastWriteAccess == index;
    assert s.1 > 0 && s.0 == 0;
    assert s.0 / s.1 == 0;
    assert PixelColor(fs, index, first) == ColorOf(s);
    assert ColorOf(s) == Blend(HotWriteFrame, ColdFrame, FadeMax, FadeMax);
    BlendEnds(HotWriteFrame, ColdFrame, FadeMax);
  }

  /** Written frames whose average age exceeds FadeMax show the cold colour. */
  lemma PixelCold(fs: seq<FrameMetadata>, index: nat, first: nat)
    requires first + ZoomLevel <= |fs| && StampsBelow(fs, index)
    requires exists j :: first <= j < first + ZoomLevel && fs[j].lastWriteAccess > 0
    requires forall j :: first <= j < first + ZoomLevel && fs[j].lastWriteAccess > 0 ==>
               index - fs[j].lastWriteAccess > FadeMax
    ensures PixelColor(fs, index, first) == ColdFrame
  {
    var w := fs[first..first + ZoomLevel];
    assert forall j :: first <= j < first + ZoomLevel ==> w[j - first] == fs[j];
    WriteStatsNone(w, index);
    WriteStatsOld(w, index);
    var s := WriteStats(w, index);
    DivLower(s.0, s.1, FadeMax + 1);
  }

  /** One pixel of _draw at address addr: the frame index is the address
      shifted right by 12 and cast to uint; reading a frame past the table
      throws IndexOutOfRangeException. */
  function Pixel(fs: seq<FrameMetadata>, index: nat, addr: nat): Result<Color, Exception>
    requires StampsBelow(fs, index)
  {
    var first := addr / FrameSize % Uint;
    if first + ZoomLevel > |fs| then Err(IndexOutOfRange) else Ok(PixelColor(fs, index, first))
  }

  /** The pixels _draw writes from address addr on into n free places: it
      stops at the end of the RAM or of the surface. */
  function Pixels(fs: seq<FrameMetadata>, index: nat, addr: nat, size: nat, n: nat): (r: Result<seq<Color>, Exception>)
    requires StampsBelow(fs, index)
    ensures r.Ok? ==> |r.value| <= n
    decreases n
  {
    if addr >= size || n == 0 then Ok([])
    else
      match Pixel(fs, index, addr)
      case Err(e) => Err(e)
      case Ok(c) =>
        match Pixels(fs, index, addr + FrameSize * ZoomLevel, size, n - 1)
        case Err(e) => Err(e)
        case Ok(cs) => Ok([c] + cs)
  }

  function Prepend(ps: seq<Color>, r: Result<seq<Color>, Exception>): Result<seq<Color>, Exception>
  {
    match r
    case Err(e) => Err(e)
    case Ok(cs) => Ok(ps + cs)
  }

  lemma PrependNothing(ps: seq<Color>, r: Result<seq<Color>, Exception>)
    ensures ps == [] ==> Prepend(ps, r) == r
    ensures r == Ok([]) ==> Prepend([], Ok(ps)) == Prepend(ps, r)
  {
    if r.Ok? {
      assert [] + r.value == r.value;
      assert ps + [] == ps;
      assert [] + ps == ps;
    }
  }

  /** The pixels are those of the successive addresses in raster order, one
      pixel per ZoomLevel frames, and the drawing stops only at the end of
      the RAM or of the surface. */
  lemma {:induction false} PixelsRaster(fs: seq<FrameMetadata>, index: nat, addr: nat, size: nat, n: nat)
    requires StampsBelow(fs, index) && Pixels(fs, index, addr, size, n).Ok?
    ensures var ps := Pixels(fs, index, addr, size, n).value;
            |ps| <= n && (|ps| == n || addr + |ps| * FrameSize * ZoomLevel >= size) &&
            forall p :: 0 <= p < |ps| ==> Pixel(fs, index, addr + p * FrameSize * ZoomLevel) == Ok(ps[p])
    decreases n
  {
    if !(addr >= size || n == 0) {
      var next := addr + FrameSize * ZoomLevel;
      PixelsRaster(fs, index, next, size, n - 1);
      var ps := Pixels(fs, index, addr, size, n).value;
      var cs := Pixels(fs, index, next, size, n - 1).value;
      assert ps == [ps[0]] + cs;
      forall p | 0 < p < |ps|
        ensures Pixel(fs, index, addr + p * FrameSize * ZoomLevel) == Ok(ps[p])
      {
        assert addr + p * FrameSize * ZoomLevel == next + (p - 1) * FrameSize * ZoomLevel;
      }
    }
  }

  class RamBitmap {
    const ram: RamMap
    var width: int
    var height: int
    /** The first address shown. */
    var start: nat
    var hasSurface: bool
    var surface: array<Color>

    ghost predicate Valid()
      reads this, ram, ram.frames
    {
      ram.Valid() && (hasSurface ==> width > 0 && height > 0 && surface.Length == width * height)
    }

    /** A new bitmap of the map has no surface yet and starts at address 0. */
    constructor (ram: RamMap)
      requires ram.Valid()
      ensures Valid() && this.ram == ram && width == 0 && height == 0 && start == 0 && !hasSurface
    {
      this.ram := ram;
      width := 0;
      height := 0;
      start := 0;
      hasSurface := false;
      surface := new Color[0];
    }

    /** _draw: the pixel loop. Every pixel averages the write ages of its
        frames; the loop runs until the address passes the RAM size or the
        surface is full. Only the surface changes. */
    method Draw() returns (r: Result<(), Exception>)
      requires Valid() && hasSurface
      modifies surface
      ensures var p := Pixels(ram.frames[..], ram.index, start, ram.size, surface.Length);
              (r.Ok? <==> p.Ok?) && (p.Err? ==> r == Err(p.error)) &&
              (p.Ok? ==> surface[..|p.value|] == p.value &&
                         surface[|p.value|..] == old(surface[|p.value|..]))
    {
      ghost var fs := ram.frames[..];
      ghost var original := surface[..];
      ghost var target := Pixels(fs, ram.index, start, ram.size, surface.Length);
      var frames := ram.frames;
      var index := ram.index;
      var size := ram.size;
      var addr: nat := start;
      var px: nat := 0;
      var left: nat := surface.Length;
      ghost var drawn: seq<Color> := [];
      PrependNothing(drawn, target);
      while addr < size && left > 0
        invariant StampsBelow(fs, index) && fs == frames[..]
        invariant px + left == surface.Length && |drawn| == px && surface[..] == drawn + original[px..]
        invariant target == Prepend(drawn, Pixels(fs, index, addr, size, left))
        decreases left
      {
        var next := addr + FrameSize * ZoomLevel;
        var pixel := DrawPixel(frames, index, addr, px);
        PixelStep(fs, index, addr, next, size, left, left - 1, pixel, drawn, target);
        if pixel.Err? {
          return Err(pixel.error);
        }
        SpliceColor(drawn, original, pixel.value);
        drawn := drawn + [pixel.value];
        px := px + 1;
        left := left - 1;
        addr := next;
      }
      assert Pixels(fs, index, addr, size, left) == Ok([]);
      PrependNothing(drawn, Ok([]));
      assert surface[..px] == drawn && surface[px..] == original[px..];
      return Ok(());
    }

    /** One pass of the pixel loop: the pixel of addr, stored at place px. */
    method DrawPixel(frames: array<FrameMetadata>, index: nat, addr: nat, px: nat) returns (r: Result<Color, Exception>)
      requires px < surface.Length && StampsBelow(frames[..], index)
      modifies surface
      ensures r == Pixel(frames[..], index, addr)
      ensures r.Err? ==> surface[..] == old(surface[..])
      ensures r.Ok? ==> surface[..] == old(surface[..])[px := r.value]
    {
      var startFrame := addr / FrameSize % Uint;
      var stats := SumWrites(frames, startFrame, index);
      if stats.Err? {
        return Err(stats.error);
      }
      var color := ColorOf(stats.value);
      surface[px] := color;
      return Ok(color);
    }

    /** Refresh redraws the surface; without one, _draw dereferences null. */
    method Refresh() returns (r: Result<(), Exception>)
      requires Valid()
      modifies surface
      ensures !hasSurface ==> r == Err(NullReference)
      ensures hasSurface ==>
                var p := Pixels(ram.frames[..], ram.index, start, ram.size, surface.Length);
                (r.Ok? <==> p.Ok?) &&
                (p.Ok? ==> surface[..|p.value|] == p.value && surface[|p.value|..] == old(surface[|p.value|..]))
    {
      if !hasSurface {
        return Err(NullReference);
      }
      r := Draw();
    }

    /** SetBounds: a surface of the new size, cleared to the background
        colour and drawn; a non-positive width or height leaves none. */
    method SetBounds(w: int, h: int) returns (r: Result<(), Exception>)
      requires Valid()
      modifies this
      ensures Valid() && width == w && height == h && start == old(start)
      ensures w <= 0 || h <= 0 ==> !hasSurface && r == Ok(())
      ensures w > 0 && h > 0 ==>
                hasSurface && fresh(surface) &&
                var p := Pixels(ram.frames[..], ram.index, start, ram.size, w * h);
                (r.Ok? <==> p.Ok?) &&
                (p.Ok? ==> surface[..|p.value|] == p.value &&
                           forall k :: |p.value| <= k < surface.Length ==> surface[k] == Background)
    {
      width := w;
      height := h;
      if w <= 0 || h <= 0 {
        hasSurface := false;
        surface := new Color[0];
        return Ok(());
      }
      surface := new Color[w * h](_ => Background);
      hasSurface := true;
      r := Draw();
    }
  }

  /** The inner loop of _draw: the age sum and count of the written frames
      of the pixel that starts at frame startFrame; a frame past the table
      throws IndexOutOfRangeException. */
  method SumWrites(frames: array<FrameMetadata>, startFrame: nat, index: nat) returns (r: Result<(nat, nat), Exception>)
    requires StampsBelow(frames[..], index)
    ensures startFrame + ZoomLevel > frames.Length ==> r == Err(IndexOutOfRange)
    ensures startFrame + ZoomLevel <= frames.Length ==> r == Ok(WriteStats(frames[startFrame..startFrame + ZoomLevel], index))
  {
    var wdelta := 0;
    var wcount := 0;
    for i := 0 to ZoomLevel
      invariant i == 0 ==> wdelta == 0 && wcount == 0
      invariant i > 0 ==> startFrame + i <= frames.Length &&
                          (wdelta, wcount) == WriteStats(frames[startFrame..startFrame + i], index)
    {
      if startFrame + i >= frames.Length {
        return Err(IndexOutOfRange);
      }
      var lw := frames[startFrame + i].lastWriteAccess;
      assert frames[startFrame..startFrame + i + 1][..i] == frames[startFrame..startFrame + i];
      if lw > 0 {
        wdelta := wdelta + (index - lw);
        wcount := wcount + 1;
      }
    }
    return Ok((wdelta, wcount));
  }

  /** Drawing one more pixel extends the drawn prefix. */
  lemma SpliceColor(drawn: seq<Color>, original: seq<Color>, color: Color)
    requires |drawn| < |original|
    ensures (drawn + original[|drawn|..])[|drawn| := color] == (drawn + [color]) + original[|drawn| + 1..]
  {
  }

  /** One pass of the pixel loop appends the pixel of addr, or fails as the
      whole drawing does. */
  lemma PixelStep(fs: seq<FrameMetadata>, index: nat, addr: nat, next: nat, size: nat, n: nat, m: nat,
                  pixel: Result<Color, Exception>, done: seq<Color>, target: Result<seq<Color>, Exception>)
    requires StampsBelow(fs, index) && addr < size && n == m + 1 && next == addr + FrameSize * ZoomLevel
    requires pixel == Pixel(fs, index, addr) && target == Prepend(done, Pixels(fs, index, addr, size, n))
    ensures pixel.Err? ==> target == Err(pixel.error)
    ensures pixel.Ok? ==> target == Prepend(done + [pixel.value], Pixels(fs, index, next, size, m))
  {
    var rest := Pixels(fs, index, next, size, m);
    if pixel.Ok? && rest.Ok? {
      assert done + ([pixel.value] + rest.value) == (done + [pixel.value]) + rest.value;
    }
  }
}
