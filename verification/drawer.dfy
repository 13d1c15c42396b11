/** `src/pixelDrawer.js`: an RGBA byte buffer of the canvas size, written
    one pixel at a time with clipping. The buffer is `ImageData.data`, a
    clamped byte array, four bytes per pixel in row-major order. */
module Drawer {
  import opened Wrappers
  import opened Color
  import opened Geometry

  type Byte = b: int | 0 <= b < 256

  datatype PixelDrawer = PixelDrawer(width: int, height: int, data: seq<Byte>)

  /** Four bytes per pixel of a width-by-height image. */
  predicate WellFormed(d: PixelDrawer) {
    d.width >= 0 && d.height >= 0 && |d.data| == 4 * (d.width * d.height)
  }

  /** The constructor and `flush`: a fresh, fully transparent black buffer
      (`createImageData`). */
  function NewDrawer(w: int, h: int): (d: PixelDrawer)
    requires w >= 0 && h >= 0
    ensures WellFormed(d) && d.width == w && d.height == h
    ensures forall i :: 0 <= i < |d.data| ==> d.data[i] == 0
  {
    PixelDrawer(w, h, seq(4 * (w * h), _ => 0))
  }

  function Flush(d: PixelDrawer): (r: PixelDrawer)
    requires WellFormed(d)
    ensures WellFormed(r) && r.width == d.width && r.height == d.height
    ensures forall i :: 0 <= i < |r.data| ==> r.data[i] == 0
  {
    NewDrawer(d.width, d.height)
  }

  /** One colour channel as stored: `Math.round(v * 255)` (halves round
      up, so floor(v * 255 + 1/2)), then clamped into 0..255 by the byte
      array. */
  function ChannelByte(v: real): (b: Byte)
    ensures 0.0 <= v <= 1.0 ==> (b as real) - 0.5 <= v * 255.0 < (b as real) + 0.5
  {
    var n := (v * 255.0 + 0.5).Floor;
    if n < 0 then 0 else if n > 255 then 255 else n
  }

  /** Rounding to bytes keeps the order of channel values. */
  lemma ChannelByteMonotone(u: real, v: real)
    requires u <= v
    ensures ChannelByte(u) <= ChannelByte(v)
  {
  }

  /** The ends of the unit interval map to the ends of the byte range, and
      values past them are clamped. */
  lemma ChannelByteEnds(v: real)
    ensures v <= 0.0 ==> ChannelByte(v) == 0
    ensures v >= 1.0 ==> ChannelByte(v) == 255
  {
    if v >= 1.0 {
      ChannelByteMonotone(1.0, v);
    }
  }

  datatype Pixel = Pixel(r: Byte, g: Byte, b: Byte, a: Byte)

  /** The four stored bytes of a colour. */
  function Bytes(c: RGB): Pixel {
    Pixel(ChannelByte(c.r), ChannelByte(c.g), ChannelByte(c.b), ChannelByte(c.a))
  }

  /** Where a pixel's four bytes start: `(x + y * width) * 4`. */
  function Offset(w: int, x: int, y: int): int {
    4 * Index(w, x, y)
  }

  lemma OffsetInRange(d: PixelDrawer, x: int, y: int)
    requires WellFormed(d) && InGrid(d.width, d.height, x, y)
    ensures 0 <= Offset(d.width, x, y) && Offset(d.width, x, y) + 3 < |d.data|
  {
    IndexInRange(d.width, d.height, x, y);
  }

  /** The pixel stored at (x, y). */
  function PixelAt(d: PixelDrawer, x: int, y: int): Pixel
    requires WellFormed(d) && InGrid(d.width, d.height, x, y)
  {
    OffsetInRange(d, x, y);
    var i := Offset(d.width, x, y);
    Pixel(d.data[i], d.data[i + 1], d.data[i + 2], d.data[i + 3])
  }

  /** The buffer with four bytes written from offset i on. */
  function Write(data: seq<Byte>, i: int, p: Pixel): (r: seq<Byte>)
    requires 0 <= i && i + 3 < |data|
    ensures |r| == |data|
    ensures r[i] == p.r && r[i + 1] == p.g && r[i + 2] == p.b && r[i + 3] == p.a
    ensures forall j :: 0 <= j < |data| && j / 4 != i / 4 && i % 4 == 0 ==> r[j] == data[j]
  {
    data[i := p.r][i + 1 := p.g][i + 2 := p.b][i + 3 := p.a]
  }

  /** `setPixel`: a pixel inside the image with a non-zero alpha is
      written, four bytes at `(x + y * width) * 4`; anything else (outside
      the image, or fully transparent) leaves the buffer as it was. */
  function SetPixel(d: PixelDrawer, x: int, y: int, c: RGB): (r: PixelDrawer)
    requires WellFormed(d)
    ensures WellFormed(r) && r.width == d.width && r.height == d.height
    ensures InGrid(d.width, d.height, x, y) && c.a != 0.0 ==> PixelAt(r, x, y) == Bytes(c)
    ensures !(InGrid(d.width, d.height, x, y) && c.a != 0.0) ==> r == d
    ensures forall i :: 0 <= i < |d.data| && i / 4 != Index(d.width, x, y) ==> r.data[i] == d.data[i]
  {
    if InGrid(d.width, d.height, x, y) && c.a != 0.0 then
      OffsetInRange(d, x, y);
      d.(data := Write(d.data, Offset(d.width, x, y), Bytes(c)))
    else d
  }

  /** The four bytes of pixel k all lie in slot k. */
  lemma SlotOf(k: int)
    ensures (4 * k) / 4 == k && (4 * k + 1) / 4 == k && (4 * k + 2) / 4 == k && (4 * k + 3) / 4 == k
  {
  }

  /** A pixel whose slot a write left alone keeps its bytes. */
  lemma OtherPixelKept(d: PixelDrawer, r: PixelDrawer, k: int, x: int, y: int)
    requires WellFormed(d) && WellFormed(r) && r.width == d.width && r.height == d.height
    requires InGrid(d.width, d.height, x, y) && Index(d.width, x, y) != k
    requires forall i :: 0 <= i < |d.data| && i / 4 != k ==> r.data[i] == d.data[i]
    ensures PixelAt(r, x, y) == PixelAt(d, x, y)
  {
    OffsetInRange(d, x, y);
    SlotOf(Index(d.width, x, y));
  }

  /** Writing one pixel leaves every other pixel as it was. */
  lemma SetPixelKeepsOthers(d: PixelDrawer, x: int, y: int, c: RGB, x': int, y': int)
    requires WellFormed(d) && InGrid(d.width, d.height, x', y') && (x', y') != (x, y)
    ensures PixelAt(SetPixel(d, x, y, c), x', y') == PixelAt(d, x', y')
  {
    if InGrid(d.width, d.height, x, y) && c.a != 0.0 {
      IndexInjective(d.width, x, y, x', y');
      OtherPixelKept(d, SetPixel(d, x, y, c), Index(d.width, x, y), x', y');
    }
  }

  /** A later opaque write to the same pixel hides an earlier one. */
  lemma LastWriteWins(d: PixelDrawer, x: int, y: int, c1: RGB, c2: RGB)
    requires WellFormed(d) && c2.a != 0.0
    ensures SetPixel(SetPixel(d, x, y, c1), x, y, c2) == SetPixel(d, x, y, c2)
  {
    if InGrid(d.width, d.height, x, y) {
      OffsetInRange(d, x, y);
      var i := Offset(d.width, x, y);
      var a := SetPixel(SetPixel(d, x, y, c1), x, y, c2).data;
      var b := SetPixel(d, x, y, c2).data;
      assert |a| == |b|;
      forall j | 0 <= j < |a|
        ensures a[j] == b[j]
      {
        if j / 4 != i / 4 {
        } else {
          assert i <= j <= i + 3;
        }
      }
    }
  }

  /** A write fixes every byte of its pixel's slot, whatever the buffer
      held before. */
  lemma SlotOverwritten(e1: PixelDrawer, e2: PixelDrawer, x: int, y: int, c: RGB, j: int)
    requires WellFormed(e1) && WellFormed(e2) && e2.width == e1.width && e2.height == e1.height
    requires InGrid(e1.width, e1.height, x, y) && c.a != 0.0
    requires 0 <= j < |e1.data| && j / 4 == Index(e1.width, x, y)
    ensures SetPixel(e1, x, y, c).data[j] == SetPixel(e2, x, y, c).data[j]
  {
    OffsetInRange(e1, x, y);
    OffsetInRange(e2, x, y);
    assert Offset(e1.width, x, y) <= j <= Offset(e1.width, x, y) + 3;
  }

  /** Writes to two different pixels can be done in either order. */
  lemma DistinctWritesCommute(d: PixelDrawer, x1: int, y1: int, c1: RGB, x2: int, y2: int, c2: RGB)
    requires WellFormed(d) && (x1, y1) != (x2, y2)
    ensures SetPixel(SetPixel(d, x1, y1, c1), x2, y2, c2) == SetPixel(SetPixel(d, x2, y2, c2), x1, y1, c1)
  {
    var w := d.width;
    var d1, d2 := SetPixel(d, x1, y1, c1), SetPixel(d, x2, y2, c2);
    var a, b := SetPixel(d1, x2, y2, c2), SetPixel(d2, x1, y1, c1);
    if InGrid(w, d.height, x1, y1) && InGrid(w, d.height, x2, y2) {
      IndexInjective(w, x1, y1, x2, y2);
    }
    forall j | 0 <= j < |a.data|
      ensures a.data[j] == b.data[j]
    {
      if InGrid(w, d.height, x1, y1) && c1.a != 0.0 && j / 4 == Index(w, x1, y1) {
        SlotOverwritten(d, d2, x1, y1, c1, j);
      } else if InGrid(w, d.height, x2, y2) && c2.a != 0.0 && j / 4 == Index(w, x2, y2) {
        SlotOverwritten(d, d1, x2, y2, c2, j);
      }
    }
  }

  // ----- the colour fields the drawer reads -----

  /** A property read on a colour object built by `src/colorRGB.js`,
      whose fields are `r`, `g`, `b`, `a`; any other name is `undefined`. */
  function Property(c: RGB, name: string): Option<real> {
    if name == "r" then Some(c.r)
    else if name == "g" then Some(c.g)
    else if name == "b" then Some(c.b)
    else if name == "a" then Some(c.a)
    else None
  }

  /** A channel as stored when read through a property: `undefined * 255`
      is NaN, `Math.round(NaN)` is NaN, and the byte array stores NaN as 0. */
  function StoredChannel(v: Option<real>): Byte {
    match v
    case None => 0
    case Some(x) => ChannelByte(x)
  }

  /** `setPixel` with the four field names it reads as parameters: the
      alpha test `color.<a> !== 0` (true for `undefined`) and the four
      stored channels. */
  function SetPixelReading(d: PixelDrawer, x: int, y: int, c: RGB, fr: string, fg: string, fb: string, fa: string): (r: PixelDrawer)
    requires WellFormed(d)
    ensures WellFormed(r) && r.width == d.width && r.height == d.height
  {
    if InGrid(d.width, d.height, x, y) && Property(c, fa) != Some(0.0) then
      OffsetInRange(d, x, y);
      var p := Pixel(StoredChannel(Property(c, fr)), StoredChannel(Property(c, fg)),
                     StoredChannel(Property(c, fb)), StoredChannel(Property(c, fa)));
      d.(data := Write(d.data, Offset(d.width, x, y), p))
    else d
  }

  /** The drawer as written reads `_r`, `_g`, `_b`, `_a`, the fields of the
      `ColorRGB` of `src/color.js`; in the concatenated build the later
      `var ColorRGB` of `src/colorRGB.js` replaces that class, so every
      colour the drawer receives has `r`, `g`, `b`, `a` instead. */
  function SetPixelAsWritten(d: PixelDrawer, x: int, y: int, c: RGB): (r: PixelDrawer)
    requires WellFormed(d)
    ensures WellFormed(r) && r.width == d.width && r.height == d.height
  {
    SetPixelReading(d, x, y, c, "_r", "_g", "_b", "_a")
  }

  /** As written, every in-image write stores transparent black whatever
      the colour, transparent ones included: the alpha test never rejects
      and every channel is NaN. */
  lemma AsWrittenStoresBlank(d: PixelDrawer, x: int, y: int, c: RGB)
    requires WellFormed(d) && InGrid(d.width, d.height, x, y)
    ensures PixelAt(SetPixelAsWritten(d, x, y, c), x, y) == Pixel(0, 0, 0, 0)
  {
  }

  /** Concretely: opaque red on a 1-by-1 image is stored as (0, 0, 0, 0)
      as written and as (255, 0, 0, 255) by the corrected drawer. */
  lemma AsWrittenLosesOpaqueRed()
    ensures PixelAt(SetPixelAsWritten(NewDrawer(1, 1), 0, 0, RGB(1.0, 0.0, 0.0, 1.0)), 0, 0) == Pixel(0, 0, 0, 0)
    ensures PixelAt(SetPixel(NewDrawer(1, 1), 0, 0, RGB(1.0, 0.0, 0.0, 1.0)), 0, 0) == Pixel(255, 0, 0, 255)
  {
    AsWrittenStoresBlank(NewDrawer(1, 1), 0, 0, RGB(1.0, 0.0, 0.0, 1.0));
    ChannelByteEnds(1.0);
    ChannelByteEnds(0.0);
  }

  /** The corrected drawer is the same code reading the fields the colour
      objects actually have. */
  lemma CorrectedReadsColorFields(d: PixelDrawer, x: int, y: int, c: RGB)
    requires WellFormed(d)
    ensures SetPixelReading(d, x, y, c, "r", "g", "b", "a") == SetPixel(d, x, y, c)
  {
  }

  // ----- a whole render through the drawer as written -----

  /** Every byte of the buffer is zero: a transparent black canvas. */
  predicate Blank(d: PixelDrawer) {
    forall i :: 0 <= i < |d.data| ==> d.data[i] == 0
  }

  /** One `setPixel` call of a render: the pixel and the colour. */
  datatype PixelWrite = PixelWrite(x: int, y: int, color: RGB)

  /** A run of `setPixel` calls through the drawer as written. */
  function WritesAsWritten(d: PixelDrawer, ws: seq<PixelWrite>): (r: PixelDrawer)
    requires WellFormed(d)
    ensures WellFormed(r) && r.width == d.width && r.height == d.height
    decreases |ws|
  {
    if ws == [] then d
    else WritesAsWritten(SetPixelAsWritten(d, ws[0].x, ws[0].y, ws[0].color), ws[1..])
  }

  /** As written, one write leaves a blank canvas blank. */
  lemma AsWrittenKeepsBlank(d: PixelDrawer, x: int, y: int, c: RGB)
    requires WellFormed(d) && Blank(d)
    ensures Blank(SetPixelAsWritten(d, x, y, c))
  {
    if InGrid(d.width, d.height, x, y) {
      OffsetInRange(d, x, y);
      var i := Offset(d.width, x, y);
      var r := SetPixelAsWritten(d, x, y, c);
      forall j | 0 <= j < |r.data|
        ensures r.data[j] == 0
      {
        if i <= j <= i + 3 {
        } else {
          assert j / 4 != i / 4;
        }
      }
    }
  }

  /** As written, no run of writes ever puts a visible byte on a blank
      canvas. */
  lemma {:induction false} AsWrittenStaysBlank(d: PixelDrawer, ws: seq<PixelWrite>)
    requires WellFormed(d) && Blank(d)
    ensures Blank(WritesAsWritten(d, ws))
    decreases |ws|
  {
    if ws != [] {
      AsWrittenKeepsBlank(d, ws[0].x, ws[0].y, ws[0].color);
      AsWrittenStaysBlank(SetPixelAsWritten(d, ws[0].x, ws[0].y, ws[0].color), ws[1..]);
    }
  }

  /** A render creates a fresh drawer and only calls `setPixel` on it, so
      as written every render's canvas is transparent black, whatever the
      sprite. */
  lemma AsWrittenRenderIsBlank(w: int, h: int, ws: seq<PixelWrite>)
    requires w >= 0 && h >= 0
    ensures Blank(WritesAsWritten(NewDrawer(w, h), ws))
  {
    AsWrittenStaysBlank(NewDrawer(w, h), ws);
  }
}
