/** Which colours an account gets: the hue its hash picks, the colour wheel, and where on the skin each
    colour lies. */
module SkinLaws {
  import opened Octets
  import opened Skin

  // ---------- the hue ----------

  /** The two bytes as the number they spell. */
  function Spelt(b0: byte, b1: byte): nat {
    b0 as nat * 256 + b1 as nat
  }

  /** The hues are spread evenly over the whole circle, in the order of the bytes; different bytes
      pick different hues. */
  lemma HuesAreEven(b0: byte, b1: byte, c0: byte, c1: byte)
    ensures (Hue(b0, b1) - Hue(c0, c1)) * 65535.0 == 360.0 * (Spelt(b0, b1) - Spelt(c0, c1)) as real
    ensures Hue(0, 0) == 0.0 && Hue(255, 255) == 360.0
    ensures Hue(b0, b1) == Hue(c0, c1) <==> b0 == c0 && b1 == c1
  {
    var x, y := Hue(b0, b1) / 360.0 * 65535.0, Hue(c0, c1) / 360.0 * 65535.0;
    assert x == Spelt(b0, b1) as real && y == Spelt(c0, c1) as real;
  }

  // ---------- the wheel ----------

  /** The distance of two angles on the circle. */
  function Apart(h: real, p: real): real {
    var d := Abs(h - p);
    if d <= 180.0 then d else 360.0 - d
  }

  /** The chroma of a primary at this distance from its own angle: all of it up to 60 degrees, none
      from 120 on, and evenly less in between. */
  function Share(apart: real): real {
    if apart <= 60.0 then CHROMA else if apart >= 120.0 then 0.0 else CHROMA * (120.0 - apart) / 60.0
  }

  function Channel(h: real, p: real): byte {
    ToByte((Share(Apart(h, p)) + FLOOR) * 255.0)
  }

  lemma {:induction false} ModIs(a: real, b: real, n: nat)
    requires 0.0 < b && 0.0 <= a - Times(n, b) < b
    ensures Mod(a, b) == a - Times(n, b)
    decreases n
  {
    if n > 0 {
      assert Times(n, b) == Times(n - 1, b) + b;
      assert 0.0 <= Times(n - 1, b);
      ModIs(a - b, b, n - 1);
    }
  }

  /** The middle channel rises over an even sextant of the wheel and falls over an odd one. */
  lemma RampIs(h: real, k: nat)
    requires k <= 6 && 60.0 * k as real <= h < 60.0 * k as real + 60.0
    ensures Ramp(h, CHROMA) ==
      if k % 2 == 0 then CHROMA * (h - 60.0 * k as real) / 60.0 else CHROMA * (60.0 * k as real + 60.0 - h) / 60.0
  {
    var n := k / 2;
    var q := h / 60.0;
    assert k as real <= q < k as real + 1.0;
    assert Times(n, 2.0) == (2 * n) as real;
    ModIs(q, 2.0, n);
  }

  function SextantOf(h: real): nat {
    if h < 60.0 then 0 else if h < 120.0 then 1 else if h < 180.0 then 2
    else if h < 240.0 then 3 else if h < 300.0 then 4 else if h < 360.0 then 5 else 6
  }

  /** The colours of the wheel, at every angle: red, green and blue each follow the distance of the
      hue from their own angle. */
  lemma Wheel(h: real)
    requires 0.0 <= h <= 360.0
    ensures Hsv(h, 0.65, 0.85) == Rgba(Channel(h, 0.0), Channel(h, 120.0), Channel(h, 240.0), 255)
  {
    assert 0.85 * 0.65 == CHROMA && 0.85 - CHROMA == FLOOR;
    RampIs(h, SextantOf(h));
    Sharing(h);
  }

  /** The same on the reals. */
  lemma Sharing(h: real)
    requires 0.0 <= h <= 360.0
    ensures Sextant(h, CHROMA, Ramp(h, CHROMA))
         == (Share(Apart(h, 0.0)), Share(Apart(h, 120.0)), Share(Apart(h, 240.0)))
  {
    RampIs(h, SextantOf(h));
  }

  // ---------- the torso ----------

  /** Each channel of the torso is the greatest whole number not above 65 percent of the body's. */
  lemma DarkenedTo(c: Rgba)
    ensures var d := Darken(c);
      && 100 * d.r as int <= 65 * c.r as int < 100 * d.r as int + 100
      && 100 * d.g as int <= 65 * c.g as int < 100 * d.g as int + 100
      && 100 * d.b as int <= 65 * c.b as int < 100 * d.b as int + 100
      && d.a == c.a
  {
    DarkenedChannel(c.r);
    DarkenedChannel(c.g);
    DarkenedChannel(c.b);
  }

  lemma DarkenedChannel(x: byte)
    ensures var d := ToByte(x as int as real * 0.65) as int; 100 * d <= 65 * x as int < 100 * d + 100
  {
    var f := x as int as real * 0.65;
    assert 0.0 <= f < 256.0;
    assert f.Floor as real <= f < f.Floor as real + 1.0;
  }

  // ---------- the layout ----------

  /** Pixels lie row by row from the top left, four bytes each: red, green, blue, opacity. */
  lemma RowByRow(px: seq<byte>, x: int, y: int, c: Rgba)
    requires |px| == 16384 && OnSkin(x, y) && At(px, x, y) == c.Bytes()
    ensures var at := 256 * y + 4 * x; px[at] == c.r && px[at + 1] == c.g && px[at + 2] == c.b && px[at + 3] == c.a
  {
    var at := Offset(x, y);
    assert px[at..at + 4][0] == px[at] && px[at..at + 4][1] == px[at + 1];
    assert px[at..at + 4][2] == px[at + 2] && px[at..at + 4][3] == px[at + 3];
  }

  /** The four eye pixels lie on the head's front face, the shirt is the torso's front, and nothing
      else differs from the body. */
  lemma Layout(x: int, y: int, b0: byte, b1: byte)
    requires OnSkin(x, y)
    ensures var body, shirt := ColourFrom(b0, b1), Darken(ColourFrom(b0, b1));
      var pixel := PixelOf(x, y, body, shirt);
      && (pixel == EYE <==> (x, y) in {(10, 11), (11, 11), (13, 11), (14, 11)})
      && (pixel == EYE ==> 8 <= x <= 15 && 8 <= y <= 15)
      && (pixel == shirt <==> 20 <= x <= 27 && 20 <= y <= 31)
      && (pixel == EYE || pixel == shirt || pixel == body)
  {
    ColoursOf(b0, b1);
  }
}
