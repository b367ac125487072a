/** The skin painter of internal/skin/skin.go, in exact reals where the source uses float64. */
module Skin {
  import opened Octets

  const WIDTH := 64
  const HEIGHT := 64

  datatype Rgba = Rgba(r: byte, g: byte, b: byte, a: byte) {
    function Bytes(): (s: seq<byte>)
      ensures |s| == 4
    {
      [r, g, b, a]
    }
  }

  // ---------- the buffer ----------

  /** Pixel (x, y) has its four bytes from here on. */
  function Offset(x: int, y: int): int {
    (y * WIDTH + x) * 4
  }

  predicate OnSkin(x: int, y: int) {
    0 <= x < WIDTH && 0 <= y < HEIGHT
  }

  /** The colour of a pixel in a buffer. */
  function At(px: seq<byte>, x: int, y: int): seq<byte>
    requires |px| == WIDTH * HEIGHT * 4 && OnSkin(x, y)
  {
    px[Offset(x, y)..Offset(x, y) + 4]
  }

  predicate InRect(p: int, q: int, x: int, y: int, w: int, h: int) {
    x <= p < x + w && y <= q < y + h
  }

  /** Inside the rows done, or in the row under way and left of the column under way. */
  predicate Reached(p: int, q: int, x: int, y: int, w: int, dx: int, dy: int) {
    x <= p < x + w && y <= q && (q < y + dy || (q == y + dy && p < x + dx))
  }

  /** copy of four bytes into pixel n, counted row by row. */
  method PutPixel(px: array<byte>, n: nat, c: Rgba)
    requires px.Length == WIDTH * HEIGHT * 4 && n < WIDTH * HEIGHT
    modifies px
    ensures forall p, q | OnSkin(p, q) ::
      At(px[..], p, q) == if q * WIDTH + p == n then c.Bytes() else old(At(px[..], p, q))
  {
    px[n * 4], px[n * 4 + 1], px[n * 4 + 2], px[n * 4 + 3] := c.r, c.g, c.b, c.a;
  }

  /** The body of fill's loops: a pixel off the skin is skipped. */
  method Paint(px: array<byte>, x: int, y: int, c: Rgba)
    requires px.Length == WIDTH * HEIGHT * 4
    modifies px
    ensures forall p, q | OnSkin(p, q) ::
      At(px[..], p, q) == if p == x && q == y then c.Bytes() else old(At(px[..], p, q))
  {
    if x < 0 || x >= WIDTH || y < 0 || y >= HEIGHT {
      return;
    }
    PutPixel(px, y * WIDTH + x, c);
  }

  /** fill: for any rectangle whatever, exactly its pixels on the skin take the colour. */
  method Fill(px: array<byte>, x: int, y: int, w: int, h: int, c: Rgba)
    requires px.Length == WIDTH * HEIGHT * 4
    modifies px
    ensures forall p, q | OnSkin(p, q) ::
      At(px[..], p, q) == if InRect(p, q, x, y, w, h) then c.Bytes() else old(At(px[..], p, q))
  {
    var dy := 0;
    while dy < h
      invariant 0 <= dy && (dy <= h || dy == 0)
      invariant forall p, q | OnSkin(p, q) ::
        At(px[..], p, q) == if Reached(p, q, x, y, w, 0, dy) then c.Bytes() else old(At(px[..], p, q))
    {
      var dx := 0;
      while dx < w
        invariant 0 <= dx && (dx <= w || dx == 0)
        invariant forall p, q | OnSkin(p, q) ::
          At(px[..], p, q) == if Reached(p, q, x, y, w, dx, dy) then c.Bytes() else old(At(px[..], p, q))
      {
        Paint(px, x + dx, y + dy, c);
        dx := dx + 1;
      }
      dy := dy + 1;
    }
  }

  // ---------- the colours ----------

  function Mod(a: real, b: real): real
    requires 0.0 < b
    decreases if a >= b then (a / b).Floor + 1 else 0
  {
    if a >= b then
      ModShrinks(a, b);
      Mod(a - b, b)
    else a
  }

  lemma ProductSign(x: real, b: real)
    requires b > 0.0
    ensures x > 0.0 ==> x * b > 0.0
    ensures x < 0.0 ==> x * b < 0.0
  {
  }

  lemma ModShrinks(a: real, b: real)
    requires a >= b > 0.0
    ensures (a / b).Floor >= 1 && ((a - b) / b).Floor == (a / b).Floor - 1
  {
    var q, r := a / b, (a - b) / b;
    assert q * b == a && r * b == a - b;
    ProductSign(q - 1.0 - r, b);
  }

  /** mod's loop ends for every a, and for a non-negative a leaves it in [0, b), a multiple of b away. */
  method ModLoop(start: real, b: real) returns (a: real)
    requires 0.0 < b
    ensures a == Mod(start, b)
  {
    a := start;
    while a >= b
      invariant Mod(a, b) == Mod(start, b)
      decreases if a >= b then (a / b).Floor + 1 else 0
    {
      ModShrinks(a, b);
      a := a - b;
    }
  }

  function Times(n: nat, b: real): real {
    n as real * b
  }

  lemma {:induction false} ModInRange(a: real, b: real)
    requires 0.0 <= a && 0.0 < b
    ensures 0.0 <= Mod(a, b) < b
    ensures exists n: nat :: a == Mod(a, b) + Times(n, b)
    decreases if a >= b then (a / b).Floor + 1 else 0
  {
    if a >= b {
      ModShrinks(a, b);
      ModInRange(a - b, b);
      var n: nat :| a - b == Mod(a - b, b) + Times(n, b);
      assert a == Mod(a, b) + Times(n + 1, b);
    } else {
      assert a == Mod(a, b) + Times(0, b);
    }
  }

  function Abs(f: real): real {
    if f < 0.0 then -f else f
  }

  /** byte(f): truncation towards zero, then the low eight bits. (Go promises this for values
      that fit a byte; ColoursOf shows that no others occur.) */
  function ToByte(f: real): byte {
    ((if f < 0.0 then -((-f).Floor) else f.Floor) % 256) as byte
  }

  /** The red, green and blue of hsv before the offset m is added. */
  function Sextant(h: real, c: real, x: real): (real, real, real) {
    if h < 60.0 then (c, x, 0.0)
    else if h < 120.0 then (x, c, 0.0)
    else if h < 180.0 then (0.0, c, x)
    else if h < 240.0 then (0.0, x, c)
    else if h < 300.0 then (x, 0.0, c)
    else (c, 0.0, x)
  }

  function Ramp(h: real, c: real): real {
    c * (1.0 - Abs(Mod(h / 60.0, 2.0) - 1.0))
  }

  function Hsv(h: real, s: real, v: real): Rgba
    requires 0.0 <= h
  {
    var c := v * s;
    var m := v - c;
    var (r, g, b) := Sextant(h, c, Ramp(h, c));
    Rgba(ToByte((r + m) * 255.0), ToByte((g + m) * 255.0), ToByte((b + m) * 255.0), 255)
  }

  /** colourFrom, from the first two bytes of the hash. */
  function Hue(b0: byte, b1: byte): real {
    (b0 as int * 256 + b1 as int) as real / 65535.0 * 360.0
  }

  function ColourFrom(b0: byte, b1: byte): Rgba {
    Hsv(Hue(b0, b1), 0.65, 0.85)
  }

  function Darken(c: Rgba): Rgba {
    Rgba(ToByte(c.r as int as real * 0.65), ToByte(c.g as int as real * 0.65), ToByte(c.b as int as real * 0.65), c.a)
  }

  const EYE := Rgba(20, 20, 28, 255)

  /** The chroma of colourFrom, 0.85 * 0.65, and what it leaves for the smallest channel. */
  const CHROMA := 0.5525
  const FLOOR := 0.2975

  /** A channel of the body before truncation: x is the share of chroma it has. */
  lemma BodyChannel(x: real)
    requires 0.0 <= x <= CHROMA
    ensures var f := (x + FLOOR) * 255.0; 0.0 <= f < 256.0 && 75 <= f.Floor == ToByte(f) as int <= 216
    ensures x == CHROMA ==> ToByte((x + FLOOR) * 255.0) == 216
    ensures x == 0.0 ==> ToByte((x + FLOOR) * 255.0) == 75
  {
  }

  lemma RampInRange(h: real)
    requires 0.0 <= h
    ensures 0.0 <= Ramp(h, CHROMA) <= CHROMA
  {
    ModInRange(h / 60.0, 2.0);
  }

  /** For every hue the body's channels lie in 75..216 and both ends are reached. */
  lemma BodyColour(h: real)
    requires 0.0 <= h
    ensures var body := Hsv(h, 0.65, 0.85);
      && 75 <= body.r <= 216 && 75 <= body.g <= 216 && 75 <= body.b <= 216 && body.a == 255
      && 216 in {body.r, body.g, body.b} && 75 in {body.r, body.g, body.b}
  {
    assert 0.85 * 0.65 == CHROMA && 0.85 - CHROMA == FLOOR;
    RampInRange(h);
    BodyChannel(0.0);
    BodyChannel(Ramp(h, CHROMA));
    BodyChannel(CHROMA);
  }

  lemma DarkChannel(x: byte)
    requires 75 <= x <= 216
    ensures var f := x as int as real * 0.65; 0.0 <= f < 256.0 && 48 <= f.Floor == ToByte(f) as int <= 140
  {
  }

  /** For every hash: the hue stays on the circle, no channel wraps, the body's channels lie in
      75..216, the torso's in 48..140, and the three colours are opaque and distinct. */
  lemma ColoursOf(b0: byte, b1: byte)
    ensures 0.0 <= Hue(b0, b1) <= 360.0
    ensures var body := ColourFrom(b0, b1);
      && 75 <= body.r <= 216 && 75 <= body.g <= 216 && 75 <= body.b <= 216 && body.a == 255
      && 216 in {body.r, body.g, body.b} && 75 in {body.r, body.g, body.b}
    ensures var shirt := Darken(ColourFrom(b0, b1));
      && 48 <= shirt.r <= 140 && 48 <= shirt.g <= 140 && 48 <= shirt.b <= 140 && shirt.a == 255
    ensures var body, shirt := ColourFrom(b0, b1), Darken(ColourFrom(b0, b1));
      body != shirt && shirt != EYE && body != EYE
  {
    BodyColour(Hue(b0, b1));
    var body := ColourFrom(b0, b1);
    DarkChannel(body.r);
    DarkChannel(body.g);
    DarkChannel(body.b);
  }

  /** For: body everywhere but the shirt on the torso's front and the two eyes, which are painted
      last. */
  function PixelOf(x: int, y: int, body: Rgba, shirt: Rgba): Rgba {
    if InRect(x, y, 10, 11, 2, 1) || InRect(x, y, 13, 11, 2, 1) then EYE
    else if InRect(x, y, 20, 20, 8, 12) then shirt
    else body
  }

  method For(b0: byte, b1: byte) returns (px: array<byte>)
    ensures px.Length == WIDTH * HEIGHT * 4
    ensures forall p, q | OnSkin(p, q) ::
      At(px[..], p, q) == PixelOf(p, q, ColourFrom(b0, b1), Darken(ColourFrom(b0, b1))).Bytes()
    ensures forall p, q | OnSkin(p, q) :: At(px[..], p, q)[3] == 255
  {
    var body := ColourFrom(b0, b1);
    var shirt := Darken(body);
    px := new byte[WIDTH * HEIGHT * 4];
    var i := 0;
    while i < WIDTH * HEIGHT
      invariant 0 <= i <= WIDTH * HEIGHT
      invariant forall p, q | OnSkin(p, q) && q * WIDTH + p < i :: At(px[..], p, q) == body.Bytes()
    {
      PutPixel(px, i, body);
      i := i + 1;
    }
    Fill(px, 20, 20, 8, 12, shirt);
    Fill(px, 10, 11, 2, 1, EYE);
    Fill(px, 13, 11, 2, 1, EYE);
    ColoursOf(b0, b1);
  }
}
