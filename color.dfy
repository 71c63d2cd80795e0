/** Packed 24-bit colours as the firmware writes them with `setPixel`:
    `0xRRGGBB`, one byte per channel. */
module Color {

  predicate IsByte(v: int) {
    0 <= v < 0x100
  }

  /** Packs three channel bytes; the source builds such words with shifts by
      16 and 8 and bitwise or, which is this sum because the fields are
      disjoint. */
  function Rgb(r: int, g: int, b: int): int {
    r * 0x10000 + g * 0x100 + b
  }

  function Red(c: int): int { c / 0x10000 % 0x100 }
  function Green(c: int): int { c / 0x100 % 0x100 }
  function Blue(c: int): int { c % 0x100 }

  /** Packing then reading the channels back gives the three bytes, and a
      packed colour fits in 24 bits. */
  lemma RgbChannels(r: int, g: int, b: int)
    requires IsByte(r) && IsByte(g) && IsByte(b)
    ensures 0 <= Rgb(r, g, b) < 0x100_0000
    ensures Red(Rgb(r, g, b)) == r
    ensures Green(Rgb(r, g, b)) == g
    ensures Blue(Rgb(r, g, b)) == b
  {
    var c := Rgb(r, g, b);
    assert c == (r * 0x100 + g) * 0x100 + b;
    assert c / 0x100 == r * 0x100 + g;
    assert c / 0x10000 == (c / 0x100) / 0x100;
  }

  /** Full white, the leading pixel of the start-up sweep (`0x00ffffff`). */
  const White: int := Rgb(0xff, 0xff, 0xff)
  /** Saturated and dim markers of the segment chase (`0x00ff0000`, `0x00020000`). */
  const MarkerBright: int := Rgb(0xff, 0, 0)
  const MarkerDim: int := Rgb(0x02, 0, 0)
  const Off: int := 0

  /** The same intensity in all three channels. */
  function Gray(v: int): int {
    Rgb(v, v, v)
  }
}
