/**
 Per-pixel integer logic of the blur: reading the intensity channel out of a
 packed RGB word, turning the floating-point weighted sum into a byte the way a
 Java `(int)` cast followed by a clamp does, and packing a grey level back into
 a word with three equal channels.
 */
module Pixel {

  /** A packed pixel word as exchanged with getRGB/setRGB: a Java `int`,
      laid out 0xAARRGGBB in two's complement. */
  type Word = x: int | -0x8000_0000 <= x < 0x8000_0000

  const IntMin: int := -0x8000_0000
  const IntMax: int := 0x7FFF_FFFF

  function Min(a: int, b: int): (m: int) { if a <= b then a else b }
  function Max(a: int, b: int): (m: int) { if a >= b then a else b }

  /** `p & 0xFF`: the low byte (the blue channel), the only channel the blur
      reads, taken as reduction modulo 256 with a non-negative remainder. */
  function Intensity(p: Word): (g: int)
    ensures 0 <= g < 256
  {
    p % 256
  }

  /** `(p >> 16) & 0xFF`: an arithmetic shift right is division rounding down. */
  function Red(p: Word): (c: int) { (p / 0x1_0000) % 256 }

  /** `(p >> 8) & 0xFF`. */
  function Green(p: Word): (c: int) { (p / 0x100) % 256 }

  /** Truncation toward zero: the magnitude is rounded down, the sign is kept. */
  function Truncate(r: real): (t: int)
    ensures r >= 0.0 ==> 0 <= t && t as real <= r < t as real + 1.0
    ensures r < 0.0 ==> t <= 0 && t as real - 1.0 < r <= t as real
  {
    if r >= 0.0 then r.Floor else -((-r).Floor)
  }

  /** Java's narrowing cast from a floating-point value to `int`: truncation
      toward zero, saturating at the bounds of the 32-bit range. */
  function IntCast(r: real): (t: int)
    ensures IntMin <= t <= IntMax
    ensures IntMin as real <= r < IntMax as real + 1.0 ==> t == Truncate(r)
    ensures r >= IntMax as real ==> t == IntMax
    ensures r <= IntMin as real ==> t == IntMin
  {
    var t := Truncate(r);
    if t > IntMax then IntMax else if t < IntMin then IntMin else t
  }

  /** The grey level written for a weighted sum: cast to `int`, then clamped
      to [0, 255]. The cast truncates, it does not round. */
  function ToByte(sum: real): (v: int)
    ensures 0 <= v < 256
    ensures 0.0 <= sum < 256.0 ==> v as real <= sum < v as real + 1.0
    ensures sum < 1.0 ==> v == 0
    ensures sum >= 255.0 ==> v == 255
  {
    Min(Max(IntCast(sum), 0), 255)
  }

  /** A whole grey level passes through unchanged. */
  lemma ToByteOfLevel(v: int)
    requires 0 <= v < 256
    ensures ToByte(v as real) == v
  {
  }

  /** A larger sum never yields a darker grey level. */
  lemma ToByteMonotone(a: real, b: real)
    requires a <= b
    ensures ToByte(a) <= ToByte(b)
  {
    assert a >= 0.0 ==> Truncate(a) <= Truncate(b);
    assert b < 0.0 ==> Truncate(a) <= Truncate(b);
  }

  /** The fractional part is dropped even when it is above one half. */
  lemma ToByteTruncates()
    ensures ToByte(254.75) == 254
    ensures ToByte(0.5) == 0
  {
  }

  /** In 32-bit words, OR-ing three copies of a byte shifted by 16, 8 and 0
      bits is the same as adding them: the copies occupy disjoint bits, and
      each can be read back with a shift and a mask. */
  lemma GreyBits(b: bv32)
    requires b < 256
    ensures (b << 16) | (b << 8) | b == b * 0x1_0000 + b * 0x100 + b
    ensures ((b << 16) | (b << 8) | b) & 0xFF == b
    ensures (((b << 16) | (b << 8) | b) >> 8) & 0xFF == b
    ensures (((b << 16) | (b << 8) | b) >> 16) & 0xFF == b
  {
  }

  /** `(value << 16) | (value << 8) | value`: the grey level replicated into
      red, green and blue, alpha zero. */
  function Pack(v: int): (p: Word)
    requires 0 <= v < 256
    ensures 0 <= p < 0x100_0000
  {
    v * 0x1_0000 + v * 0x100 + v
  }

  /** Each of the three channels of a grey word reads back the level. */
  lemma PackChannels(v: int)
    requires 0 <= v < 256
    ensures Red(Pack(v)) == v && Green(Pack(v)) == v && Intensity(Pack(v)) == v
  {
    SplitAt16(Pack(v), v, v * 0x101);
    SplitAt8(Pack(v), v * 0x101, v);
    SplitAt8(v * 0x101, v, v);
    SplitAt8(v, 0, v);
  }

  /** `(q << 8) | r` shifted right by 8 and masked by `0xFF`, for `r` in one byte. */
  lemma SplitAt8(p: int, q: int, r: int)
    requires 0 <= r < 0x100 && p == q * 0x100 + r
    ensures p / 0x100 == q && p % 0x100 == r
  {
  }

  /** `(q << 16) | r` shifted right by 16, for `r` in two bytes. */
  lemma SplitAt16(p: int, q: int, r: int)
    requires 0 <= r < 0x1_0000 && p == q * 0x1_0000 + r
    ensures p / 0x1_0000 == q && p % 0x1_0000 == r
  {
  }

  /** Two grey words are equal exactly when their levels are. */
  lemma PackInjective(v: int, w: int)
    requires 0 <= v < 256 && 0 <= w < 256
    ensures Pack(v) == Pack(w) <==> v == w
  {
    if Pack(v) == Pack(w) {
      PackChannels(v);
      PackChannels(w);
    }
  }
}
