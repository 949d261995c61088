/** The post-effects of src/canvas.js: salt noise, RGB inversion and emboss,
    rewriting the RGBA bytes of the canvas's image data in place. */
module Raster {
  import opened Samples

  /** The grey a noised pixel takes on every colour channel. */
  const NoiseValue: Byte := 170
  /** The emboss kernel's bias. */
  const EmbossBias: int := 127

  /** Byte k of an RGBA buffer is an alpha byte. */
  predicate IsAlpha(k: int) { k % 4 == 3 }

  /** What a Uint8ClampedArray stores for an integer. */
  function Clamp(v: int): (b: Byte)
    ensures 0 <= v < 256 ==> b == v
    ensures v < 0 ==> b == 0
    ensures 256 <= v ==> b == 255
  {
    if v < 0 then 0 else if v > 255 then 255 else v
  }

  /** Inversion of one colour byte. */
  function Invert(c: Byte): Byte { 255 - c }

  /** One colour byte after the per-pixel pass: noise when the pixel was drawn
      by the random test, then inversion. */
  function Tint(c: Byte, picked: bool, noiseOn: bool, invertOn: bool): Byte {
    var n := if noiseOn && picked then NoiseValue else c;
    if invertOn then Invert(n) else n
  }

  /** The buffer after the per-pixel pass; picks[p] is the outcome of the random
      test for pixel p, consulted only when noise is on. */
  function FirstPass(s: seq<Byte>, picks: seq<bool>, noiseOn: bool, invertOn: bool): (r: seq<Byte>)
    requires |s| % 4 == 0 && |picks| == |s| / 4
    ensures |r| == |s|
  {
    seq(|s|, k requires 0 <= k < |s| =>
      if IsAlpha(k) then s[k] else Tint(s[k], picks[k / 4], noiseOn, invertOn))
  }

  /** The emboss kernel on a byte and its two neighbours. */
  function Kernel(c: int, right: int, below: int): int { EmbossBias + 2 * c - right - below }

  /** The emboss kernel at colour byte i: twice the byte, less its right and its
      lower neighbour in the same channel. A neighbour read past the end is
      undefined in the source, the sum NaN, and a NaN is stored as 0. */
  function EmbossAt(s: seq<Byte>, i: nat, width: nat): Byte
    requires i < |s|
  {
    if i + 4 < |s| && i + 4 * width < |s| then Clamp(Kernel(s[i], s[i + 4], s[i + 4 * width]))
    else 0
  }

  /** The buffer after the emboss pass, each byte computed from the buffer as
      it stood before the pass. */
  function Embossed(s: seq<Byte>, width: nat): (r: seq<Byte>)
    ensures |r| == |s|
  {
    seq(|s|, k requires 0 <= k < |s| => if IsAlpha(k) then s[k] else EmbossAt(s, k, width))
  }

  /** The buffer after effects() with the given switches. */
  function Effected(s: seq<Byte>, width: nat, picks: seq<bool>,
                    noiseOn: bool, invertOn: bool, embossOn: bool): (r: seq<Byte>)
    requires |s| % 4 == 0 && |picks| == |s| / 4
    ensures |r| == |s|
  {
    var t := FirstPass(s, picks, noiseOn, invertOn);
    if embossOn then Embossed(t, width) else t
  }

  /** effects() on the image data of a width-wide canvas: the per-pixel loop
      finishes over the whole buffer before the emboss loop starts. */
  method Effects(data: array<Byte>, width: nat, picks: seq<bool>,
                 noiseOn: bool, invertOn: bool, embossOn: bool)
    requires data.Length % 4 == 0 && |picks| == data.Length / 4
    modifies data
    ensures data[..] == Effected(old(data[..]), width, picks, noiseOn, invertOn, embossOn)
  {
    PixelPass(data, picks, noiseOn, invertOn);
    if embossOn {
      EmbossPass(data, width);
    }
  }

  /** The loop that steps through the buffer a pixel (four bytes) at a time,
      applying noise and then inversion to each pixel. */
  method PixelPass(data: array<Byte>, picks: seq<bool>, noiseOn: bool, invertOn: bool)
    requires data.Length % 4 == 0 && |picks| == data.Length / 4
    modifies data
    ensures data[..] == FirstPass(old(data[..]), picks, noiseOn, invertOn)
  {
    ghost var s := data[..];
    var length := data.Length;
    var i := 0;
    while i < length
      invariant 0 <= i <= length && i % 4 == 0
      invariant forall k :: 0 <= k < i ==>
        data[k] == if IsAlpha(k) then s[k] else Tint(s[k], picks[k / 4], noiseOn, invertOn)
      invariant forall k :: i <= k < length ==> data[k] == s[k]
    {
      if noiseOn && picks[i / 4] {
        data[i], data[i + 1], data[i + 2] := NoiseValue, NoiseValue, NoiseValue;
      }
      if invertOn {
        var red, green, blue := data[i], data[i + 1], data[i + 2];
        data[i], data[i + 1], data[i + 2] := Invert(red), Invert(green), Invert(blue);
      }
      i := i + 4;
    }
  }

  /** The emboss loop. It writes byte i after reading only bytes i + 4 and
      i + 4 * width, which it has not yet written, so the in-place result is
      the kernel applied to the buffer as it stood before the loop. */
  method EmbossPass(data: array<Byte>, width: nat)
    modifies data
    ensures data[..] == Embossed(old(data[..]), width)
  {
    ghost var t := data[..];
    var length := data.Length;
    var i := 0;
    while i < length
      invariant 0 <= i <= length
      invariant forall k :: 0 <= k < i ==> data[k] == if IsAlpha(k) then t[k] else EmbossAt(t, k, width)
      invariant forall k :: i <= k < length ==> data[k] == t[k]
    {
      if !IsAlpha(i) {
        if i + 4 < length && i + 4 * width < length {
          data[i] := Clamp(Kernel(data[i], data[i + 4], data[i + 4 * width]));
        } else {
          data[i] := 0;
        }
      }
      i := i + 1;
    }
  }

  /** With every effect off the buffer is left as it was. */
  lemma NoEffectsIsIdentity(s: seq<Byte>, width: nat, picks: seq<bool>)
    requires |s| % 4 == 0 && |picks| == |s| / 4
    ensures Effected(s, width, picks, false, false, false) == s
  {
  }

  /** No effect ever writes an alpha byte. */
  lemma AlphaUntouched(s: seq<Byte>, width: nat, picks: seq<bool>,
                       noiseOn: bool, invertOn: bool, embossOn: bool, k: nat)
    requires |s| % 4 == 0 && |picks| == |s| / 4 && k < |s| && IsAlpha(k)
    ensures Effected(s, width, picks, noiseOn, invertOn, embossOn)[k] == s[k]
  {
    var t := FirstPass(s, picks, noiseOn, invertOn);
    assert t[k] == s[k];
    if embossOn {
      assert Embossed(t, width)[k] == t[k];
    }
  }

  /** Inversion alone maps every colour byte c to 255 - c. */
  lemma InvertOnly(s: seq<Byte>, width: nat, picks: seq<bool>, k: nat)
    requires |s| % 4 == 0 && |picks| == |s| / 4 && k < |s|
    ensures Effected(s, width, picks, false, true, false)[k] == if IsAlpha(k) then s[k] else 255 - s[k]
  {
  }

  /** Inverting twice gives the buffer back. */
  lemma InvertTwice(s: seq<Byte>, picks: seq<bool>)
    requires |s| % 4 == 0 && |picks| == |s| / 4
    ensures FirstPass(FirstPass(s, picks, false, true), picks, false, true) == s
  {
  }

  /** Noise alone sets the colour bytes of the drawn pixels to 170 and leaves
      every other byte as it was. */
  lemma NoiseOnly(s: seq<Byte>, width: nat, picks: seq<bool>, k: nat)
    requires |s| % 4 == 0 && |picks| == |s| / 4 && k < |s|
    ensures var r := Effected(s, width, picks, true, false, false);
      r[k] == if !IsAlpha(k) && picks[k / 4] then 170 else s[k]
  {
  }

  /** Noise runs before inversion within a pixel, so a noised pixel inverted
      ends at 85 on every colour channel. */
  lemma NoisedThenInverted(s: seq<Byte>, width: nat, picks: seq<bool>, k: nat)
    requires |s| % 4 == 0 && |picks| == |s| / 4 && k < |s|
    requires !IsAlpha(k) && picks[k / 4]
    ensures Effected(s, width, picks, true, true, false)[k] == 85
  {
  }

  /** The switch of the random test matters only with noise on. */
  lemma PicksIgnoredWithoutNoise(s: seq<Byte>, width: nat, picks: seq<bool>, other: seq<bool>,
                                 invertOn: bool, embossOn: bool)
    requires |s| % 4 == 0 && |picks| == |s| / 4 && |other| == |picks|
    ensures Effected(s, width, picks, false, invertOn, embossOn)
         == Effected(s, width, other, false, invertOn, embossOn)
  {
    assert FirstPass(s, picks, false, invertOn) == FirstPass(s, other, false, invertOn);
  }

  /** Embossing a single colour gives 127 on every colour byte that has both
      neighbours. */
  lemma EmbossUniform(s: seq<Byte>, width: nat, colour: seq<Byte>, k: nat)
    requires |colour| == 4
    requires forall j :: 0 <= j < |s| ==> s[j] == colour[j % 4]
    requires k + 4 * width < |s| && 1 <= width && !IsAlpha(k)
    ensures Embossed(s, width)[k] == 127
  {
    assert s[k + 4] == colour[(k + 4) % 4] && (k + 4) % 4 == k % 4;
    assert s[k + 4 * width] == colour[(k + 4 * width) % 4] && (k + 4 * width) % 4 == k % 4;
    assert s[k] == colour[k % 4];
  }

  /** The colour bytes of the last row emboss to 0: their lower neighbour lies
      past the end of the buffer. */
  lemma EmbossLastRowBlack(s: seq<Byte>, width: nat, k: nat)
    requires k < |s| && |s| <= k + 4 * width && !IsAlpha(k)
    ensures Embossed(s, width)[k] == 0
  {
  }
}
