/** The frame composition of src/canvas.js: draw() runs its layers in a fixed
    order, the bar layer advances the rotation angle, and the post-effects run
    last over the whole raster. The drawing calls themselves are foreign; the
    model logs which layers ran and with what geometry. */
module Render {
  import opened Samples
  import Raster

  /** Math.PI as written in the source's literals. */
  const Pi: real := 3.141592653589793

  /** The angle the bars turn by per second. */
  const AngleDelta: real := Pi / 36.0

  /** The visual switches the UI toggles. */
  datatype Params = Params(showGradient: bool, showBars: bool, showCircles: bool,
                           showNoise: bool, showInvert: bool, showEmboss: bool)

  /** The switches at start-up: bars only. */
  function Defaults(): (p: Params)
    ensures p.showBars && !p.showGradient && !p.showCircles
    ensures !p.showNoise && !p.showInvert && !p.showEmboss
  {
    Params(false, true, false, false, false, false)
  }

  /** One layer drawn by draw(). Bars records the bar heights and the rotation
      the bar layer was drawn at. */
  datatype Layer = Fade | Gradient | Bars(heights: seq<real>, rotation: real) | Circles | Objects | PostEffects

  /** The heights of the bars drawn for the samples, one per sample. */
  function Heights(audio: seq<Byte>): (h: seq<real>)
    ensures |h| == |audio|
    ensures forall i :: 0 <= i < |h| ==> MinHeight <= h[i] <= MaxHeight
  {
    seq(|audio|, i requires 0 <= i < |audio| => BarHeight(audio[i]))
  }

  /** The rotation after one frame: it grows by AngleDelta * dt when the bars
      are drawn, and is set back to 0 only when it lands exactly on 2 * Pi. */
  function Spun(angle: real, dt: real, showBars: bool): real {
    if !showBars then angle
    else if angle + AngleDelta * dt == Pi * 2.0 then 0.0
    else angle + AngleDelta * dt
  }

  /** The rotation moves only in frames that draw the bars. */
  lemma SpinOnlyWithBars(angle: real, dt: real)
    ensures Spun(angle, dt, false) == angle
    ensures dt != 0.0 && angle + AngleDelta * dt != Pi * 2.0 ==> Spun(angle, dt, true) != angle
  {
  }

  /** With dt >= 0 the angle never decreases except at the reset. */
  lemma SpinGrows(angle: real, dt: real, showBars: bool)
    requires 0.0 <= dt
    ensures Spun(angle, dt, showBars) == 0.0 || angle <= Spun(angle, dt, showBars)
  {
  }

  /** The reset is an exact comparison, so an angle that steps over 2 * Pi is
      never brought back into [0, 2 * Pi). */
  lemma SpinNotWrapped()
    ensures Spun(Pi * 2.0 - AngleDelta / 2.0, 1.0, true) > Pi * 2.0
    ensures Spun(Pi * 2.0 - AngleDelta, 1.0, true) == 0.0
  {
  }

  /** The layers one draw() call paints for the given switches, samples and
      rotation, in painting order. */
  function Layers(params: Params, audio: seq<Byte>, angle: real): seq<Layer> {
    [Fade] + (if params.showGradient then [Gradient] else [])
    + (if params.showBars then [Bars(Heights(audio), angle)] else [])
    + (if params.showCircles then [Circles] else [])
    + [Objects, PostEffects]
  }

  /** With the start-up switches a frame paints the fade, the bars, the
      objects and the post-effects, and the post-effects leave the raster as
      the drawing calls left it. */
  lemma DefaultsDrawBarsOnly(audio: seq<Byte>, angle: real, s: seq<Byte>, width: nat, picks: seq<bool>)
    requires |s| % 4 == 0 && |picks| == |s| / 4
    ensures Layers(Defaults(), audio, angle) == [Fade, Bars(Heights(audio), angle), Objects, PostEffects]
    ensures Raster.Effected(s, width, picks, Defaults().showNoise, Defaults().showInvert, Defaults().showEmboss) == s
  {
    Raster.NoEffectsIsIdentity(s, width, picks);
  }

  /** The layer order is fixed: background fade first, gradient, then the
      bars, then circles, then the game objects, and the post-effects last,
      each present exactly when its switch is on. */
  lemma LayerOrder(params: Params, audio: seq<Byte>, angle: real)
    ensures var l := Layers(params, audio, angle);
      l[0] == Fade && l[|l| - 1] == PostEffects && l[|l| - 2] == Objects
      && (Gradient in l <==> params.showGradient)
      && (Bars(Heights(audio), angle) in l <==> params.showBars)
      && (Circles in l <==> params.showCircles)
      && (params.showBars ==> l[if params.showGradient then 2 else 1] == Bars(Heights(audio), angle))
      && |l| == 3 + (if params.showGradient then 1 else 0) + (if params.showBars then 1 else 0)
                  + (if params.showCircles then 1 else 0)
  {
  }

  /** The canvas module's state: its size, its raster, the rotation of the bar
      layer and the log of layers painted so far. */
  class Canvas {
    const width: nat
    const height: nat
    const pixels: array<Byte>
    var angleOffset: real
    var painted: seq<Layer>

    /** Four bytes (RGBA) per pixel. */
    ghost predicate Valid()
      reads this
    {
      pixels.Length % 4 == 0 && pixels.Length / 4 == width * height
    }

    constructor (width: nat, height: nat)
      ensures Valid() && fresh(pixels)
      ensures this.width == width && this.height == height
      ensures angleOffset == 0.0 && painted == []
    {
      this.width := width;
      this.height := height;
      var count := width * height;
      pixels := new Byte[4 * count](_ => 0);
      angleOffset := 0.0;
      painted := [];
    }

    /** The fade to black and the optional gradient. */
    method Background(params: Params)
      modifies this`painted
      ensures painted == old(painted) + [Fade] + (if params.showGradient then [Gradient] else [])
    {
      painted := painted + [Fade];
      if params.showGradient {
        painted := painted + [Gradient];
      }
    }

    /** The bar layer, drawn at the current rotation, which then advances; and
        the circle layer. */
    method Visualizer(params: Params, audio: seq<Byte>, deltaTime: real)
      modifies this`painted, this`angleOffset
      ensures painted == old(painted) + (if params.showBars then [Bars(Heights(audio), old(angleOffset))] else [])
                                       + (if params.showCircles then [Circles] else [])
      ensures angleOffset == Spun(old(angleOffset), deltaTime, params.showBars)
    {
      if params.showBars {
        var numOfBar := |audio|;
        var heights: seq<real> := [];
        for i := 0 to numOfBar
          invariant heights == Heights(audio[..i])
        {
          var h := (MaxHeight - MinHeight) * audio[i] as real / 255.0 + MinHeight;
          heights := heights + [h];
        }
        assert audio[..numOfBar] == audio;
        painted := painted + [Bars(heights, angleOffset)];
        angleOffset := angleOffset + AngleDelta * deltaTime;
        if angleOffset == Pi * 2.0 {
          angleOffset := 0.0;
        }
      }
      if params.showCircles {
        painted := painted + [Circles];
      }
    }

    /** The game objects layer. */
    method Objects()
      modifies this`painted
      ensures painted == old(painted) + [Layer.Objects]
    {
      painted := painted + [Layer.Objects];
    }

    /** The post-effects over the raster. */
    method Effects(params: Params, picks: seq<bool>)
      requires Valid() && |picks| == pixels.Length / 4
      modifies this`painted, pixels
      ensures painted == old(painted) + [PostEffects]
      ensures pixels[..] == Raster.Effected(old(pixels[..]), width, picks,
                                            params.showNoise, params.showInvert, params.showEmboss)
    {
      Raster.Effects(pixels, width, picks, params.showNoise, params.showInvert, params.showEmboss);
      painted := painted + [PostEffects];
    }

    /** One draw() call. rendered is the raster the foreign drawing calls of the
        first three layers leave; the post-effects then rewrite it. */
    method Draw(params: Params, audio: seq<Byte>, deltaTime: real, rendered: seq<Byte>, picks: seq<bool>)
      requires Valid() && |rendered| == pixels.Length && |picks| == pixels.Length / 4
      modifies this`painted, this`angleOffset, pixels
      ensures painted == old(painted) + Layers(params, audio, old(angleOffset))
      ensures angleOffset == Spun(old(angleOffset), deltaTime, params.showBars)
      ensures pixels[..] == Raster.Effected(rendered, width, picks,
                                            params.showNoise, params.showInvert, params.showEmboss)
    {
      ghost var before := painted;
      Background(params);
      Visualizer(params, audio, deltaTime);
      Objects();
      ghost var drawn := painted;
      Rasterize(rendered);
      Effects(params, picks);
      assert painted == drawn + [PostEffects];
      assert painted == before + Layers(params, audio, old(angleOffset));
    }

    /** What the foreign drawing calls leave in the raster. */
    method Rasterize(rendered: seq<Byte>)
      requires |rendered| == pixels.Length
      modifies pixels
      ensures pixels[..] == rendered
    {
      forall k | 0 <= k < pixels.Length {
        pixels[k] := rendered[k];
      }
    }
  }
}
