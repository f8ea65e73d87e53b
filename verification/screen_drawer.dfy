/** The per-frame stage passes of `ScreenDrawer` in rasterizer.py. Each pass is a state
    transformer on the frame store; the shaders, the session's coordinate map and the world-space
    snapshot are parameters. */
module ScreenDrawer {
  import opened Wrappers
  import opened Planes
  import opened FrameStore

  /** The shader instances the frame store owns. Their internals are not part of this model. */
  datatype Shaders<!C> = Shaders(
    stack: C -> C,                          // ShaderStack.run_shader_stack
    lighting: (Coord, C) -> C,              // PerPixelLightingShader.run_shader
    toneMap: C -> C,                        // ToneMapShader.run_shader
    floatToRgb: C -> C,                     // FloatToRGBShader.run_shader
    motionBlur: (C, Option<C>) -> Option<C>, // MotionBlurShader.run_shader; None in = one-argument form, None out = falsy
    sprites: (Coord, C) -> Option<Plane<C>>) // SpriteShader.run_shader; None = no texture dictionary

  /** What the output controller is asked to do. */
  datatype Event<C> = DrawPixel(coord: Coord, colour: C) | Show

  /** The decimation of `object_colour_pass`: every 16th world-space point is drawn. */
  const ObjectStride: nat := 16

  /** Whether the point at position `i` of the world-space snapshot is among those drawn. */
  predicate Sampled(i: int) {
    i % ObjectStride == 0
  }

  /** `x` is the item of `s` at a sampled position that lands in slot `j` of the slice. */
  ghost predicate SampledAt<T>(s: seq<T>, j: int, x: T) {
    exists i :: 0 <= i < |s| && Sampled(i) && i / ObjectStride == j && s[i] == x
  }

  /** `list(...)[::16]`: every sampled item of `s` is kept, in order, in the slot its position
      divided by the stride names, and every slot holds a sampled item. */
  function EveryNth<T>(s: seq<T>): (r: seq<T>)
    ensures forall i :: 0 <= i < |s| && Sampled(i) ==> i / ObjectStride < |r| && r[i / ObjectStride] == s[i]
    ensures forall j :: 0 <= j < |r| ==> SampledAt(s, j, r[j])
  {
    var r := seq((|s| + ObjectStride - 1) / ObjectStride,
                 j requires 0 <= j < (|s| + ObjectStride - 1) / ObjectStride => s[ObjectStride * j]);
    forall j | 0 <= j < |r|
      ensures SampledAt(s, j, r[j])
    {
      var i := ObjectStride * j;
      assert 0 <= i < |s| && Sampled(i) && i / ObjectStride == j && s[i] == r[j];
    }
    r
  }

  /** Slot `j` of the slice holds item `16 * j` of the input. */
  lemma EveryNthAt<T>(s: seq<T>, j: int)
    requires 0 <= j < |EveryNth(s)|
    ensures ObjectStride * j < |s| && EveryNth(s)[j] == s[ObjectStride * j]
  {
    assert SampledAt(s, j, EveryNth(s)[j]);
    var i :| 0 <= i < |s| && Sampled(i) && i / ObjectStride == j && s[i] == EveryNth(s)[j];
    assert i == ObjectStride * j;
  }

  /** `object_colour_pass`: writes every 16th point of the world-space snapshot (in its insertion
      order) into the render plane; the other points are not drawn this frame. */
  function ObjectColourPass<C>(f: FrameBuffer<C>, world: Plane<C>): (r: FrameBuffer<C>)
    ensures forall i :: 0 <= i < |world.keys| && Sampled(i) ==>
      Get(r.render, world.keys[i]) == Get(world, world.keys[i])
    ensures forall i :: 0 <= i < |world.keys| && !Sampled(i) ==>
      Get(r.render, world.keys[i]) == Get(f.render, world.keys[i])
    ensures forall d :: d !in world.keys ==> Get(r.render, d) == Get(f.render, d)
    ensures forall d :: d in f.render.keys ==> d in r.render.keys
    ensures r.(render := f.render) == f
  {
    var sampled := EveryNth(Items(world));
    SampledHit(world, sampled);
    SampledMiss(world, sampled);
    var r := WriteAllToRenderPlane(f, sampled);
    forall d | d in f.render.keys
      ensures d in r.render.keys
    {
      assert Get(r.render, d).Some?;
    }
    r
  }

  /** The sampled points have distinct coordinates: the world's keys are distinct. */
  lemma SampledDistinct<C>(world: Plane<C>, sampled: seq<(Coord, C)>)
    requires sampled == EveryNth(Items(world))
    ensures Distinct(KeysOf(sampled))
  {
    forall a, b | 0 <= a < b < |sampled|
      ensures KeysOf(sampled)[a] != KeysOf(sampled)[b]
    {
      EveryNthAt(Items(world), a);
      EveryNthAt(Items(world), b);
      assert world.keys[ObjectStride * a] != world.keys[ObjectStride * b];
    }
  }

  /** Each sampled coordinate's last write is its own colour. */
  lemma SampledHit<C>(world: Plane<C>, sampled: seq<(Coord, C)>)
    requires sampled == EveryNth(Items(world))
    ensures forall i :: 0 <= i < |world.keys| && Sampled(i) ==>
      world.keys[i] in KeysOf(sampled) && Lookup(sampled, world.keys[i]) == Get(world, world.keys[i])
  {
    SampledDistinct(world, sampled);
    forall i | 0 <= i < |world.keys| && Sampled(i)
      ensures world.keys[i] in KeysOf(sampled) && Lookup(sampled, world.keys[i]) == Get(world, world.keys[i])
    {
      var j := i / ObjectStride;
      assert ObjectStride * j == i && j < |sampled|;
      assert KeysOf(sampled)[j] == world.keys[i];
      LookupDistinct(sampled, j);
    }
  }

  /** No world coordinate outside the sample, and nothing outside the world, is written. */
  lemma SampledMiss<C>(world: Plane<C>, sampled: seq<(Coord, C)>)
    requires sampled == EveryNth(Items(world))
    ensures forall i :: 0 <= i < |world.keys| && !Sampled(i) ==> world.keys[i] !in KeysOf(sampled)
    ensures forall d :: d !in world.keys ==> d !in KeysOf(sampled)
  {
    forall i | 0 <= i < |world.keys| && !Sampled(i)
      ensures world.keys[i] !in KeysOf(sampled)
    {
      forall j | 0 <= j < |sampled|
        ensures KeysOf(sampled)[j] != world.keys[i]
      {
        EveryNthAt(Items(world), j);
        assert ObjectStride * j != i;
        assert KeysOf(sampled)[j] == world.keys[ObjectStride * j];
      }
    }
  }

  /** `background_shader_pass`: for each coordinate of the coordinate map, in order, the render
      pixel becomes the shader stack applied to its current value (blank when unset). It is a full
      fill: every listed coordinate ends up in the render plane. */
  function BackgroundShaderPass<C>(f: FrameBuffer<C>, coordMap: seq<Coord>, stack: C -> C): (r: FrameBuffer<C>)
    decreases |coordMap|
    ensures forall d :: d in coordMap ==> d in r.render.keys
    ensures forall d :: d !in coordMap ==> Get(r.render, d) == Get(f.render, d)
    ensures Distinct(coordMap) ==>
      forall d :: d in coordMap ==> Get(r.render, d) == Some(stack(GetFromRenderPlane(f, d)))
    ensures r.(render := f.render) == f
  {
    if |coordMap| == 0 then f
    else
      var n := |coordMap| - 1;
      var c := coordMap[n];
      SplitLast(coordMap);
      var g := BackgroundShaderPass(f, coordMap[..n], stack);
      WriteToRenderPlane(g, c, stack(GetFromRenderPlane(g, c)))
  }

  /** `lighting_pass`: every render pixel `x` at `c` becomes `lighting(c, x)`; no key is added and
      the order is kept. */
  function LightingPass<C>(f: FrameBuffer<C>, lighting: (Coord, C) -> C): (r: FrameBuffer<C>)
    ensures r.render.keys == f.render.keys
    ensures forall c :: c in f.render.keys ==> Get(r.render, c) == Some(lighting(c, f.render.px[c]))
    ensures r.(render := f.render) == f
  {
    RelabelInPlace(f.render, lighting);
    WriteAllToRenderPlane(f, Relabel(f.render, lighting))
  }

  /** `tone_map_pass`: every render pixel `x` becomes `toneMap(x)`; no key is added and the order
      is kept. */
  function ToneMapPass<C>(f: FrameBuffer<C>, toneMap: C -> C): (r: FrameBuffer<C>)
    ensures r.render.keys == f.render.keys
    ensures forall c :: c in f.render.keys ==> Get(r.render, c) == Some(toneMap(f.render.px[c]))
    ensures r.(render := f.render) == f
  {
    var g := (c: Coord, x: C) => toneMap(x);
    RelabelInPlace(f.render, g);
    WriteAllToRenderPlane(f, Relabel(f.render, g))
  }

  /** `float_to_rgb_pass`: converts the pixels of the FRONT buffer, whichever buffer is active,
      and writes them through `write_to_buffer` into the active one. */
  function FloatToRgbPass<C>(f: FrameBuffer<C>, floatToRgb: C -> C): (r: FrameBuffer<C>)
    ensures forall c :: c in f.front.keys ==> GetFromBuffer(r, c) == Some(floatToRgb(f.front.px[c]))
    ensures forall c :: c !in f.front.keys ==> GetFromBuffer(r, c) == GetFromBuffer(f, c)
    ensures f.frontActive ==> r.front.keys == f.front.keys
    ensures r.frontActive == f.frontActive && Inactive(r) == Inactive(f)
    ensures r.texture == f.texture && r.render == f.render && r.previous == f.previous && r.blank == f.blank
  {
    var g := (c: Coord, x: C) => floatToRgb(x);
    var items := Relabel(f.front, g);
    RelabelInPlace(f.front, g);
    forall c | c in f.front.keys
      ensures Lookup(items, c) == Some(floatToRgb(f.front.px[c]))
    {
      var i :| 0 <= i < |f.front.keys| && f.front.keys[i] == c;
      LookupDistinct(items, i);
    }
    WriteAllToBuffer(f, items)
  }

  /** `write_texture`: overlays the texture plane on the active buffer. */
  function WriteTexture<C>(f: FrameBuffer<C>): (r: FrameBuffer<C>)
    ensures forall c :: GetFromBuffer(r, c) == if c in f.texture.keys then Get(f.texture, c) else GetFromBuffer(f, c)
    ensures r.frontActive == f.frontActive && Inactive(r) == Inactive(f)
    ensures r.texture == f.texture && r.render == f.render && r.previous == f.previous && r.blank == f.blank
  {
    TexelsLandAsStored(ReturnBuffer(f), f.texture);
    WriteAllToBuffer(f, Items(f.texture))
  }

  /** Reference reading of `sprite_pass`'s writes: the texels of every sprite texture found for the
      given buffer items, in order. */
  function SpriteTexels<C>(items: seq<(Coord, C)>, sprites: (Coord, C) -> Option<Plane<C>>): seq<(Coord, C)>
    decreases |items|
  {
    if |items| == 0 then []
    else
      var last := items[|items| - 1];
      SpriteTexels(items[..|items| - 1], sprites)
        + match sprites(last.0, last.1) case Some(t) => Items(t) case None => []
  }

  /** The sprite fold over some buffer items, one `write_texture_to_buffer` per item. */
  function SpriteFold<C>(f: FrameBuffer<C>, items: seq<(Coord, C)>, sprites: (Coord, C) -> Option<Plane<C>>): (r: FrameBuffer<C>)
    decreases |items|
    ensures !f.frontActive ==> r == f
    ensures f.frontActive ==> r == f.(texture := WriteAll(f.texture, SpriteTexels(items, sprites)))
  {
    if |items| == 0 then f
    else
      var n := |items| - 1;
      var g := SpriteFold(f, items[..n], sprites);
      var tex := sprites(items[n].0, items[n].1);
      var texels := match tex case Some(t) => Items(t) case None => [];
      WriteAllAppend(f.texture, SpriteTexels(items[..n], sprites), texels);
      assert tex.None? ==> WriteAll(g.texture, texels) == g.texture;
      WriteTextureToBufferIsWriteAll(g, items[n].0, tex);
      WriteTextureToBuffer(g, items[n].0, tex)
  }

  /** `write_texture_to_buffer` is the batch write of the texture's items through the gate. */
  lemma WriteTextureToBufferIsWriteAll<C>(f: FrameBuffer<C>, anchor: Coord, tex: Option<Plane<C>>)
    ensures f.frontActive && tex.Some? ==> WriteTextureToBuffer(f, anchor, tex) == f.(texture := WriteAll(f.texture, Items(tex.value)))
  {
  }

  /** `sprite_pass`: looks up a sprite texture for every pixel of the FRONT buffer and writes the
      texels into the texture plane through the front-gated write: nothing at all happens while
      the back buffer is active; otherwise only the texture plane changes, later sprites
      overwriting earlier ones. */
  function SpritePass<C>(f: FrameBuffer<C>, sprites: (Coord, C) -> Option<Plane<C>>): (r: FrameBuffer<C>)
    ensures !f.frontActive ==> r == f
    ensures f.frontActive ==> r == f.(texture := WriteAll(f.texture, SpriteTexels(Items(f.front), sprites)))
  {
    SpriteFold(f, Items(f.front), sprites)
  }

  /** The blur fold over previous-frame items: each item's shader result, when there is one,
      replaces the render pixel; the render pixel is read as it stands at that moment. */
  function BlurFold<C>(f: FrameBuffer<C>, items: seq<(Coord, C)>, blur: (C, Option<C>) -> Option<C>): (r: FrameBuffer<C>)
    decreases |items|
    ensures forall d :: d !in KeysOf(items) ==> Get(r.render, d) == Get(f.render, d)
    ensures Distinct(KeysOf(items)) ==> forall i :: 0 <= i < |items| ==>
      Get(r.render, items[i].0) == BlurredPixel(items[i].1, Get(f.render, items[i].0), blur)
    ensures r.(render := f.render) == f
  {
    if |items| == 0 then f
    else
      var n := |items| - 1;
      var (c, prior) := items[n];
      assert KeysOf(items) == KeysOf(items[..n]) + [c];
      assert Distinct(KeysOf(items)) ==> Distinct(KeysOf(items[..n])) && c !in KeysOf(items[..n]);
      var g := BlurFold(f, items[..n], blur);
      match blur(prior, Get(g.render, c))
      case Some(v) => WriteToRenderPlane(g, c, v)
      case None => g
  }

  /** Reference: the render pixel after one blur step, given the previous-frame colour and the
      current render pixel (if any). A falsy shader result leaves the pixel as it was. */
  function BlurredPixel<C>(prior: C, now: Option<C>, blur: (C, Option<C>) -> Option<C>): Option<C> {
    match blur(prior, now)
    case Some(v) => Some(v)
    case None => now
  }

  /** `motion_blur_pass`: for every previous-frame pixel, runs the blur shader with the render
      pixel at the same coordinate when there is one (the two-argument form) and without it
      otherwise, and writes the result when it is not empty. Coordinates outside the previous
      frame are untouched. */
  function MotionBlurPass<C>(f: FrameBuffer<C>, motionBlur: (C, Option<C>) -> Option<C>): (r: FrameBuffer<C>)
    ensures forall d :: d !in f.previous.keys ==> Get(r.render, d) == Get(f.render, d)
    ensures forall d :: d in f.previous.keys ==>
      Get(r.render, d) == BlurredPixel(f.previous.px[d], Get(f.render, d), motionBlur)
    ensures r.(render := f.render) == f
  {
    var items := Items(ReturnPreviousFrame(f));
    var r := BlurFold(f, items, motionBlur);
    assert forall d :: d in f.previous.keys ==> Get(r.render, d) == BlurredPixel(f.previous.px[d], Get(f.render, d), motionBlur) by {
      forall d | d in f.previous.keys
        ensures Get(r.render, d) == BlurredPixel(f.previous.px[d], Get(f.render, d), motionBlur)
      {
        var i :| 0 <= i < |f.previous.keys| && f.previous.keys[i] == d;
        assert items[i].0 == d;
      }
    }
    r
  }

  /** `lensing_pass`: like the motion blur pass but always with the one-argument shader form, so
      the current render pixel plays no part in the colour written. */
  function LensingPass<C>(f: FrameBuffer<C>, motionBlur: (C, Option<C>) -> Option<C>): (r: FrameBuffer<C>)
    ensures forall d :: d !in f.previous.keys ==> Get(r.render, d) == Get(f.render, d)
    ensures forall d :: d in f.previous.keys && motionBlur(f.previous.px[d], None).Some? ==>
      Get(r.render, d) == motionBlur(f.previous.px[d], None)
    ensures forall d :: d in f.previous.keys && motionBlur(f.previous.px[d], None).None? ==>
      Get(r.render, d) == Get(f.render, d)
    ensures r.(render := f.render) == f
  {
    var items := Items(ReturnPreviousFrame(f));
    var oneArgument := (prior: C, now: Option<C>) => motionBlur(prior, None);
    var r := BlurFold(f, items, oneArgument);
    forall d | d in f.previous.keys
      ensures Get(r.render, d) == BlurredPixel(f.previous.px[d], Get(f.render, d), oneArgument)
    {
      var i :| 0 <= i < |f.previous.keys| && f.previous.keys[i] == d;
      assert items[i].0 == d;
    }
    r
  }

  /** `buffer_scan`: one draw per pixel of the active buffer, in insertion order, then `show`. */
  function BufferScan<C>(f: FrameBuffer<C>): (r: seq<Event<C>>)
    ensures |r| == |ReturnBuffer(f).keys| + 1
    ensures r[|r| - 1] == Show
    ensures forall i :: 0 <= i < |r| - 1 ==>
      r[i].DrawPixel? && r[i].coord == ReturnBuffer(f).keys[i] && GetFromBuffer(f, r[i].coord) == Some(r[i].colour)
  {
    var b := ReturnBuffer(f);
    seq(|b.keys|, i requires 0 <= i < |b.keys| => DrawPixel(b.keys[i], b.px[b.keys[i]])) + [Show]
  }

  /** The scan draws exactly the pixels the active buffer holds, each coordinate once, so the
      output sees what `get_from_buffer` would return. */
  lemma ScanDrawsBufferExactly<C>(f: FrameBuffer<C>)
    ensures forall c :: GetFromBuffer(f, c).Some? ==>
      exists i :: 0 <= i < |BufferScan(f)| - 1 && BufferScan(f)[i] == DrawPixel(c, GetFromBuffer(f, c).value)
    ensures forall i :: 0 <= i < |BufferScan(f)| - 1 ==>
      BufferScan(f)[i].DrawPixel? && GetFromBuffer(f, BufferScan(f)[i].coord) == Some(BufferScan(f)[i].colour)
    ensures forall i, j :: 0 <= i < j < |BufferScan(f)| - 1 ==> BufferScan(f)[i].coord != BufferScan(f)[j].coord
  {
    var r := BufferScan(f);
    var b := ReturnBuffer(f);
    forall c | GetFromBuffer(f, c).Some?
      ensures exists i :: 0 <= i < |r| - 1 && r[i] == DrawPixel(c, GetFromBuffer(f, c).value)
    {
      var i :| 0 <= i < |b.keys| && b.keys[i] == c;
      assert r[i] == DrawPixel(c, GetFromBuffer(f, c).value);
    }
  }
}
