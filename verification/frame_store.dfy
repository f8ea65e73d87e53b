/** The double-buffered frame store (`FrameBuffer` in rasterizer.py): two display buffers, a
    texture plane, a render plane, the previous frame, the blank pixel and the flag saying which
    display buffer is active. Every operation is a pure state transformer or, for the reads
    (`GetFromRenderPlane`, `GetFromBuffer`, `ReturnBuffer`, `ReturnPreviousFrame`), a query. */
module FrameStore {
  import opened Wrappers
  import opened Planes

  datatype FrameBuffer<C> = FrameBuffer(
    front: Plane<C>,
    back: Plane<C>,
    texture: Plane<C>,
    render: Plane<C>,
    previous: Plane<C>,
    blank: C,
    frontActive: bool)

  /** A fresh store: every plane empty, the front buffer active. */
  function Init<C>(blank: C): (r: FrameBuffer<C>)
    ensures r.frontActive && r.blank == blank
    ensures forall c :: Get(r.front, c) == None && Get(r.back, c) == None && Get(r.texture, c) == None
    ensures forall c :: Get(r.render, c) == None && Get(r.previous, c) == None
  {
    FrameBuffer(Empty(), Empty(), Empty(), Empty(), Empty(), blank, true)
  }

  /** `return_buffer`: the display buffer the flag selects. */
  function ReturnBuffer<C>(f: FrameBuffer<C>): Plane<C> {
    if f.frontActive then f.front else f.back
  }

  /** The display buffer the flag does not select. */
  function Inactive<C>(f: FrameBuffer<C>): Plane<C> {
    if f.frontActive then f.back else f.front
  }

  /** Replaces the active display buffer. */
  function WithActive<C>(f: FrameBuffer<C>, p: Plane<C>): FrameBuffer<C> {
    if f.frontActive then f.(front := p) else f.(back := p)
  }

  /** `log_current_frame`: the previous frame becomes a copy of the render plane. */
  function LogCurrentFrame<C>(f: FrameBuffer<C>): (r: FrameBuffer<C>)
    ensures forall c :: Get(r.previous, c) == Get(f.render, c)
    ensures r.previous.keys == f.render.keys
    ensures r.(previous := f.previous) == f
  {
    f.(previous := f.render)
  }

  /** `return_previous_frame` */
  function ReturnPreviousFrame<C>(f: FrameBuffer<C>): (r: Plane<C>)
    ensures forall c :: Get(r, c) == Get(f.previous, c)
  {
    f.previous
  }

  /** `write_to_render_plane`: upserts one render-plane pixel. */
  function WriteToRenderPlane<C>(f: FrameBuffer<C>, c: Coord, v: C): (r: FrameBuffer<C>)
    ensures Get(r.render, c) == Some(v)
    ensures forall d :: d != c ==> Get(r.render, d) == Get(f.render, d)
    ensures r.(render := f.render) == f
  {
    f.(render := Write(f.render, c, v))
  }

  /** `write_to_previous_frame`: upserts one previous-frame pixel. */
  function WriteToPreviousFrame<C>(f: FrameBuffer<C>, c: Coord, v: C): (r: FrameBuffer<C>)
    ensures Get(r.previous, c) == Some(v)
    ensures forall d :: d != c ==> Get(r.previous, d) == Get(f.previous, d)
    ensures r.(previous := f.previous) == f
  {
    f.(previous := Write(f.previous, c, v))
  }

  /** `get_from_render_plane`: the stored colour, or exactly the blank pixel when the coordinate
      has not been written. */
  function GetFromRenderPlane<C>(f: FrameBuffer<C>, c: Coord): (r: C)
    ensures c in f.render.keys ==> r == f.render.px[c]
    ensures c !in f.render.keys ==> r == f.blank
  {
    Get(f.render, c).GetOr(f.blank)
  }

  /** `get_from_buffer`: reads the buffer the flag selects; `None`, not blank, when absent. */
  function GetFromBuffer<C>(f: FrameBuffer<C>, c: Coord): (r: Option<C>)
    ensures f.frontActive ==> (r.Some? <==> c in f.front.keys) && (r.Some? ==> r.value == f.front.px[c])
    ensures !f.frontActive ==> (r.Some? <==> c in f.back.keys) && (r.Some? ==> r.value == f.back.px[c])
  {
    if f.frontActive then Get(f.front, c) else Get(f.back, c)
  }

  /** Reading a pixel of the store and reading the plane `return_buffer` hands out agree. */
  lemma GetFromBufferReadsReturnBuffer<C>(f: FrameBuffer<C>, c: Coord)
    ensures GetFromBuffer(f, c) == Get(ReturnBuffer(f), c)
  {
  }

  /** `write_to_buffer`: upserts one pixel of the active buffer only. */
  function WriteToBuffer<C>(f: FrameBuffer<C>, c: Coord, v: C): (r: FrameBuffer<C>)
    ensures GetFromBuffer(r, c) == Some(v)
    ensures forall d :: d != c ==> GetFromBuffer(r, d) == GetFromBuffer(f, d)
    ensures r.frontActive == f.frontActive && Inactive(r) == Inactive(f)
    ensures r.texture == f.texture && r.render == f.render && r.previous == f.previous && r.blank == f.blank
  {
    if f.frontActive then f.(front := Write(f.front, c, v))
    else f.(back := Write(f.back, c, v))
  }

  /** `blit_render_plane_to_buffer`: the active buffer becomes a copy of the render plane. */
  function BlitRenderPlaneToBuffer<C>(f: FrameBuffer<C>): (r: FrameBuffer<C>)
    ensures forall c :: GetFromBuffer(r, c) == Get(f.render, c)
    ensures ReturnBuffer(r).keys == f.render.keys
    ensures r.frontActive == f.frontActive && Inactive(r) == Inactive(f)
    ensures r.texture == f.texture && r.render == f.render && r.previous == f.previous && r.blank == f.blank
  {
    if f.frontActive then f.(front := f.render) else f.(back := f.render)
  }

  /** `flip_buffers`: negates the flag and touches no plane. */
  function FlipBuffers<C>(f: FrameBuffer<C>): (r: FrameBuffer<C>)
    ensures r.frontActive == !f.frontActive
    ensures r.(frontActive := f.frontActive) == f
    ensures ReturnBuffer(r) == Inactive(f) && Inactive(r) == ReturnBuffer(f)
  {
    f.(frontActive := !f.frontActive)
  }

  /** Flipping twice restores the store, so writes before and after two flips reach the same
      physical buffer. */
  lemma FlipTwice<C>(f: FrameBuffer<C>, c: Coord, v: C)
    ensures FlipBuffers(FlipBuffers(f)) == f
    ensures WriteToBuffer(FlipBuffers(FlipBuffers(f)), c, v) == WriteToBuffer(f, c, v)
  {
  }

  /** `flush_buffer`: empties the render plane, the texture plane and the ACTIVE buffer; the
      inactive buffer, the previous frame and the flag survive. */
  function FlushBuffer<C>(f: FrameBuffer<C>): (r: FrameBuffer<C>)
    ensures forall c :: Get(r.render, c) == None && Get(r.texture, c) == None && GetFromBuffer(r, c) == None
    ensures Inactive(r) == Inactive(f)
    ensures r.previous == f.previous && r.frontActive == f.frontActive && r.blank == f.blank
  {
    var g := f.(render := Empty(), texture := Empty());
    if f.frontActive then g.(front := Empty()) else g.(back := Empty())
  }

  /** `write_to_texture`: upserts one texture pixel, but only while the front buffer is active;
      otherwise nothing changes. */
  function WriteToTexture<C>(f: FrameBuffer<C>, c: Coord, v: C): (r: FrameBuffer<C>)
    ensures !f.frontActive ==> r == f
    ensures f.frontActive ==> Get(r.texture, c) == Some(v)
    ensures f.frontActive ==> forall d :: d != c ==> Get(r.texture, d) == Get(f.texture, d)
    ensures r.(texture := f.texture) == f
  {
    if f.frontActive then f.(texture := Write(f.texture, c, v)) else f
  }

  /** `for c, x in items: write_to_render_plane(c, x)` */
  function WriteAllToRenderPlane<C>(f: FrameBuffer<C>, items: seq<(Coord, C)>): (r: FrameBuffer<C>)
    decreases |items|
    ensures r == f.(render := WriteAll(f.render, items))
  {
    if |items| == 0 then f
    else
      var g := WriteAllToRenderPlane(f, items[..|items| - 1]);
      WriteToRenderPlane(g, items[|items| - 1].0, items[|items| - 1].1)
  }

  /** `for c, x in items: write_to_buffer(c, x)`: the writes land in the buffer active at the
      start, and nothing else changes. */
  function WriteAllToBuffer<C>(f: FrameBuffer<C>, items: seq<(Coord, C)>): (r: FrameBuffer<C>)
    decreases |items|
    ensures r == WithActive(f, WriteAll(ReturnBuffer(f), items))
  {
    if |items| == 0 then f
    else
      var g := WriteAllToBuffer(f, items[..|items| - 1]);
      WriteToBuffer(g, items[|items| - 1].0, items[|items| - 1].1)
  }

  /** `for c, x in items: write_to_texture(c, x)`: all of them land while the front buffer is
      active, none otherwise. */
  function WriteAllToTexture<C>(f: FrameBuffer<C>, items: seq<(Coord, C)>): (r: FrameBuffer<C>)
    decreases |items|
    ensures f.frontActive ==> r == f.(texture := WriteAll(f.texture, items))
    ensures !f.frontActive ==> r == f
  {
    if |items| == 0 then f
    else
      var g := WriteAllToTexture(f, items[..|items| - 1]);
      WriteToTexture(g, items[|items| - 1].0, items[|items| - 1].1)
  }

  /** `write_texture_to_buffer`: copies a sprite's texture, when there is one, into the texture
      plane through the front-gated write. The anchor coordinate is not used. */
  function WriteTextureToBuffer<C>(f: FrameBuffer<C>, anchor: Coord, tex: Option<Plane<C>>): (r: FrameBuffer<C>)
    ensures tex.None? || !f.frontActive ==> r == f
    ensures tex.Some? && f.frontActive ==>
      forall d :: Get(r.texture, d) == if d in tex.value.keys then Get(tex.value, d) else Get(f.texture, d)
    ensures r.(texture := f.texture) == f
  {
    match tex
    case None => f
    case Some(t) =>
      var r := WriteAllToTexture(f, Items(t));
      assert r.texture == WriteAll(f.texture, Items(t)) || !f.frontActive;
      TexelsLandAsStored(f.texture, t);
      r
  }

  /** Writing a whole plane's items onto another overlays it: its keys take its colours. */
  lemma TexelsLandAsStored<C>(p: Plane<C>, t: Plane<C>)
    ensures forall d :: Get(WriteAll(p, Items(t)), d) == if d in t.keys then Get(t, d) else Get(p, d)
  {
    var items := Items(t);
    forall d | d in t.keys
      ensures Lookup(items, d) == Get(t, d)
    {
      var i :| 0 <= i < |t.keys| && t.keys[i] == d;
      LookupDistinct(items, i);
    }
  }

  /** `render_render_plane_to_buffer`: a full scan of the coordinate map. Every listed coordinate
      gets the render-plane colour, or blank where the render plane has none; buffer pixels at
      other coordinates and the inactive buffer are left alone. */
  function RenderRenderPlaneToBuffer<C>(f: FrameBuffer<C>, coordMap: seq<Coord>): (r: FrameBuffer<C>)
    ensures forall c :: c in coordMap ==> GetFromBuffer(r, c) == Some(GetFromRenderPlane(f, c))
    ensures forall c :: c !in coordMap ==> GetFromBuffer(r, c) == GetFromBuffer(f, c)
    ensures r.frontActive == f.frontActive && Inactive(r) == Inactive(f)
    ensures r.texture == f.texture && r.render == f.render && r.previous == f.previous && r.blank == f.blank
  {
    var items := seq(|coordMap|, i requires 0 <= i < |coordMap| => (coordMap[i], GetFromRenderPlane(f, coordMap[i])));
    CommitLookup(f, coordMap, items);
    WriteAllToBuffer(f, items)
  }

  /** The commit's writes pair every coordinate with its own render-plane colour, so the last
      write at a listed coordinate carries that colour. */
  lemma {:induction false} CommitLookup<C>(f: FrameBuffer<C>, coordMap: seq<Coord>, items: seq<(Coord, C)>)
    requires |items| == |coordMap|
    requires forall i :: 0 <= i < |items| ==> items[i] == (coordMap[i], GetFromRenderPlane(f, coordMap[i]))
    ensures KeysOf(items) == coordMap
    ensures forall c :: c in coordMap ==> Lookup(items, c) == Some(GetFromRenderPlane(f, c))
    decreases |items|
  {
    assert KeysOf(items) == coordMap;
    if |items| > 0 {
      var n := |items| - 1;
      CommitLookup(f, coordMap[..n], items[..n]);
    }
  }
}
