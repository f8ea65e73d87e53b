/** The frame loop of `ScreenDrawer`: the configurable render stack, the dispatch of one stage
    name to its pass, one frame as a left fold of that dispatch over the stack, and the bounded
    loop of `draw`. */
module Pipeline {
  import opened Wrappers
  import opened Planes
  import FS = FrameStore
  import SD = ScreenDrawer

  /** The stage names `draw` may find in the render stack. */
  datatype Stage =
    | SpritePass | WriteTexture | FloatToRgbPass | ObjectColourPass | BackgroundShaderPass
    | LightingPass | ToneMapPass | BufferScan | BufferFlip | LogCurrentFrame | BlitRenderPlane
    | RenderFrameBuffer | MotionBlurPass | LensingPass | FlushBuffer

  /** The parts of the session the core reads. */
  datatype Session = Session(coordMap: seq<Coord>, renderingOn: bool)

  /** A store after some stages, with the output events those stages produced. */
  datatype Outcome<C> = Outcome(frame: FS.FrameBuffer<C>, events: seq<SD.Event<C>>)

  /** The render stack `ScreenDrawer` is constructed with. */
  const DefaultRenderStack: seq<Stage> := [
    BackgroundShaderPass, ObjectColourPass, LogCurrentFrame, ToneMapPass,
    RenderFrameBuffer, FloatToRgbPass, BufferScan, FlushBuffer]

  /** The number of iterations of `draw`. */
  const MaxFrames: nat := 8192

  /** Plane `t` holds nothing that `u` does not hold with the same colour. */
  ghost predicate SubPlane<C>(t: Plane<C>, u: Plane<C>) {
    forall c :: c in t.keys ==> Get(t, c) == Get(u, c)
  }

  /** A stage that only transforms the store. */
  type Pass<!C> = FS.FrameBuffer<C> -> FS.FrameBuffer<C>

  /** What each stage name stands for. */
  type Registry<!C> = Stage -> Pass<C>

  /** `getattr(self, render_stage)`: the pass a stage name stands for, as a closure over the
      session, the shaders and the world-space snapshot. The scan's pass leaves the store as it
      is; its output is produced by `Step`. */
  function Resolve<C>(stage: Stage, session: Session, shaders: SD.Shaders<C>, world: Plane<C>): Pass<C> {
    match stage
    case SpritePass => g => SD.SpritePass(g, shaders.sprites)
    case WriteTexture => g => SD.WriteTexture(g)
    case FloatToRgbPass => g => SD.FloatToRgbPass(g, shaders.floatToRgb)
    case ObjectColourPass => g => SD.ObjectColourPass(g, world)
    case BackgroundShaderPass => g => SD.BackgroundShaderPass(g, session.coordMap, shaders.stack)
    case LightingPass => g => SD.LightingPass(g, shaders.lighting)
    case ToneMapPass => g => SD.ToneMapPass(g, shaders.toneMap)
    case BufferScan => g => g
    case BufferFlip => g => FS.FlipBuffers(g)
    case LogCurrentFrame => g => FS.LogCurrentFrame(g)
    case BlitRenderPlane => g => FS.BlitRenderPlaneToBuffer(g)
    case RenderFrameBuffer => g => FS.RenderRenderPlaneToBuffer(g, session.coordMap)
    case MotionBlurPass => g => SD.MotionBlurPass(g, shaders.motionBlur)
    case LensingPass => g => SD.LensingPass(g, shaders.motionBlur)
    case FlushBuffer => g => FS.FlushBuffer(g)
  }

  /** The registry of a `ScreenDrawer` for one frame: every stage name resolved against the same
      session, shaders and world-space snapshot. */
  function Bind<C>(session: Session, shaders: SD.Shaders<C>, world: Plane<C>): Registry<C> {
    stage => Resolve(stage, session, shaders, world)
  }

  /** One stage of `[getattr(self, render_stage)() for render_stage in self.render_stack]`:
      only the scan talks to the output, and the scan leaves the store as it is. */
  function Step<C>(f: FS.FrameBuffer<C>, stage: Stage, passes: Registry<C>): (r: Outcome<C>)
    ensures stage != BufferScan ==> r.events == [] && r.frame == passes(stage)(f)
    ensures stage == BufferScan ==> r.frame == f && |r.events| == |FS.ReturnBuffer(f).keys| + 1
  {
    if stage == BufferScan then Outcome(f, SD.BufferScan(f))
    else Outcome(passes(stage)(f), [])
  }

  /** The scan stage hands the output every pixel the active buffer holds, each once and with the
      colour `get_from_buffer` returns, draws nothing else, and ends with `show`. */
  lemma StepScanDrawsBuffer<C>(f: FS.FrameBuffer<C>, passes: Registry<C>)
    ensures var e := Step(f, BufferScan, passes).events;
      && e[|e| - 1] == SD.Show
      && (forall i :: 0 <= i < |e| - 1 ==> e[i].DrawPixel? && FS.GetFromBuffer(f, e[i].coord) == Some(e[i].colour))
      && (forall i, j :: 0 <= i < j < |e| - 1 ==> e[i].coord != e[j].coord)
      && (forall c :: FS.GetFromBuffer(f, c).Some? ==>
            exists i :: 0 <= i < |e| - 1 && e[i] == SD.DrawPixel(c, FS.GetFromBuffer(f, c).value))
  {
    SD.ScanDrawsBufferExactly(f);
  }

  /** Only the flip changes the flag, no stage but the flip reaches the inactive buffer, and no
      stage changes the blank colour. */
  lemma StepKeepsRouting<C>(f: FS.FrameBuffer<C>, stage: Stage, session: Session, shaders: SD.Shaders<C>, world: Plane<C>)
    ensures var r := Step(f, stage, Bind(session, shaders, world));
      && r.frame.blank == f.blank
      && (stage != BufferFlip ==> r.frame.frontActive == f.frontActive && FS.Inactive(r.frame) == FS.Inactive(f))
  {}

  /** While the back buffer is active the texture plane can only lose pixels: no stage puts a
      texel into it. */
  lemma StepGatesTexture<C>(f: FS.FrameBuffer<C>, stage: Stage, session: Session, shaders: SD.Shaders<C>, world: Plane<C>)
    requires !f.frontActive
    ensures SubPlane(Step(f, stage, Bind(session, shaders, world)).frame.texture, f.texture)
  {}

  /** Of the stages, only `log_current_frame` writes the previous frame: every other stage leaves
      it as it was. */
  lemma StepKeepsPrevious<C>(f: FS.FrameBuffer<C>, stage: Stage, session: Session, shaders: SD.Shaders<C>, world: Plane<C>)
    ensures stage != LogCurrentFrame ==> Step(f, stage, Bind(session, shaders, world)).frame.previous == f.previous
  {}

  /** One frame: the stages run left to right, each on the store the previous one left, and
      their output events are concatenated. */
  function RunStages<C>(f: FS.FrameBuffer<C>, stages: seq<Stage>, passes: Registry<C>): Outcome<C>
    decreases |stages|
  {
    if |stages| == 0 then Outcome(f, [])
    else
      var x := Step(f, stages[0], passes);
      var y := RunStages(x.frame, stages[1..], passes);
      Outcome(y.frame, x.events + y.events)
  }

  /** A stack without `buffer_flip` keeps the flag, the inactive buffer and the blank colour. */
  lemma {:induction false} RunStagesKeepRouting<C>(f: FS.FrameBuffer<C>, stages: seq<Stage>, session: Session, shaders: SD.Shaders<C>, world: Plane<C>)
    requires BufferFlip !in stages
    ensures var r := RunStages(f, stages, Bind(session, shaders, world));
      r.frame.blank == f.blank && r.frame.frontActive == f.frontActive && FS.Inactive(r.frame) == FS.Inactive(f)
    decreases |stages|
  {
    if |stages| > 0 {
      var x := Step(f, stages[0], Bind(session, shaders, world));
      StepKeepsRouting(f, stages[0], session, shaders, world);
      assert BufferFlip !in stages[1..];
      RunStagesKeepRouting(x.frame, stages[1..], session, shaders, world);
    }
  }

  /** A stack without `log_current_frame` hands the previous frame on untouched, so the
      cross-frame passes of a later stage still see the frame that was logged. */
  lemma {:induction false} RunStagesKeepPrevious<C>(f: FS.FrameBuffer<C>, stages: seq<Stage>, session: Session, shaders: SD.Shaders<C>, world: Plane<C>)
    requires LogCurrentFrame !in stages
    ensures RunStages(f, stages, Bind(session, shaders, world)).frame.previous == f.previous
    decreases |stages|
  {
    if |stages| > 0 {
      var x := Step(f, stages[0], Bind(session, shaders, world));
      StepKeepsPrevious(f, stages[0], session, shaders, world);
      assert LogCurrentFrame !in stages[1..];
      RunStagesKeepPrevious(x.frame, stages[1..], session, shaders, world);
    }
  }

  /** Splitting a stack in two and running the halves one after the other is running the stack. */
  lemma {:induction false} RunStagesAppend<C>(f: FS.FrameBuffer<C>, a: seq<Stage>, b: seq<Stage>, passes: Registry<C>)
    ensures RunStages(f, a + b, passes) ==
      var x := RunStages(f, a, passes);
      var y := RunStages(x.frame, b, passes);
      Outcome(y.frame, x.events + y.events)
    decreases |a|
  {
    if |a| == 0 {
      assert a + b == b;
    } else {
      HeadOfAppend(a, b);
      var x := Step(f, a[0], passes);
      RunStagesAppend(x.frame, a[1..], b, passes);
      var rest := RunStages(x.frame, a[1..], passes);
      var tail := RunStages(rest.frame, b, passes);
      assert x.events + (rest.events + tail.events) == (x.events + rest.events) + tail.events;
    }
  }

  /** The first stage of `a + b` is that of `a`, and the stages after it are the rest of `a`
      followed by `b`. */
  lemma HeadOfAppend(a: seq<Stage>, b: seq<Stage>)
    requires |a| > 0
    ensures (a + b)[0] == a[0] && (a + b)[1..] == a[1..] + b
  {}

  /** Texture gating over a whole stack: while the back buffer stays active, no stage order puts
      a pixel into the texture plane. */
  lemma {:induction false} TextureGatedWhileBackActive<C>(f: FS.FrameBuffer<C>, stages: seq<Stage>, session: Session, shaders: SD.Shaders<C>, world: Plane<C>)
    requires !f.frontActive && BufferFlip !in stages
    ensures SubPlane(RunStages(f, stages, Bind(session, shaders, world)).frame.texture, f.texture)
    decreases |stages|
  {
    if |stages| > 0 {
      var passes := Bind(session, shaders, world);
      var x := Step(f, stages[0], passes);
      StepKeepsRouting(f, stages[0], session, shaders, world);
      StepGatesTexture(f, stages[0], session, shaders, world);
      assert BufferFlip !in stages[1..];
      TextureGatedWhileBackActive(x.frame, stages[1..], session, shaders, world);
      var r := RunStages(x.frame, stages[1..], passes);
      forall c | c in r.frame.texture.keys
        ensures Get(r.frame.texture, c) == Get(f.texture, c)
      {
        assert Get(r.frame.texture, c) == Get(x.frame.texture, c);
      }
    }
  }

  /** How many times the output is told to `show`. */
  function Presents<C>(events: seq<SD.Event<C>>): nat
    decreases |events|
  {
    if |events| == 0 then 0
    else (if events[0].Show? then 1 else 0) + Presents(events[1..])
  }

  /** How often `s` occurs in `stages`. */
  function Occurrences(stages: seq<Stage>, s: Stage): nat
    decreases |stages|
  {
    if |stages| == 0 then 0
    else (if stages[0] == s then 1 else 0) + Occurrences(stages[1..], s)
  }

  lemma {:induction false} PresentsAppend<C>(a: seq<SD.Event<C>>, b: seq<SD.Event<C>>)
    ensures Presents(a + b) == Presents(a) + Presents(b)
    decreases |a|
  {
    if |a| == 0 {
      assert a + b == b;
    } else {
      assert (a + b)[0] == a[0] && (a + b)[1..] == a[1..] + b;
      PresentsAppend(a[1..], b);
    }
  }

  /** A scan presents exactly once: its draws come first and `show` last. */
  lemma ScanPresentsOnce<C>(f: FS.FrameBuffer<C>)
    ensures Presents(SD.BufferScan(f)) == 1
  {
    var r := SD.BufferScan(f);
    var n := |r| - 1;
    assert r == r[..n] + [r[n]];
    NoShowAmongDraws(r[..n]);
    PresentsAppend(r[..n], [r[n]]);
  }

  lemma {:induction false} NoShowAmongDraws<C>(events: seq<SD.Event<C>>)
    requires forall i :: 0 <= i < |events| ==> events[i].DrawPixel?
    ensures Presents(events) == 0
    decreases |events|
  {
    if |events| > 0 {
      NoShowAmongDraws(events[1..]);
    }
  }

  /** Every `buffer_scan` in the stack presents once and nothing else presents, whatever the
      stages stand for. */
  lemma {:induction false} PresentsPerScan<C>(f: FS.FrameBuffer<C>, stages: seq<Stage>, passes: Registry<C>)
    ensures Presents(RunStages(f, stages, passes).events) == Occurrences(stages, BufferScan)
    decreases |stages|
  {
    if |stages| > 0 {
      var x := Step(f, stages[0], passes);
      var y := RunStages(x.frame, stages[1..], passes);
      PresentsPerScan(x.frame, stages[1..], passes);
      PresentsAppend(x.events, y.events);
      if stages[0] == BufferScan {
        ScanPresentsOnce(f);
      }
    }
  }

  /** The first `n` iterations of `draw`: a frame per iteration while rendering is on, with the
      registry of that iteration; nothing while it is off. */
  function RunFrames<C>(f: FS.FrameBuffer<C>, n: nat, stack: seq<Stage>, renderingOn: bool, registryAt: nat -> Registry<C>): Outcome<C>
    decreases n
  {
    if n == 0 then Outcome(f, [])
    else
      var x := RunFrames(f, n - 1, stack, renderingOn, registryAt);
      if renderingOn then
        var y := RunStages(x.frame, stack, registryAt(n - 1));
        Outcome(y.frame, x.events + y.events)
      else x
  }

  /** The registry of every iteration of `draw`, each bound to that iteration's world-space
      snapshot. */
  function Schedule<C>(session: Session, shaders: SD.Shaders<C>, worldAt: nat -> Plane<C>): nat -> Registry<C> {
    n => Bind(session, shaders, worldAt(n))
  }

  /** `draw`: 8192 iterations of the render stack. */
  function Draw<C>(f: FS.FrameBuffer<C>, stack: seq<Stage>, session: Session, shaders: SD.Shaders<C>, worldAt: nat -> Plane<C>): Outcome<C> {
    RunFrames(f, MaxFrames, stack, session.renderingOn, Schedule(session, shaders, worldAt))
  }

  lemma {:induction false} FramesIdle<C>(f: FS.FrameBuffer<C>, n: nat, stack: seq<Stage>, registryAt: nat -> Registry<C>)
    ensures RunFrames(f, n, stack, false, registryAt) == Outcome(f, [])
    decreases n
  {
    if n > 0 {
      FramesIdle(f, n - 1, stack, registryAt);
    }
  }

  lemma {:induction false} FramesPresent<C>(f: FS.FrameBuffer<C>, n: nat, stack: seq<Stage>, registryAt: nat -> Registry<C>)
    ensures Presents(RunFrames(f, n, stack, true, registryAt).events) == n * Occurrences(stack, BufferScan)
    decreases n
  {
    if n > 0 {
      var k := Occurrences(stack, BufferScan);
      var m := n - 1;
      FramesPresent(f, m, stack, registryAt);
      var x := RunFrames(f, m, stack, true, registryAt);
      var y := RunStages(x.frame, stack, registryAt(m));
      FramesSucc(f, m, stack, registryAt);
      PresentsPerScan(x.frame, stack, registryAt(m));
      PresentsAppend(x.events, y.events);
      MultiplySucc(m, k);
    }
  }

  /** With rendering on, one more iteration appends one more frame. */
  lemma FramesSucc<C>(f: FS.FrameBuffer<C>, m: nat, stack: seq<Stage>, registryAt: nat -> Registry<C>)
    ensures var x := RunFrames(f, m, stack, true, registryAt);
      RunFrames(f, m + 1, stack, true, registryAt).events ==
        x.events + RunStages(x.frame, stack, registryAt(m)).events
  {}

  lemma MultiplySucc(m: nat, k: nat)
    ensures (m + 1) * k == m * k + k
  {}

  /** With rendering on, `draw` presents once per scan stage per iteration; with it off, `draw`
      changes nothing and draws nothing. */
  lemma DrawPresents<C>(f: FS.FrameBuffer<C>, stack: seq<Stage>, session: Session, shaders: SD.Shaders<C>, worldAt: nat -> Plane<C>)
    ensures session.renderingOn ==>
      Presents(Draw(f, stack, session, shaders, worldAt).events) == MaxFrames * Occurrences(stack, BufferScan)
    ensures !session.renderingOn ==> Draw(f, stack, session, shaders, worldAt) == Outcome(f, [])
  {
    var registryAt := Schedule(session, shaders, worldAt);
    if session.renderingOn {
      FramesPresent(f, MaxFrames, stack, registryAt);
    } else {
      FramesIdle(f, MaxFrames, stack, registryAt);
    }
  }

  /** Running a stack that starts with `s` is running `s` and then the rest. */
  lemma RunStagesCons<C>(f: FS.FrameBuffer<C>, s: Stage, rest: seq<Stage>, passes: Registry<C>)
    ensures RunStages(f, [s] + rest, passes) ==
      var x := Step(f, s, passes);
      var y := RunStages(x.frame, rest, passes);
      Outcome(y.frame, x.events + y.events)
  {
    assert ([s] + rest)[0] == s && ([s] + rest)[1..] == rest;
  }

  /** A stack that starts with a pass other than the scan runs that pass and then the rest. */
  lemma PassThen<C>(f: FS.FrameBuffer<C>, s: Stage, rest: seq<Stage>, passes: Registry<C>)
    requires s != BufferScan
    ensures RunStages(f, [s] + rest, passes) == RunStages(passes(s)(f), rest, passes)
  {
    RunStagesCons(f, s, rest, passes);
    var y := RunStages(passes(s)(f), rest, passes);
    assert [] + y.events == y.events;
  }

  /** What a frame of the default stack leaves behind: every coordinate of the map drawn, `show`
      last, the working planes and the active buffer empty, and the map inside the previous
      frame. */
  ghost predicate Presented<C>(r: Outcome<C>, coordMap: seq<Coord>) {
    && |r.events| > 0
    && r.events[|r.events| - 1] == SD.Show
    && (forall c :: c in coordMap ==>
          exists i :: 0 <= i < |r.events| && r.events[i].DrawPixel? && r.events[i].coord == c)
    && (forall c :: Get(r.frame.render, c) == None && Get(r.frame.texture, c) == None && FS.GetFromBuffer(r.frame, c) == None)
    && (forall c :: c in coordMap ==> c in r.frame.previous.keys)
  }

  /** The default stack, one stage at a time. */
  lemma DefaultStackShape()
    ensures DefaultRenderStack == [BackgroundShaderPass] + DefaultRenderStack[1..]
    ensures DefaultRenderStack[1..] == [ObjectColourPass] + DefaultRenderStack[2..]
    ensures DefaultRenderStack[2..] == [LogCurrentFrame] + DefaultRenderStack[3..]
    ensures DefaultRenderStack[3..] == [ToneMapPass] + DefaultRenderStack[4..]
    ensures DefaultRenderStack[4..] == [RenderFrameBuffer] + DefaultRenderStack[5..]
    ensures DefaultRenderStack[5..] == [FloatToRgbPass] + DefaultRenderStack[6..]
    ensures DefaultRenderStack[6..] == [BufferScan] + [FlushBuffer]
    ensures BufferFlip !in DefaultRenderStack
    ensures LogCurrentFrame !in DefaultRenderStack[3..]
  {
    var d := DefaultRenderStack;
    forall k | 0 <= k < 8
      ensures d[k..] == [d[k]] + d[k + 1..]
    {}
    assert d[7..] == [FlushBuffer];
  }

  /** The passes the default stack names, each what the registry hands out for it. Naming the
      constructor first settles the dispatch before the solver looks at other branches. */
  lemma ResolvesBackground<C>(g: FS.FrameBuffer<C>, session: Session, shaders: SD.Shaders<C>, world: Plane<C>)
    ensures Bind(session, shaders, world)(BackgroundShaderPass)(g) == SD.BackgroundShaderPass(g, session.coordMap, shaders.stack)
  {
    var s := BackgroundShaderPass;
    assert s.BackgroundShaderPass?;
  }

  lemma ResolvesObjectColour<C>(g: FS.FrameBuffer<C>, session: Session, shaders: SD.Shaders<C>, world: Plane<C>)
    ensures Bind(session, shaders, world)(ObjectColourPass)(g) == SD.ObjectColourPass(g, world)
  {
    var s := ObjectColourPass;
    assert s.ObjectColourPass?;
  }

  lemma ResolvesLog<C>(g: FS.FrameBuffer<C>, session: Session, shaders: SD.Shaders<C>, world: Plane<C>)
    ensures Bind(session, shaders, world)(LogCurrentFrame)(g) == FS.LogCurrentFrame(g)
  {
    var s := LogCurrentFrame;
    assert s.LogCurrentFrame?;
  }

  lemma ResolvesToneMap<C>(g: FS.FrameBuffer<C>, session: Session, shaders: SD.Shaders<C>, world: Plane<C>)
    ensures Bind(session, shaders, world)(ToneMapPass)(g) == SD.ToneMapPass(g, shaders.toneMap)
  {
    var s := ToneMapPass;
    assert s.ToneMapPass?;
  }

  lemma ResolvesRenderFrameBuffer<C>(g: FS.FrameBuffer<C>, session: Session, shaders: SD.Shaders<C>, world: Plane<C>)
    ensures Bind(session, shaders, world)(RenderFrameBuffer)(g) == FS.RenderRenderPlaneToBuffer(g, session.coordMap)
  {
    var s := RenderFrameBuffer;
    assert s.RenderFrameBuffer?;
  }

  lemma ResolvesFloatToRgb<C>(g: FS.FrameBuffer<C>, session: Session, shaders: SD.Shaders<C>, world: Plane<C>)
    ensures Bind(session, shaders, world)(FloatToRgbPass)(g) == SD.FloatToRgbPass(g, shaders.floatToRgb)
  {
    var s := FloatToRgbPass;
    assert s.FloatToRgbPass?;
  }

  lemma ResolvesFlush<C>(g: FS.FrameBuffer<C>, session: Session, shaders: SD.Shaders<C>, world: Plane<C>)
    ensures Bind(session, shaders, world)(FlushBuffer)(g) == FS.FlushBuffer(g)
  {
    var s := FlushBuffer;
    assert s.FlushBuffer?;
  }

  /** The last two default stages, `buffer_scan` and `flush_buffer`. */
  lemma ScanThenFlush<C>(g: FS.FrameBuffer<C>, session: Session, shaders: SD.Shaders<C>, world: Plane<C>)
    requires forall c :: c in session.coordMap ==> FS.GetFromBuffer(g, c).Some? && c in g.previous.keys
    ensures Presented(RunStages(g, DefaultRenderStack[6..], Bind(session, shaders, world)), session.coordMap)
  {
    var passes := Bind(session, shaders, world);
    DefaultStackShape();
    RunStagesCons(g, BufferScan, [FlushBuffer], passes);
    assert [FlushBuffer] == [FlushBuffer] + [];
    PassThen(g, FlushBuffer, [], passes);
    ResolvesFlush(g, session, shaders, world);
    var r := RunStages(g, DefaultRenderStack[6..], passes);
    assert SD.BufferScan(g) + [] == SD.BufferScan(g);
    assert r.events == SD.BufferScan(g);
    assert r.frame == FS.FlushBuffer(g);
    SD.ScanDrawsBufferExactly(g);
    forall c | c in session.coordMap
      ensures exists i :: 0 <= i < |r.events| && r.events[i].DrawPixel? && r.events[i].coord == c
    {
      var i :| 0 <= i < |SD.BufferScan(g)| - 1 && SD.BufferScan(g)[i] == SD.DrawPixel(c, FS.GetFromBuffer(g, c).value);
      assert r.events[i].coord == c;
    }
  }

  /** A pass in front of a stack whose frame is presented keeps it presented. */
  lemma PresentedAfterPass<C>(f: FS.FrameBuffer<C>, stack: seq<Stage>, s: Stage, rest: seq<Stage>, g: FS.FrameBuffer<C>, passes: Registry<C>, coordMap: seq<Coord>)
    requires stack == [s] + rest && s != BufferScan && g == passes(s)(f)
    requires Presented(RunStages(g, rest, passes), coordMap)
    ensures Presented(RunStages(f, stack, passes), coordMap)
  {
    PassThen(f, s, rest, passes);
  }

  /** The default stack from `float_to_rgb_pass` on: converting keeps every buffered pixel. */
  lemma FromFloatToRgb<C>(g: FS.FrameBuffer<C>, session: Session, shaders: SD.Shaders<C>, world: Plane<C>)
    requires forall c :: c in session.coordMap ==> FS.GetFromBuffer(g, c).Some? && c in g.previous.keys
    ensures Presented(RunStages(g, DefaultRenderStack[5..], Bind(session, shaders, world)), session.coordMap)
  {
    var h := SD.FloatToRgbPass(g, shaders.floatToRgb);
    forall c | c in session.coordMap
      ensures FS.GetFromBuffer(h, c).Some? && c in h.previous.keys
    {
      if c !in g.front.keys {
        assert FS.GetFromBuffer(h, c) == FS.GetFromBuffer(g, c);
      }
    }
    ScanThenFlush(h, session, shaders, world);
    DefaultStackShape();
    ResolvesFloatToRgb(g, session, shaders, world);
    PresentedAfterPass(g, DefaultRenderStack[5..], FloatToRgbPass, DefaultRenderStack[6..], h, Bind(session, shaders, world), session.coordMap);
  }

  /** The default stack from `render_frame_buffer` on: the full scan fills the active buffer at
      every coordinate of the map. */
  lemma FromRenderFrameBuffer<C>(g: FS.FrameBuffer<C>, session: Session, shaders: SD.Shaders<C>, world: Plane<C>)
    requires forall c :: c in session.coordMap ==> c in g.previous.keys
    ensures Presented(RunStages(g, DefaultRenderStack[4..], Bind(session, shaders, world)), session.coordMap)
  {
    var h := FS.RenderRenderPlaneToBuffer(g, session.coordMap);
    FromFloatToRgb(h, session, shaders, world);
    DefaultStackShape();
    ResolvesRenderFrameBuffer(g, session, shaders, world);
    PresentedAfterPass(g, DefaultRenderStack[4..], RenderFrameBuffer, DefaultRenderStack[5..], h, Bind(session, shaders, world), session.coordMap);
  }

  /** The default stack from `tone_map_pass` on. */
  lemma FromToneMap<C>(g: FS.FrameBuffer<C>, session: Session, shaders: SD.Shaders<C>, world: Plane<C>)
    requires forall c :: c in session.coordMap ==> c in g.previous.keys
    ensures Presented(RunStages(g, DefaultRenderStack[3..], Bind(session, shaders, world)), session.coordMap)
  {
    var h := SD.ToneMapPass(g, shaders.toneMap);
    FromRenderFrameBuffer(h, session, shaders, world);
    DefaultStackShape();
    ResolvesToneMap(g, session, shaders, world);
    PresentedAfterPass(g, DefaultRenderStack[3..], ToneMapPass, DefaultRenderStack[4..], h, Bind(session, shaders, world), session.coordMap);
  }

  /** The default stack from `log_current_frame` on: logging copies the filled render plane into
      the previous frame. */
  lemma FromLog<C>(g: FS.FrameBuffer<C>, session: Session, shaders: SD.Shaders<C>, world: Plane<C>)
    requires forall c :: c in session.coordMap ==> c in g.render.keys
    ensures Presented(RunStages(g, DefaultRenderStack[2..], Bind(session, shaders, world)), session.coordMap)
  {
    var h := FS.LogCurrentFrame(g);
    FromToneMap(h, session, shaders, world);
    DefaultStackShape();
    ResolvesLog(g, session, shaders, world);
    PresentedAfterPass(g, DefaultRenderStack[2..], LogCurrentFrame, DefaultRenderStack[3..], h, Bind(session, shaders, world), session.coordMap);
  }

  /** The default stack from `object_colour_pass` on: writing object colours removes no pixel. */
  lemma FromObjectColour<C>(g: FS.FrameBuffer<C>, session: Session, shaders: SD.Shaders<C>, world: Plane<C>)
    requires forall c :: c in session.coordMap ==> c in g.render.keys
    ensures Presented(RunStages(g, DefaultRenderStack[1..], Bind(session, shaders, world)), session.coordMap)
  {
    var h := SD.ObjectColourPass(g, world);
    FromLog(h, session, shaders, world);
    DefaultStackShape();
    ResolvesObjectColour(g, session, shaders, world);
    PresentedAfterPass(g, DefaultRenderStack[1..], ObjectColourPass, DefaultRenderStack[2..], h, Bind(session, shaders, world), session.coordMap);
  }

  /** After one frame of the default render stack every coordinate of the coordinate map has
      been drawn, the frame ends with `show`, the working planes and the active buffer are empty
      again, and the previous frame holds a render plane filled over the whole map. */
  lemma DefaultFrameCoversScreen<C>(f: FS.FrameBuffer<C>, session: Session, shaders: SD.Shaders<C>, world: Plane<C>)
    ensures Presented(RunStages(f, DefaultRenderStack, Bind(session, shaders, world)), session.coordMap)
  {
    var h := SD.BackgroundShaderPass(f, session.coordMap, shaders.stack);
    FromObjectColour(h, session, shaders, world);
    DefaultStackShape();
    ResolvesBackground(f, session, shaders, world);
    PresentedAfterPass(f, DefaultRenderStack, BackgroundShaderPass, DefaultRenderStack[1..], h, Bind(session, shaders, world), session.coordMap);
  }

  /** The default frame leaves the flag, the inactive buffer and the blank colour as they were:
      the next frame draws into the same buffer. */
  lemma DefaultFrameKeepsRouting<C>(f: FS.FrameBuffer<C>, session: Session, shaders: SD.Shaders<C>, world: Plane<C>)
    ensures var r := RunStages(f, DefaultRenderStack, Bind(session, shaders, world));
      r.frame.frontActive == f.frontActive && FS.Inactive(r.frame) == FS.Inactive(f) && r.frame.blank == f.blank
  {
    DefaultStackShape();
    RunStagesKeepRouting(f, DefaultRenderStack, session, shaders, world);
  }

  /** The previous frame a default frame leaves behind is the render plane as it stood right after
      `object_colour_pass`: the later passes rewrite the render plane but not the logged copy. */
  lemma DefaultFrameLogsObjectPass<C>(f: FS.FrameBuffer<C>, session: Session, shaders: SD.Shaders<C>, world: Plane<C>)
    ensures RunStages(f, DefaultRenderStack, Bind(session, shaders, world)).frame.previous ==
      SD.ObjectColourPass(SD.BackgroundShaderPass(f, session.coordMap, shaders.stack), world).render
  {
    var passes := Bind(session, shaders, world);
    var h1 := SD.BackgroundShaderPass(f, session.coordMap, shaders.stack);
    var h2 := SD.ObjectColourPass(h1, world);
    var h3 := FS.LogCurrentFrame(h2);
    DefaultStackShape();
    ResolvesBackground(f, session, shaders, world);
    PassThen(f, BackgroundShaderPass, DefaultRenderStack[1..], passes);
    ResolvesObjectColour(h1, session, shaders, world);
    PassThen(h1, ObjectColourPass, DefaultRenderStack[2..], passes);
    ResolvesLog(h2, session, shaders, world);
    PassThen(h2, LogCurrentFrame, DefaultRenderStack[3..], passes);
    RunStagesKeepPrevious(h3, DefaultRenderStack[3..], session, shaders, world);
  }
}
