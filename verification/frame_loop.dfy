/** The viewer's frame loop: start-up (scene, programs, first uniform
    pushes), then one `tick()` per frame — diff and push, advance the tick,
    draw the background with the depth test off and the fireball with it on —
    carried out against the abstract GL state through the shader-program
    model. */
module FrameLoop {
  import opened Values
  import opened GlState
  import opened ShaderProgram
  import opened Controls
  import opened FrameDiff

  /** The geometry collaborator: `new Icosphere(center, radius, level)`
      followed by `create()`, reduced to the mesh it hands to `draw`. */
  type MeshBuilder = int -> Drawable

  /** An icosphere and its uploaded mesh. */
  datatype Icosphere = Icosphere(center: Vec3, radius: real, level: int, mesh: Drawable)

  /** The only icosphere the viewer builds: centre (0,0,0), radius 1. */
  function NewIcosphere(level: int, build: MeshBuilder): Icosphere {
    Icosphere(Origin, 1.0, level, build(level))
  }

  /** Everything `tick()` reads or writes. */
  datatype App = App(
    live: Snapshot,
    committed: Snapshot,
    heap: Heap,
    tickCount: int,
    icosphere: Icosphere,
    square: Drawable,
    fireball: Program,
    background: Program,
    gl: Gl)

  function ProgramOf(s: App, t: Target): Program {
    match t
    case Fireball => s.fireball
    case Background => s.background
  }

  /** Two distinct, well-formed programs. */
  ghost predicate ProgramsValid(s: App) {
    s.fireball.WellFormed() && s.background.WellFormed() && s.fireball.prog != s.background.prog
  }

  /** Carry out one action. */
  function Apply(a: Action, s: App, build: MeshBuilder): App {
    match a
    case Rebuild(level) => s.(icosphere := NewIcosphere(level, build))
    case Push(t, u, v) => s.(gl := SetUniform(ProgramOf(s, t), u, v, s.gl))
  }

  /** The level of the last rebuild in a list of actions. */
  function LastRebuild(acts: seq<Action>): Option<int> {
    if acts == [] then None
    else if acts[|acts| - 1].Rebuild? then Some(acts[|acts| - 1].level)
    else LastRebuild(acts[..|acts| - 1])
  }

  /** The value of the last push to one uniform of one program. */
  function LastPush(acts: seq<Action>, t: Target, u: Uniform): Option<UniformValue> {
    if acts == [] then None
    else
      var a := acts[|acts| - 1];
      if a.Push? && a.target == t && a.slot == u then Some(a.value)
      else LastPush(acts[..|acts| - 1], t, u)
  }

  /** Carry out a list of actions in order. Only the icosphere and the
      program and uniform parts of the GL state change. */
  function ApplyAll(acts: seq<Action>, s: App, build: MeshBuilder): (r: App)
    ensures r == s.(gl := r.gl, icosphere := r.icosphere)
    ensures r.gl == s.gl.(active := r.gl.active, useLog := r.gl.useLog, uniforms := r.gl.uniforms)
    ensures r.icosphere == (if LastRebuild(acts).Some? then NewIcosphere(LastRebuild(acts).value, build) else s.icosphere)
  {
    if acts == [] then s
    else Apply(acts[|acts| - 1], ApplyAll(acts[..|acts| - 1], s, build), build)
  }

  /** After a list of actions, a present uniform slot holds the last value
      pushed to it, and every other location is as it was. */
  lemma {:induction false} ApplyAllSlot(acts: seq<Action>, s: App, build: MeshBuilder, t: Target, u: Uniform)
    requires ProgramsValid(s)
    ensures var l := Location(ProgramOf(s, t).prog, u);
            Lookup(ApplyAll(acts, s, build).gl.uniforms, l)
            == (if ProgramOf(s, t).Slot(u).JsLocation? && LastPush(acts, t, u).Some? then LastPush(acts, t, u)
                else Lookup(s.gl.uniforms, l))
    decreases |acts|
  {
    if acts != [] {
      var prefix := acts[..|acts| - 1];
      var a := acts[|acts| - 1];
      var mid := ApplyAll(prefix, s, build);
      ApplyAllSlot(prefix, s, build, t, u);
      var l := Location(ProgramOf(s, t).prog, u);
      if a.Push? {
        var p := ProgramOf(mid, a.target);
        assert p.WellFormed();
        if l != Location(p.prog, a.slot) {
          SetUniformWritesOwnSlot(p, a.slot, a.value, mid.gl, l);
        } else {
          assert a.target == t && a.slot == u;
          assert p.Slot(u) == JsNull || p.Slot(u) == JsLocation(l);
        }
      }
    }
  }

  /** `LastRebuild` finds a rebuild exactly when there is one, and the level
      it finds is one that was asked for. */
  lemma {:induction false} LastRebuildSound(acts: seq<Action>)
    ensures LastRebuild(acts).Some? <==> exists a :: a in acts && a.Rebuild?
    ensures LastRebuild(acts).Some? ==> Rebuild(LastRebuild(acts).value) in acts
  {
    if acts != [] {
      var prefix := acts[..|acts| - 1];
      LastRebuildSound(prefix);
      assert acts == prefix + [acts[|acts| - 1]];
    }
  }

  /** `LastPush` finds a push exactly when there is one to that uniform of
      that program, and the value it finds is one that was pushed. */
  lemma {:induction false} LastPushSound(acts: seq<Action>, t: Target, u: Uniform)
    ensures LastPush(acts, t, u).Some? <==> exists v :: Push(t, u, v) in acts
    ensures LastPush(acts, t, u).Some? ==> Push(t, u, LastPush(acts, t, u).value) in acts
  {
    if acts != [] {
      var prefix := acts[..|acts| - 1];
      LastPushSound(prefix, t, u);
      assert acts == prefix + [acts[|acts| - 1]];
      if LastPush(acts, t, u).None? {
        forall v ensures Push(t, u, v) !in acts {
          assert Push(t, u, v) !in prefix;
        }
      }
    }
  }

  /** The uniforms of a program the snapshot feeds hold the snapshot's
      values (those the program declares). */
  ghost predicate Holds(g: Gl, p: Program, u: Uniform, v: UniformValue) {
    p.Slot(u).JsLocation? ==> Lookup(g.uniforms, Location(p.prog, u)) == Some(v)
  }

  /** The GPU-side uniforms agree with the committed snapshot, read through
      the current contents of its colour arrays. */
  ghost predicate InSync(s: App)
    requires ColorsAllocated(s.committed, s.heap)
  {
    forall t, u :: u in FedBy(t) ==> Holds(s.gl, ProgramOf(s, t), u, SlotValue(u, s.committed, s.heap))
  }

  /** `renderer.render(camera, prog, drawables)` after pushing the view
      projection: for each drawable, the identity model matrix and a draw. */
  function DrawAll(p: Program, ds: seq<Drawable>, g: Gl): (r: Gl)
    ensures ds == [] ==> r == g
    ensures ds != [] ==> r.active == Some(p.prog) && r.enabled == g.enabled - p.Present()
    ensures r.depthTest == g.depthTest
    ensures |r.draws| == |g.draws| + |ds| && r.draws[..|g.draws|] == g.draws
    ensures forall k :: |g.draws| <= k < |r.draws| ==> DrawOf(r.draws[k], p, ds[k - |g.draws|], g.depthTest)
    ensures forall l :: (!p.unifModel.JsLocation? || l != p.unifModel.loc)
                     && (!p.unifModelInvTr.JsLocation? || l != p.unifModelInvTr.loc)
                     ==> Lookup(r.uniforms, l) == Lookup(g.uniforms, l)
    decreases |ds|
  {
    if ds == [] then g
    else
      var g1 := DrawAll(p, ds[..|ds| - 1], g);
      var g2 := SetModelMatrix(p, Identity, g1);
      var r := Draw(p, ds[|ds| - 1], g2);
      DrawAllStep(p, ds, g, g1, r);
      r
  }

  /** A logged draw of drawable `d` by program `p`, with the depth test as
      given. */
  ghost predicate DrawOf(c: DrawCall, p: Program, d: Drawable, depthTest: bool) {
    && c.prog == Some(p.prog)
    && c.elements == Some(IndexBuffer(d.mesh))
    && c.mode == d.mode
    && c.count == d.count
    && c.indexType == UNSIGNED_INT
    && c.depthTest == depthTest
  }

  /** The draw log grows by one well-formed entry per drawable. */
  lemma DrawAllStep(p: Program, ds: seq<Drawable>, g: Gl, g1: Gl, r: Gl)
    requires ds != []
    requires |g1.draws| == |g.draws| + |ds| - 1 && g1.draws[..|g.draws|] == g.draws
    requires forall k :: |g.draws| <= k < |g1.draws| ==> DrawOf(g1.draws[k], p, ds[..|ds| - 1][k - |g.draws|], g.depthTest)
    requires g1.depthTest == g.depthTest
    requires r == Draw(p, ds[|ds| - 1], SetModelMatrix(p, Identity, g1))
    ensures |r.draws| == |g.draws| + |ds| && r.draws[..|g.draws|] == g.draws
    ensures forall k :: |g.draws| <= k < |r.draws| ==> DrawOf(r.draws[k], p, ds[k - |g.draws|], g.depthTest)
  {
    var g2 := SetModelMatrix(p, Identity, g1);
    assert g2.draws == g1.draws && g2.depthTest == g1.depthTest;
    assert r.draws == g1.draws + [r.draws[|g1.draws|]];
    forall k | |g.draws| <= k < |r.draws|
      ensures DrawOf(r.draws[k], p, ds[k - |g.draws|], g.depthTest)
    {
      if k < |g1.draws| {
        assert r.draws[k] == g1.draws[k];
        assert ds[..|ds| - 1][k - |g.draws|] == ds[k - |g.draws|];
      }
    }
  }

  /** `renderer.render(camera, prog, drawables)`. */
  function Render(p: Program, vp: Matrix, ds: seq<Drawable>, g: Gl): (r: Gl)
    ensures r.active == Some(p.prog) && r.depthTest == g.depthTest
    ensures |r.draws| == |g.draws| + |ds| && r.draws[..|g.draws|] == g.draws
    ensures forall k :: |g.draws| <= k < |r.draws| ==> DrawOf(r.draws[k], p, ds[k - |g.draws|], g.depthTest)
    ensures p.WellFormed() ==> forall l: Location :: !(l.prog == p.prog && l.uniform in {Model, ModelInvTr, ViewProj}) ==>
              Lookup(r.uniforms, l) == Lookup(g.uniforms, l)
    ensures p.WellFormed() && p.unifViewProj.JsLocation? ==> Lookup(r.uniforms, p.unifViewProj.loc) == Some(MatrixValue(vp))
  {
    var g1 := SetViewProjMatrix(p, vp, g);
    var r := DrawAll(p, ds, g1);
    RenderFrame(p, vp, ds, g, r);
    r
  }

  /** The uniforms `Render` leaves alone: all but the three matrices of the
      program. */
  lemma RenderFrame(p: Program, vp: Matrix, ds: seq<Drawable>, g: Gl, r: Gl)
    requires r == DrawAll(p, ds, SetViewProjMatrix(p, vp, g))
    ensures p.WellFormed() ==> forall l: Location :: !(l.prog == p.prog && l.uniform in {Model, ModelInvTr, ViewProj}) ==>
              Lookup(r.uniforms, l) == Lookup(g.uniforms, l)
    ensures p.WellFormed() && p.unifViewProj.JsLocation? ==> Lookup(r.uniforms, p.unifViewProj.loc) == Some(MatrixValue(vp))
  {
    if p.WellFormed() {
      var g1 := SetViewProjMatrix(p, vp, g);
      if p.unifViewProj.JsLocation? {
        assert p.Slot(ViewProj) == p.unifViewProj;
        assert p.unifViewProj != p.unifModel && p.unifViewProj != p.unifModelInvTr by {
          assert p.Slot(Model) == p.unifModel && p.Slot(ModelInvTr) == p.unifModelInvTr;
        }
      }
      assert p.Slot(Model) == p.unifModel && p.Slot(ModelInvTr) == p.unifModelInvTr && p.Slot(ViewProj) == p.unifViewProj;
      forall l: Location | !(l.prog == p.prog && l.uniform in {Model, ModelInvTr, ViewProj})
        ensures Lookup(r.uniforms, l) == Lookup(g.uniforms, l)
      {
        assert l != Location(p.prog, ViewProj) && l != Location(p.prog, Model) && l != Location(p.prog, ModelInvTr);
        SetUniformWritesOwnSlot(p, ViewProj, MatrixValue(vp), g, l);
      }
    }
  }

  /** One call of `tick()` (camera, stats, viewport and clear aside): the
      diff block, the tick, the background drawn with the depth test off,
      then the fireball with it on. */
  function Frame(s: App, vp: Matrix, build: MeshBuilder): (r: App)
    requires ColorsAllocated(s.live, s.heap)
    ensures r.live == s.live && r.heap == s.heap && r.square == s.square
    ensures r.fireball == s.fireball && r.background == s.background
    ensures r.committed == s.live
    ensures r.tickCount == s.tickCount + 1
    ensures r.icosphere == (if s.live.tesselations != s.committed.tesselations
                            then NewIcosphere(s.live.tesselations, build) else s.icosphere)
    ensures s.live.tesselations != s.committed.tesselations ==>
              r.icosphere.center == Vec3(0.0, 0.0, 0.0) && r.icosphere.radius == 1.0
              && r.icosphere.level == s.live.tesselations
    ensures r.gl.depthTest
    ensures |r.gl.draws| == |s.gl.draws| + 2 && r.gl.draws[..|s.gl.draws|] == s.gl.draws
    ensures r.gl.draws[|s.gl.draws|].prog == Some(s.background.prog)
    ensures r.gl.draws[|s.gl.draws|].elements == Some(IndexBuffer(s.square.mesh))
    ensures !r.gl.draws[|s.gl.draws|].depthTest
    ensures r.gl.draws[|s.gl.draws| + 1].prog == Some(s.fireball.prog)
    ensures r.gl.draws[|s.gl.draws| + 1].elements == Some(IndexBuffer(r.icosphere.mesh.mesh))
    ensures r.gl.draws[|s.gl.draws| + 1].depthTest
  {
    var step := DiffStep(s.live, s.committed, s.heap, s.tickCount);
    var s1 := ApplyAll(step.actions, s.(committed := step.committed, tickCount := step.tickCount), build);
    RebuildOfStep(s.live, s.committed, s.heap, s.tickCount);
    var g1 := SetDepthTest(s1.gl, false);
    var g2 := Render(s1.background, vp, [s1.square], g1);
    var g3 := SetDepthTest(g2, true);
    var g4 := Render(s1.fireball, vp, [s1.icosphere.mesh], g3);
    s1.(gl := g4)
  }

  /** The step rebuilds once, at the live level, exactly when the
      tessellation changed. */
  lemma RebuildOfStep(live: Snapshot, committed: Snapshot, heap: Heap, tickCount: int)
    requires ColorsAllocated(live, heap)
    ensures LastRebuild(DiffStep(live, committed, heap, tickCount).actions)
            == (if live.tesselations != committed.tesselations then Some(live.tesselations) else None)
  {
    var acts := DiffStep(live, committed, heap, tickCount).actions;
    LastRebuildSound(acts);
  }

  /** An unchanged field feeds the same value it fed before. */
  lemma UnchangedFieldSameValue(u: Uniform, live: Snapshot, committed: Snapshot, heap: Heap)
    requires ColorsAllocated(live, heap) && ColorsAllocated(committed, heap) && FieldFor(u).Some?
    requires !Differs(FieldFor(u).value, live, committed)
    ensures SlotValue(u, live, heap) == SlotValue(u, committed, heap)
  {
  }

  /** The last push the step makes to a fed uniform is the live value when
      its field changed, and there is none otherwise. */
  lemma StepLastPush(live: Snapshot, committed: Snapshot, heap: Heap, tickCount: int, t: Target, u: Uniform)
    requires ColorsAllocated(live, heap) && u in FedBy(t)
    ensures FieldFor(u).Some?
    ensures LastPush(DiffStep(live, committed, heap, tickCount).actions, t, u)
            == (if Differs(FieldFor(u).value, live, committed) then Some(SlotValue(u, live, heap)) else None)
  {
    var acts := DiffStep(live, committed, heap, tickCount).actions;
    LastPushSound(acts, t, u);
    FedUniformsHaveFields(t, u);
  }

  /** The tick push is the last push to the tick uniform. */
  lemma StepLastTick(live: Snapshot, committed: Snapshot, heap: Heap, tickCount: int)
    requires ColorsAllocated(live, heap)
    ensures LastPush(DiffStep(live, committed, heap, tickCount).actions, Fireball, Tick)
            == Some(FloatValue((tickCount + 1) as real))
  {
  }

  /** What a frame leaves at a fed or tick uniform: the value the actions
      left there, since rendering only writes the matrices. */
  lemma FrameSlot(s: App, vp: Matrix, build: MeshBuilder, t: Target, u: Uniform)
    requires ColorsAllocated(s.live, s.heap) && ProgramsValid(s)
    requires u !in {Model, ModelInvTr, ViewProj}
    ensures var step := DiffStep(s.live, s.committed, s.heap, s.tickCount);
            var s0 := s.(committed := step.committed, tickCount := step.tickCount);
            Lookup(Frame(s, vp, build).gl.uniforms, Location(ProgramOf(s, t).prog, u))
            == Lookup(ApplyAll(step.actions, s0, build).gl.uniforms, Location(ProgramOf(s, t).prog, u))
  {
    var step := DiffStep(s.live, s.committed, s.heap, s.tickCount);
    var s1 := ApplyAll(step.actions, s.(committed := step.committed, tickCount := step.tickCount), build);
    var g1 := SetDepthTest(s1.gl, false);
    var g2 := Render(s1.background, vp, [s1.square], g1);
    var g3 := SetDepthTest(g2, true);
    var g4 := Render(s1.fireball, vp, [s1.icosphere.mesh], g3);
    assert Frame(s, vp, build).gl == g4;
    var l := Location(ProgramOf(s, t).prog, u);
    assert Lookup(g2.uniforms, l) == Lookup(g1.uniforms, l);
    assert Lookup(g4.uniforms, l) == Lookup(g3.uniforms, l);
  }

  /** One fed uniform after a frame: it held the committed value, it now
      holds the live one, which the frame committed. */
  lemma FrameSyncsSlot(s: App, vp: Matrix, build: MeshBuilder, t: Target, u: Uniform)
    requires ProgramsValid(s)
    requires ColorsAllocated(s.live, s.heap) && ColorsAllocated(s.committed, s.heap)
    requires u in FedBy(t)
    requires Holds(s.gl, ProgramOf(s, t), u, SlotValue(u, s.committed, s.heap))
    ensures var r := Frame(s, vp, build);
            ColorsAllocated(r.committed, r.heap) && Holds(r.gl, ProgramOf(r, t), u, SlotValue(u, r.committed, r.heap))
  {
    FedUniformsHaveFields(t, u);
    var step := DiffStep(s.live, s.committed, s.heap, s.tickCount);
    var s0 := s.(committed := step.committed, tickCount := step.tickCount);
    var p := ProgramOf(s, t);
    if p.Slot(u).JsLocation? {
      var l := Location(p.prog, u);
      var want := SlotValue(u, s.live, s.heap);
      assert Lookup(ApplyAll(step.actions, s0, build).gl.uniforms, l) == Some(want) by {
        assert ProgramOf(s0, t) == p;
        ApplyAllSlot(step.actions, s0, build, t, u);
        StepLastPush(s.live, s.committed, s.heap, s.tickCount, t, u);
        if !Differs(FieldFor(u).value, s.live, s.committed) {
          UnchangedFieldSameValue(u, s.live, s.committed, s.heap);
        }
      }
      assert Lookup(Frame(s, vp, build).gl.uniforms, l) == Some(want) by {
        FrameSlot(s, vp, build, t, u);
      }
    }
    var r := Frame(s, vp, build);
    assert ProgramOf(r, t) == p && r.committed == s.live && r.heap == s.heap;
  }

  /** A frame brings the shaders in line with the live snapshot: if they
      held the committed values before, they hold the live ones after. */
  lemma FrameKeepsInSync(s: App, vp: Matrix, build: MeshBuilder)
    requires ProgramsValid(s)
    requires ColorsAllocated(s.live, s.heap) && ColorsAllocated(s.committed, s.heap)
    requires InSync(s)
    ensures ColorsAllocated(Frame(s, vp, build).committed, Frame(s, vp, build).heap)
    ensures InSync(Frame(s, vp, build))
  {
    var r := Frame(s, vp, build);
    AllFedUniformsHaveFields();
    assert ColorsAllocated(r.committed, r.heap);
    forall t, u | u in FedBy(t)
      ensures Holds(r.gl, ProgramOf(r, t), u, SlotValue(u, r.committed, r.heap))
    {
      FrameSyncsSlot(s, vp, build, t, u);
    }
  }

  /** After a frame the fireball's tick uniform, if declared, holds the new
      tick count. */
  lemma FrameTick(s: App, vp: Matrix, build: MeshBuilder)
    requires ColorsAllocated(s.live, s.heap)
    ensures ProgramsValid(s) ==>
              Holds(Frame(s, vp, build).gl, s.fireball, Tick, FloatValue(Frame(s, vp, build).tickCount as real))
  {
    if ProgramsValid(s) {
      var step := DiffStep(s.live, s.committed, s.heap, s.tickCount);
      var s0 := s.(committed := step.committed, tickCount := step.tickCount);
      FrameSlot(s, vp, build, Fireball, Tick);
      ApplyAllSlot(step.actions, s0, build, Fireball, Tick);
      StepLastTick(s.live, s.committed, s.heap, s.tickCount);
    }
  }

  /** The pushes `main` makes once the programs exist, before the first
      frame: both colours to both programs, then the four bias and gain
      values to the fireball. */
  function InitialPushes(c: Snapshot, heap: Heap): (r: seq<Action>)
    requires ColorsAllocated(c, heap)
    ensures forall a :: a in r ==> a.Push? && a.slot in FedBy(a.target) && a.value == SlotValue(a.slot, c, heap)
    ensures forall t, u :: u in FedBy(t) ==> Push(t, u, SlotValue(u, c, heap)) in r
  {
    var inner := Vec4Value(ToColor(heap[c.innerColor]));
    var outer := Vec4Value(ToColor(heap[c.outerColor]));
    [Push(Fireball, InnerColor, inner), Push(Background, InnerColor, inner),
     Push(Fireball, OuterColor, outer), Push(Background, OuterColor, outer),
     Push(Fireball, RadialBias, FloatValue(c.radialBias)), Push(Fireball, RadialGain, FloatValue(c.radialGain)),
     Push(Fireball, ColorBias, FloatValue(c.colorBias)), Push(Fireball, ColorGain, FloatValue(c.colorGain))]
  }

  /** Every fed uniform of every program gets exactly the snapshot's value
      from the initial pushes. */
  lemma InitialPushesLast(c: Snapshot, heap: Heap, t: Target, u: Uniform)
    requires ColorsAllocated(c, heap) && u in FedBy(t)
    ensures LastPush(InitialPushes(c, heap), t, u) == Some(SlotValue(u, c, heap))
    ensures LastRebuild(InitialPushes(c, heap)) == None
  {
    LastPushSound(InitialPushes(c, heap), t, u);
    LastRebuildSound(InitialPushes(c, heap));
  }

  /** Start-up: `controls` and `prevControls` are copies of the defaults
      sharing their colour arrays, the icosphere is built at the default
      level, the depth test is switched on, the fireball program and then the
      background program are compiled and linked, either of which may throw,
      and the initial pushes are made to the two programs. */
  function Start(fireball: ProgramSource, background: ProgramSource, square: Drawable,
                 build: MeshBuilder, gl: Gl): (r: Result<App>)
    ensures r.Ok? <==> Builds(fireball) && Builds(background)
    ensures !Builds(fireball) ==> r == Err(CompileAndLink(fireball).log)
    ensures Builds(fireball) && !Builds(background) ==> r == Err(CompileAndLink(background).log)
    ensures r.Ok? ==> r.value.live == Defaults && r.value.committed == Defaults && r.value.heap == InitialHeap
    ensures r.Ok? ==> r.value.tickCount == 0 && r.value.gl.depthTest && r.value.gl.draws == gl.draws
    ensures r.Ok? ==> r.value.icosphere == NewIcosphere(5, build)
    ensures r.Ok? ==> r.value.fireball.prog == fireball.handle && r.value.background.prog == background.handle
    ensures r.Ok? ==> r.value.fireball.WellFormed() && r.value.background.WellFormed()
    ensures r.Ok? ==> r.value.fireball == CompileAndLink(fireball).value &&
                      r.value.background == CompileAndLink(background).value && r.value.square == square
  {
    var fb := CompileAndLink(fireball);
    if fb.Err? then Err(fb.log)
    else
      var bg := CompileAndLink(background);
      if bg.Err? then Err(bg.log)
      else
        var s0 := App(Defaults, Defaults, InitialHeap, 0, NewIcosphere(Defaults.tesselations, build),
                      square, fb.value, bg.value, SetDepthTest(gl, true));
        InitialPushesLast(Defaults, InitialHeap, Fireball, InnerColor);
        Ok(ApplyAll(InitialPushes(Defaults, InitialHeap), s0, build))
  }

  /** After start-up the shaders hold the default parameters. */
  lemma StartInSync(fireball: ProgramSource, background: ProgramSource, square: Drawable, build: MeshBuilder, gl: Gl)
    requires Builds(fireball) && Builds(background)
    requires fireball.handle != background.handle
    ensures Start(fireball, background, square, build, gl).Ok?
    ensures ColorsAllocated(Start(fireball, background, square, build, gl).value.committed, InitialHeap)
    ensures InSync(Start(fireball, background, square, build, gl).value)
  {
    var fb := CompileAndLink(fireball).value;
    var bg := CompileAndLink(background).value;
    var s0 := App(Defaults, Defaults, InitialHeap, 0, NewIcosphere(Defaults.tesselations, build),
                  square, fb, bg, SetDepthTest(gl, true));
    var acts := InitialPushes(Defaults, InitialHeap);
    var r := Start(fireball, background, square, build, gl).value;
    assert r == ApplyAll(acts, s0, build);
    AllFedUniformsHaveFields();
    forall t, u | u in FedBy(t)
      ensures Holds(r.gl, ProgramOf(r, t), u, SlotValue(u, r.committed, r.heap))
    {
      ApplyAllSlot(acts, s0, build, t, u);
      InitialPushesLast(Defaults, InitialHeap, t, u);
    }
  }

  /** What the user changes between two frames: the live snapshot, the
      contents of colour arrays, and the camera. */
  datatype FrameInput = FrameInput(live: Snapshot, heap: Heap, vp: Matrix)

  ghost predicate InputsValid(inputs: seq<FrameInput>) {
    forall i :: 0 <= i < |inputs| ==> ColorsAllocated(inputs[i].live, inputs[i].heap)
  }

  /** The render loop over a sequence of frames. */
  function Run(s: App, inputs: seq<FrameInput>, build: MeshBuilder): App
    requires InputsValid(inputs)
    decreases |inputs|
  {
    if inputs == [] then s
    else
      Run(NextFrame(s, inputs[0], build), inputs[1..], build)
  }

  /** The next frame of the loop, with the user's edits applied first. */
  function NextFrame(s: App, input: FrameInput, build: MeshBuilder): (r: App)
    requires ColorsAllocated(input.live, input.heap)
    ensures r.tickCount == s.tickCount + 1 && r.fireball == s.fireball && r.background == s.background
    ensures ProgramsValid(s) ==> Holds(r.gl, s.fireball, Tick, FloatValue(r.tickCount as real))
  {
    FrameTick(s.(live := input.live, heap := input.heap), input.vp, build);
    Frame(s.(live := input.live, heap := input.heap), input.vp, build)
  }

  /** Dropping the first input keeps the rest valid. */
  lemma InputsValidTail(inputs: seq<FrameInput>)
    requires InputsValid(inputs) && |inputs| > 0
    ensures InputsValid(inputs[1..])
  {
    var rest := inputs[1..];
    forall i | 0 <= i < |rest| ensures ColorsAllocated(rest[i].live, rest[i].heap) {
      assert rest[i] == inputs[i + 1];
    }
  }

  /** Each frame adds one to the tick count and leaves the programs alone. */
  lemma {:induction false} RunTicks(s: App, inputs: seq<FrameInput>, build: MeshBuilder)
    requires InputsValid(inputs)
    ensures Run(s, inputs, build).tickCount == s.tickCount + |inputs|
    ensures Run(s, inputs, build).fireball == s.fireball && Run(s, inputs, build).background == s.background
    decreases |inputs|
  {
    if inputs != [] {
      InputsValidTail(inputs);
      RunTicks(NextFrame(s, inputs[0], build), inputs[1..], build);
    }
  }

  /** After at least one frame the fireball's tick uniform, if declared,
      holds the tick count. */
  lemma {:induction false} RunTickUniform(s: App, inputs: seq<FrameInput>, build: MeshBuilder)
    requires InputsValid(inputs) && ProgramsValid(s) && |inputs| > 0
    ensures Holds(Run(s, inputs, build).gl, s.fireball, Tick, FloatValue(Run(s, inputs, build).tickCount as real))
    decreases |inputs|
  {
    var s1 := NextFrame(s, inputs[0], build);
    InputsValidTail(inputs);
    if |inputs| > 1 {
      RunTickUniform(s1, inputs[1..], build);
    }
  }

  /** A colour edited in place (same array, new contents) is not pushed: the
      shaders keep the value they had for that colour. */
  lemma InPlaceEditNotPushed(s: App, vp: Matrix, build: MeshBuilder, t: Target, u: Uniform)
    requires ProgramsValid(s) && ColorsAllocated(s.live, s.heap)
    requires u == InnerColor || u == OuterColor
    requires u == InnerColor ==> s.live.innerColor == s.committed.innerColor
    requires u == OuterColor ==> s.live.outerColor == s.committed.outerColor
    ensures Lookup(Frame(s, vp, build).gl.uniforms, Location(ProgramOf(s, t).prog, u))
            == Lookup(s.gl.uniforms, Location(ProgramOf(s, t).prog, u))
  {
    var step := DiffStep(s.live, s.committed, s.heap, s.tickCount);
    var s0 := s.(committed := step.committed, tickCount := step.tickCount);
    var l := Location(ProgramOf(s, t).prog, u);
    assert LastPush(step.actions, t, u) == None by {
      StepLastPush(s.live, s.committed, s.heap, s.tickCount, t, u);
    }
    assert Lookup(ApplyAll(step.actions, s0, build).gl.uniforms, l) == Lookup(s.gl.uniforms, l) by {
      ApplyAllSlot(step.actions, s0, build, t, u);
    }
    FrameSlot(s, vp, build, t, u);
  }

  /** The programs of the example below: a fireball that declares only
      `u_innerColor`, and a background that declares no fed uniform. */
  const ExampleFireball: Program := Program(0, -1, -1, -1, JsNull, JsNull, JsNull, JsLocation(Location(0, InnerColor)),
                                            JsNull, JsNull, JsNull, JsNull, JsNull, JsNull)
  const ExampleBackground: Program := Program(1, -1, -1, -1, JsNull, JsNull, JsNull, JsNull,
                                              JsNull, JsNull, JsNull, JsNull, JsNull, JsNull)

  lemma ExampleProgramsWellFormed()
    ensures ExampleFireball.WellFormed() && ExampleBackground.WellFormed()
  {
    forall u ensures ExampleFireball.Slot(u) == JsNull || ExampleFireball.Slot(u) == JsLocation(Location(0, u)) {
      match u
      case Model => case ModelInvTr => case ViewProj => case InnerColor => case OuterColor =>
      case Tick => case RadialBias => case RadialGain => case ColorBias => case ColorGain =>
    }
    forall u ensures ExampleBackground.Slot(u) == JsNull {
      match u
      case Model => case ModelInvTr => case ViewProj => case InnerColor => case OuterColor =>
      case Tick => case RadialBias => case RadialGain => case ColorBias => case ColorGain =>
    }
  }

  /** Overwriting the contents of the committed inner-colour array with a
      different colour leaves the fireball showing the old colour after the
      frame, so it no longer holds the snapshot the frame committed. */
  lemma InPlaceEditGoesStale(s: App, vp: Matrix, build: MeshBuilder, c: seq<real>)
    requires ProgramsValid(s) && ColorsAllocated(s.live, s.heap) && ColorsAllocated(s.committed, s.heap) && |c| >= 3
    requires s.live.innerColor == s.committed.innerColor
    requires s.fireball.Slot(InnerColor).JsLocation?
    requires Holds(s.gl, s.fireball, InnerColor, SlotValue(InnerColor, s.committed, s.heap))
    requires ToColor(c) != ToColor(s.heap[s.live.innerColor])
    ensures var edited := s.(heap := s.heap[s.live.innerColor := c]);
            && ColorsAllocated(edited.live, edited.heap)
            && !InSync(Frame(edited, vp, build))
  {
    var edited := s.(heap := s.heap[s.live.innerColor := c]);
    var l := Location(s.fireball.prog, InnerColor);
    var r := Frame(edited, vp, build);
    assert Lookup(r.gl.uniforms, l) == Lookup(s.gl.uniforms, l) by {
      InPlaceEditNotPushed(edited, vp, build, Fireball, InnerColor);
    }
    assert !Holds(r.gl, ProgramOf(r, Fireball), InnerColor, SlotValue(InnerColor, r.committed, r.heap));
  }

  /** Concretely: the shaders hold the default yellow, the user turns the
      same inner-colour array blue in place, and after the frame the fireball
      still shows yellow, out of step with the snapshot it committed. */
  lemma InPlaceEditLeavesShadersStale(vp: Matrix, build: MeshBuilder, square: Drawable)
    ensures var yellow := Vec4Value(ToColor([255.0, 255.0, 0.0]));
            var gl := Fresh.(uniforms := map[Location(0, InnerColor) := yellow]);
            var s := App(Defaults, Defaults, InitialHeap, 0, NewIcosphere(5, build), square,
                         ExampleFireball, ExampleBackground, gl);
            var edited := s.(heap := InitialHeap[DefaultInnerArray := [0.0, 0.0, 255.0]]);
            && InSync(s)
            && ColorsAllocated(edited.live, edited.heap)
            && !InSync(Frame(edited, vp, build))
  {
    var yellow := Vec4Value(ToColor([255.0, 255.0, 0.0]));
    var gl := Fresh.(uniforms := map[Location(0, InnerColor) := yellow]);
    var s := App(Defaults, Defaults, InitialHeap, 0, NewIcosphere(5, build), square,
                 ExampleFireball, ExampleBackground, gl);
    ExampleProgramsWellFormed();
    assert InitialHeap[DefaultInnerArray] == [255.0, 255.0, 0.0];
    assert InSync(s) by {
      forall t, u | u in FedBy(t) ensures Holds(s.gl, ProgramOf(s, t), u, SlotValue(u, s.committed, s.heap)) {
      }
    }
    assert ToColor([0.0, 0.0, 255.0]).x != ToColor([255.0, 255.0, 0.0]).x;
    InPlaceEditGoesStale(s, vp, build, [0.0, 0.0, 255.0]);
  }

  /** Pressing Reset and rendering a frame brings the shaders back to the
      defaults, through the default arrays' current contents. */
  lemma ResetThenFrame(s: App, vp: Matrix, build: MeshBuilder)
    requires ProgramsValid(s)
    requires ColorsAllocated(Defaults, s.heap) && ColorsAllocated(s.committed, s.heap)
    requires InSync(s)
    ensures Frame(s.(live := Reset(s.live)), vp, build).committed == Defaults
    ensures InSync(Frame(s.(live := Reset(s.live)), vp, build))
  {
    FrameKeepsInSync(s.(live := Reset(s.live)), vp, build);
  }
}
