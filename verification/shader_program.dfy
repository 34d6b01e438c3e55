/** `Shader` and `ShaderProgram`: compiling and linking with their error
    paths, resolving the attribute and uniform slots once, the cached
    `use()`, the uniform setters and `draw`, all as transitions of the
    abstract GL state. */
module ShaderProgram {
  import opened Values
  import opened GlState

  /** A compiled shader stage. */
  datatype Shader = Shader(handle: nat, kind: nat)

  /** `new Shader(type, source)`: `compiled` is what `COMPILE_STATUS`
      reported and `infoLog` what `getShaderInfoLog` returned; a failed
      compile throws the log. */
  function NewShader(handle: nat, kind: nat, compiled: bool, infoLog: string): (r: Result<Shader>)
    ensures r.Err? <==> !compiled
    ensures r.Err? ==> r.log == infoLog
    ensures r.Ok? ==> r.value == Shader(handle, kind)
  {
    if !compiled then Err(infoLog) else Ok(Shader(handle, kind))
  }

  /** One `new Shader(type, source)` expression: the handle `createShader`
      returns, the stage type, and what the compile reports. */
  datatype StageSource = StageSource(handle: nat, kind: nat, compiled: bool, infoLog: string)

  /** The array literal `[new Shader(..), new Shader(..)]`: the stages are
      constructed left to right, so the first stage that fails to compile
      throws its log and the later ones are never compiled. */
  function CompileStages(stages: seq<StageSource>): (r: Result<seq<Shader>>)
    ensures r.Ok? <==> forall i :: 0 <= i < |stages| ==> stages[i].compiled
    ensures r.Err? ==> exists i :: 0 <= i < |stages| && !stages[i].compiled && r.log == stages[i].infoLog
                                   && forall j :: 0 <= j < i ==> stages[j].compiled
    ensures r.Ok? ==> |r.value| == |stages|
                      && forall i :: 0 <= i < |stages| ==> r.value[i] == Shader(stages[i].handle, stages[i].kind)
  {
    if stages == [] then Ok([])
    else
      var first := stages[0];
      match NewShader(first.handle, first.kind, first.compiled, first.infoLog)
      case Err(log) => Err(log)
      case Ok(shader) =>
        match CompileStages(stages[1..])
        case Err(log) =>
          assert forall i :: 1 <= i < |stages| ==> stages[i] == stages[1..][i - 1];
          Err(log)
        case Ok(rest) =>
          assert forall i :: 1 <= i < |stages| ==> stages[i] == stages[1..][i - 1];
          Ok([shader] + rest)
  }

  /** What GL reports about a program after `linkProgram`: `LINK_STATUS`, the
      program info log, the location of every active attribute and the names
      of the active uniforms. */
  datatype LinkOutcome = LinkOutcome(
    linked: bool,
    infoLog: string,
    attribs: map<string, nat>,
    uniforms: set<string>)
  {
    /** GL gives distinct active attributes distinct locations. */
    predicate DistinctLocations() {
      forall a, b :: a in attribs && b in attribs && a != b ==> attribs[a] != attribs[b]
    }
  }

  /** A linked program and its thirteen slots. */
  datatype Program = Program(
    prog: ProgramHandle,
    attrPos: AttribIndex,
    attrNor: AttribIndex,
    attrCol: AttribIndex,
    unifModel: JsValue,
    unifModelInvTr: JsValue,
    unifViewProj: JsValue,
    unifInnerColor: JsValue,
    unifOuterColor: JsValue,
    unifTick: JsValue,
    unifRadialBias: JsValue,
    unifRadialGain: JsValue,
    unifColorBias: JsValue,
    unifColorGain: JsValue)
  {
    /** The field that holds the location of uniform `u`. */
    function Slot(u: Uniform): JsValue {
      match u
      case Model => unifModel
      case ModelInvTr => unifModelInvTr
      case ViewProj => unifViewProj
      case InnerColor => unifInnerColor
      case OuterColor => unifOuterColor
      case Tick => unifTick
      case RadialBias => unifRadialBias
      case RadialGain => unifRadialGain
      case ColorBias => unifColorBias
      case ColorGain => unifColorGain
    }

    /** Every uniform slot holds `null` or this program's own location for
        that uniform, as `getUniformLocation` leaves them. */
    ghost predicate WellFormed() {
      forall u :: Slot(u) == JsNull || Slot(u) == JsLocation(Location(prog, u))
    }

    /** The position and normal slots that are present (not `-1`). */
    function Present(): set<int> {
      (if attrPos != -1 then {attrPos as int} else {}) + (if attrNor != -1 then {attrNor as int} else {})
    }
  }

  /** `getAttribLocation(prog, name)`. */
  function AttribLocation(link: LinkOutcome, name: string): (r: AttribIndex)
    ensures r != -1 <==> name in link.attribs
    ensures r != -1 ==> link.attribs[name] == r
  {
    if name in link.attribs then link.attribs[name] else -1
  }

  /** `getUniformLocation(prog, name)`: a location of this program, or `null`. */
  function UniformLocation(h: ProgramHandle, link: LinkOutcome, u: Uniform): (r: JsValue)
    ensures r.JsLocation? <==> UniformName(u) in link.uniforms
    ensures r == JsNull || r == JsLocation(Location(h, u))
  {
    if UniformName(u) in link.uniforms then JsLocation(Location(h, u)) else JsNull
  }

  /** `new ShaderProgram(shaders)`: a failed link throws the program info log;
      otherwise each of the three attribute and ten uniform slots is looked up
      once, by its GLSL name. The stages are attached to the program on the GL
      side only, so they leave no trace in the result. */
  function NewShaderProgram(h: ProgramHandle, shaders: seq<Shader>, link: LinkOutcome): (r: Result<Program>)
    ensures r.Err? <==> !link.linked
    ensures r.Err? ==> r.log == link.infoLog
    ensures r.Ok? ==> r.value.prog == h && r.value.WellFormed()
    ensures r.Ok? ==> forall u :: r.value.Slot(u).JsLocation? <==> UniformName(u) in link.uniforms
    ensures r.Ok? ==> (r.value.attrPos != -1 <==> PosName in link.attribs)
    ensures r.Ok? ==> (r.value.attrNor != -1 <==> NorName in link.attribs)
    ensures r.Ok? ==> (r.value.attrCol != -1 <==> ColName in link.attribs)
    ensures r.Ok? && link.DistinctLocations() && r.value.attrPos != -1 ==>
              r.value.attrPos != r.value.attrNor && r.value.attrPos != r.value.attrCol
    ensures r.Ok? && link.DistinctLocations() && r.value.attrNor != -1 ==> r.value.attrNor != r.value.attrCol
    ensures r.Ok? ==> r.value.attrPos == AttribLocation(link, PosName) && r.value.attrNor == AttribLocation(link, NorName)
                      && r.value.attrCol == AttribLocation(link, ColName)
  {
    if !link.linked then Err(link.infoLog)
    else
      var p := Program(h,
        AttribLocation(link, PosName), AttribLocation(link, NorName), AttribLocation(link, ColName),
        UniformLocation(h, link, Model), UniformLocation(h, link, ModelInvTr),
        UniformLocation(h, link, ViewProj), UniformLocation(h, link, InnerColor),
        UniformLocation(h, link, OuterColor), UniformLocation(h, link, Tick),
        UniformLocation(h, link, RadialBias), UniformLocation(h, link, RadialGain),
        UniformLocation(h, link, ColorBias), UniformLocation(h, link, ColorGain));
      ResolvedSlots(h, link, p);
      Ok(p)
  }

  /** Everything `new ShaderProgram([new Shader(..), ...])` depends on: the
      handle `createProgram` returns, the stages and the link outcome. */
  datatype ProgramSource = ProgramSource(handle: ProgramHandle, stages: seq<StageSource>, link: LinkOutcome)

  /** Every stage compiles and the program links. */
  ghost predicate Builds(src: ProgramSource) {
    (forall i :: 0 <= i < |src.stages| ==> src.stages[i].compiled) && src.link.linked
  }

  /** `new ShaderProgram([new Shader(..), ...])`: the stages are compiled
      first, as the constructor's argument, so a compile error is thrown
      before the program is created or linked. */
  function CompileAndLink(src: ProgramSource): (r: Result<Program>)
    ensures r.Ok? <==> Builds(src)
    ensures (exists i :: 0 <= i < |src.stages| && !src.stages[i].compiled) ==>
              exists i :: 0 <= i < |src.stages| && !src.stages[i].compiled && r == Err(src.stages[i].infoLog)
                          && forall j :: 0 <= j < i ==> src.stages[j].compiled
    ensures (forall i :: 0 <= i < |src.stages| ==> src.stages[i].compiled) && !src.link.linked ==>
              r == Err(src.link.infoLog)
    ensures r.Ok? ==> r.value.prog == src.handle && r.value.WellFormed()
                      && forall u :: r.value.Slot(u) == UniformLocation(src.handle, src.link, u)
    ensures r.Ok? ==> r.value.attrPos == AttribLocation(src.link, PosName) && r.value.attrNor == AttribLocation(src.link, NorName)
                      && r.value.attrCol == AttribLocation(src.link, ColName)
  {
    match CompileStages(src.stages)
    case Err(log) => Err(log)
    case Ok(shaders) =>
      var r := NewShaderProgram(src.handle, shaders, src.link);
      if r.Ok? then
        ResolvedSlots(src.handle, src.link, r.value);
        r
      else r
  }

  /** The slots a program is built with are the lookups of their own names. */
  lemma ResolvedSlots(h: ProgramHandle, link: LinkOutcome, p: Program)
    requires p == Program(h,
        AttribLocation(link, PosName), AttribLocation(link, NorName), AttribLocation(link, ColName),
        UniformLocation(h, link, Model), UniformLocation(h, link, ModelInvTr),
        UniformLocation(h, link, ViewProj), UniformLocation(h, link, InnerColor),
        UniformLocation(h, link, OuterColor), UniformLocation(h, link, Tick),
        UniformLocation(h, link, RadialBias), UniformLocation(h, link, RadialGain),
        UniformLocation(h, link, ColorBias), UniformLocation(h, link, ColorGain))
    ensures forall u :: p.Slot(u) == UniformLocation(h, link, u)
  {
    forall u ensures p.Slot(u) == UniformLocation(h, link, u) {
      match u
      case Model => case ModelInvTr => case ViewProj => case InnerColor => case OuterColor =>
      case Tick => case RadialBias => case RadialGain => case ColorBias => case ColorGain =>
    }
  }

  /** `use()`: calls `useProgram` only when the shared `activeProgram` is a
      different program. */
  function Use(p: Program, g: Gl): (r: Gl)
    ensures r.active == Some(p.prog)
    ensures g.active == Some(p.prog) ==> r == g
    ensures g.active != Some(p.prog) ==> r.useLog == g.useLog + [p.prog]
    ensures r.(active := g.active, useLog := g.useLog) == g
  {
    if g.active != Some(p.prog) then g.(active := Some(p.prog), useLog := g.useLog + [p.prog]) else g
  }

  /** The guard `slot !== -1` each setter puts in front of its upload. */
  function Guard(slot: JsValue): bool {
    slot != JsNumber(-1)
  }

  /** `setViewProjMatrix`, `setInnerColor`, `setOuterColor`,
      `setRadialBias`, `setRadialGain`, `setColorBias`, `setColorGain` and
      `setTick` are one shape: `use()`, then a guarded upload to the setter's
      own slot. They are modelled as this one function of the uniform the
      setter names. */
  function SetUniform(p: Program, u: Uniform, v: UniformValue, g: Gl): (r: Gl)
    ensures r.active == Some(p.prog)
    ensures |g.useLog| <= |r.useLog| <= |g.useLog| + 1
    ensures r.useLog == Use(p, g).useLog
    ensures r.(uniforms := g.uniforms, active := g.active, useLog := g.useLog) == g
    ensures p.Slot(u).JsLocation? ==> Lookup(r.uniforms, p.Slot(u).loc) == Some(v)
    ensures !p.Slot(u).JsLocation? ==> r.uniforms == g.uniforms
    ensures forall l :: (!p.Slot(u).JsLocation? || l != p.Slot(u).loc) ==> Lookup(r.uniforms, l) == Lookup(g.uniforms, l)
  {
    var g1 := Use(p, g);
    if Guard(p.Slot(u)) then UploadUniform(g1, p.Slot(u), v) else g1
  }

  /** `setViewProjMatrix`, the one setter the renderer calls by name; the
      frame loop's pushes go through `SetUniform` with the uniform they
      target. */
  function SetViewProjMatrix(p: Program, vp: Matrix, g: Gl): Gl {
    SetUniform(p, ViewProj, MatrixValue(vp), g)
  }

  /** `setModelMatrix(model)`: `use()`, then the model matrix to its slot and
      the inverse-transpose gl-matrix derives from it to the other, each
      behind its own guard. */
  function SetModelMatrix(p: Program, model: Matrix, g: Gl): (r: Gl)
    ensures r.active == Some(p.prog)
    ensures |g.useLog| <= |r.useLog| <= |g.useLog| + 1
    ensures r.useLog == Use(p, g).useLog
    ensures r.(uniforms := g.uniforms, active := g.active, useLog := g.useLog) == g
    ensures p.unifModelInvTr.JsLocation? ==>
              Lookup(r.uniforms, p.unifModelInvTr.loc) == Some(MatrixValue(InverseTranspose(model)))
    ensures p.unifModel.JsLocation? && p.unifModel != p.unifModelInvTr ==>
              Lookup(r.uniforms, p.unifModel.loc) == Some(MatrixValue(model))
    ensures forall l :: (!p.unifModel.JsLocation? || l != p.unifModel.loc)
                     && (!p.unifModelInvTr.JsLocation? || l != p.unifModelInvTr.loc)
                     ==> Lookup(r.uniforms, l) == Lookup(g.uniforms, l)
  {
    var g1 := Use(p, g);
    var g2 := if Guard(p.unifModel) then UploadUniform(g1, p.unifModel, MatrixValue(model)) else g1;
    if Guard(p.unifModelInvTr) then UploadUniform(g2, p.unifModelInvTr, MatrixValue(InverseTranspose(model))) else g2
  }

  /** The attribute indices `draw` enables for this drawable. */
  function DrawEnables(p: Program, d: Drawable): set<int> {
    (if p.attrPos != -1 && d.hasPos then {p.attrPos as int} else {})
    + (if p.attrNor != -1 && d.hasNor then {p.attrNor as int} else {})
  }

  /** `draw(d)`: `use()`; enable the position and normal attributes the
      program declares and the drawable binds (the drawable is only asked when
      the slot is present); bind the indices and issue one indexed draw of
      unsigned ints; then disable every present position and normal slot. */
  function Draw(p: Program, d: Drawable, g: Gl): (r: Gl)
    ensures r.active == Some(p.prog)
    ensures |g.useLog| <= |r.useLog| <= |g.useLog| + 1
    ensures r.useLog == Use(p, g).useLog
    ensures r.uniforms == g.uniforms && r.depthTest == g.depthTest
    ensures r.elementBuffer == Some(IndexBuffer(d.mesh))
    ensures |r.draws| == |g.draws| + 1 && r.draws[..|g.draws|] == g.draws
    ensures r.draws[|g.draws|] == DrawCall(Some(p.prog), d.mode, d.count, UNSIGNED_INT,
                                           Some(IndexBuffer(d.mesh)), g.enabled + DrawEnables(p, d), g.depthTest)
    ensures r.enabled == g.enabled - p.Present()
    ensures forall i :: i in g.pointers && i !in DrawEnables(p, d) ==> i in r.pointers && r.pointers[i] == g.pointers[i]
    ensures forall i :: i in r.pointers ==> i in g.pointers || i in DrawEnables(p, d)
    ensures p.attrPos != -1 && d.hasPos && p.attrPos != p.attrNor ==>
              p.attrPos as int in r.pointers && r.pointers[p.attrPos as int] == AttribPointer(Some(PositionBuffer(d.mesh)), 4, FLOAT)
    ensures p.attrNor != -1 && d.hasNor ==>
              p.attrNor as int in r.pointers && r.pointers[p.attrNor as int] == AttribPointer(Some(NormalBuffer(d.mesh)), 4, FLOAT)
  {
    var g1 := EnableChannels(p, d, Use(p, g));
    var g2 := DrawElements(BindIdx(d, g1), d.mode, d.count, UNSIGNED_INT);
    DisableChannels(p, g2)
  }

  /** The first half of `draw`: bind and enable the position, then the
      normal channel, each only when the slot is present and the drawable
      binds it. */
  function EnableChannels(p: Program, d: Drawable, g: Gl): (r: Gl)
    ensures r.(enabled := g.enabled, pointers := g.pointers, arrayBuffer := g.arrayBuffer) == g
    ensures r.enabled == g.enabled + DrawEnables(p, d)
    ensures forall i :: i in g.pointers && i !in DrawEnables(p, d) ==> i in r.pointers && r.pointers[i] == g.pointers[i]
    ensures forall i :: i in r.pointers ==> i in g.pointers || i in DrawEnables(p, d)
    ensures p.attrPos != -1 && d.hasPos && p.attrPos != p.attrNor ==>
              p.attrPos as int in r.pointers && r.pointers[p.attrPos as int] == AttribPointer(Some(PositionBuffer(d.mesh)), 4, FLOAT)
    ensures p.attrNor != -1 && d.hasNor ==>
              p.attrNor as int in r.pointers && r.pointers[p.attrNor as int] == AttribPointer(Some(NormalBuffer(d.mesh)), 4, FLOAT)
  {
    var g1 := if p.attrPos != -1 then
                var (bound, h) := BindPos(d, g);
                if bound then EnableAttrib(h, p.attrPos) else h
              else g;
    if p.attrNor != -1 then
      var (bound, h) := BindNor(d, g1);
      if bound then EnableAttrib(h, p.attrNor) else h
    else g1
  }

  /** The last step of `draw`: disable every present position and normal
      slot, whether or not it was enabled. */
  function DisableChannels(p: Program, g: Gl): (r: Gl)
    ensures r.(enabled := g.enabled) == g
    ensures r.enabled == g.enabled - p.Present()
  {
    var g1 := if p.attrPos != -1 then DisableAttrib(g, p.attrPos) else g;
    if p.attrNor != -1 then DisableAttrib(g1, p.attrNor) else g1
  }

  /** `use()` twice in a row is `use()` once: the second call finds the
      program active and issues no `useProgram`. */
  lemma UseTwice(p: Program, g: Gl)
    ensures Use(p, Use(p, g)) == Use(p, g)
    ensures |Use(p, Use(p, g)).useLog| <= |g.useLog| + 1
  {
  }

  /** Alternating two different programs issues a `useProgram` each time. */
  lemma UseAlternating(p: Program, q: Program, g: Gl)
    requires p.prog != q.prog
    ensures Use(p, Use(q, Use(p, g))).useLog[|g.useLog|..] == (if g.active == Some(p.prog) then [] else [p.prog]) + [q.prog, p.prog]
  {
  }

  /** Whatever `getUniformLocation` returned, the `!== -1` guard lets the
      upload through: absent uniforms are skipped only because GL ignores a
      `null` location. */
  lemma UniformGuardNeverFires(p: Program, u: Uniform)
    requires p.WellFormed()
    ensures Guard(p.Slot(u))
    ensures p.Slot(u).JsLocation? || p.Slot(u) == JsNull
  {
  }

  /** A program linked without a uniform ignores that uniform's setter: the
      uniform store is unchanged. */
  lemma AbsentUniformIsIgnored(h: ProgramHandle, shaders: seq<Shader>, link: LinkOutcome, u: Uniform, v: UniformValue, g: Gl)
    requires link.linked && UniformName(u) !in link.uniforms
    ensures NewShaderProgram(h, shaders, link).Ok?
    ensures SetUniform(NewShaderProgram(h, shaders, link).value, u, v, g).uniforms == g.uniforms
  {
  }

  /** A setter writes only its own uniform of its own program. */
  lemma SetUniformWritesOwnSlot(p: Program, u: Uniform, v: UniformValue, g: Gl, l: Location)
    requires p.WellFormed()
    requires l != Location(p.prog, u)
    ensures Lookup(SetUniform(p, u, v, g).uniforms, l) == Lookup(g.uniforms, l)
  {
    assert p.Slot(u) == JsNull || p.Slot(u) == JsLocation(Location(p.prog, u));
  }

  /** `setModelMatrix` writes only the model and inverse-transpose uniforms
      of its own program, and for a well-formed program both land where they
      belong. */
  lemma SetModelMatrixWritesOwnSlots(p: Program, model: Matrix, g: Gl, l: Location)
    requires p.WellFormed()
    ensures l != Location(p.prog, Model) && l != Location(p.prog, ModelInvTr) ==>
              Lookup(SetModelMatrix(p, model, g).uniforms, l) == Lookup(g.uniforms, l)
    ensures p.unifModel.JsLocation? ==> Lookup(SetModelMatrix(p, model, g).uniforms, Location(p.prog, Model)) == Some(MatrixValue(model))
    ensures p.unifModelInvTr.JsLocation? ==>
              Lookup(SetModelMatrix(p, model, g).uniforms, Location(p.prog, ModelInvTr)) == Some(MatrixValue(InverseTranspose(model)))
  {
    assert p.Slot(Model) == p.unifModel && p.Slot(ModelInvTr) == p.unifModelInvTr;
  }

  /** Setting a uniform twice keeps only the second value. */
  lemma SetUniformOverwrites(p: Program, u: Uniform, v1: UniformValue, v2: UniformValue, g: Gl)
    ensures SetUniform(p, u, v2, SetUniform(p, u, v1, g)) == SetUniform(p, u, v2, g)
  {
  }

  /** Setters of different uniforms of one program commute. */
  lemma SetUniformsCommute(p: Program, u1: Uniform, v1: UniformValue, u2: Uniform, v2: UniformValue, g: Gl)
    requires p.WellFormed() && u1 != u2
    ensures SetUniform(p, u2, v2, SetUniform(p, u1, v1, g)) == SetUniform(p, u1, v1, SetUniform(p, u2, v2, g))
  {
    var g0 := Use(p, g);
    var a := SetUniform(p, u2, v2, SetUniform(p, u1, v1, g));
    var b := SetUniform(p, u1, v1, SetUniform(p, u2, v2, g));
    assert a == g0.(uniforms := a.uniforms);
    assert b == g0.(uniforms := b.uniforms);
    var l1 := Location(p.prog, u1);
    var l2 := Location(p.prog, u2);
    forall l ensures Lookup(a.uniforms, l) == Lookup(b.uniforms, l) {
      if l != l1 {
        SetUniformWritesOwnSlot(p, u1, v1, g, l);
        SetUniformWritesOwnSlot(p, u1, v1, SetUniform(p, u2, v2, g), l);
      }
      if l != l2 {
        SetUniformWritesOwnSlot(p, u2, v2, g, l);
        SetUniformWritesOwnSlot(p, u2, v2, SetUniform(p, u1, v1, g), l);
      }
    }
    LookupExtensional(a.uniforms, b.uniforms);
  }

  /** Two uniform stores that agree at every location are equal. */
  lemma LookupExtensional(a: map<Location, UniformValue>, b: map<Location, UniformValue>)
    requires forall l :: Lookup(a, l) == Lookup(b, l)
    ensures a == b
  {
    forall l ensures (l in a <==> l in b) && (l in a ==> a[l] == b[l]) {
      assert Lookup(a, l) == Lookup(b, l);
    }
  }

  /** `draw` leaves no attribute enabled that was not enabled before it, so
      a draw from a clean state returns to it. */
  lemma DrawRestoresEnabled(p: Program, d: Drawable, g: Gl)
    requires g.enabled !! p.Present()
    ensures Draw(p, d, g).enabled == g.enabled
  {
  }

  /** `draw` never touches the colour attribute. */
  lemma DrawLeavesColourAlone(p: Program, d: Drawable, g: Gl)
    requires p.attrCol != -1 && p.attrCol != p.attrPos && p.attrCol != p.attrNor
    ensures (p.attrCol as int in Draw(p, d, g).enabled) <==> (p.attrCol as int in g.enabled)
    ensures p.attrCol as int in g.pointers ==>
              p.attrCol as int in Draw(p, d, g).pointers && Draw(p, d, g).pointers[p.attrCol as int] == g.pointers[p.attrCol as int]
  {
  }

  /** During the draw, an attribute slot that was off is on exactly when it
      is a present position or normal slot whose channel the drawable has. */
  lemma DrawEnablesOnlyBoundChannels(p: Program, d: Drawable, g: Gl, i: int)
    requires i !in g.enabled
    ensures i in Draw(p, d, g).draws[|g.draws|].enabled <==>
              (i == p.attrPos as int && p.attrPos != -1 && d.hasPos) || (i == p.attrNor as int && p.attrNor != -1 && d.hasNor)
  {
  }
}
