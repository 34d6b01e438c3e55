/** The part of the WebGL 2 context that the shader programs and the frame
    loop touch, as a value, together with the primitive GL calls they issue.
    Nothing is rendered: a draw call is appended to a log. */
module GlState {
  import opened Values

  /** `gl.FLOAT` and `gl.UNSIGNED_INT`. */
  const FLOAT: nat := 0x1406
  const UNSIGNED_INT: nat := 0x1405

  /** A `WebGLProgram` object; distinct programs have distinct handles. */
  type ProgramHandle = nat

  /** The ten uniforms a shader program looks up. */
  datatype Uniform =
    | Model | ModelInvTr | ViewProj | InnerColor | OuterColor
    | Tick | RadialBias | RadialGain | ColorBias | ColorGain

  /** The GLSL name looked up for each uniform. */
  function UniformName(u: Uniform): string {
    match u
    case Model => "u_Model"
    case ModelInvTr => "u_ModelInvTr"
    case ViewProj => "u_ViewProj"
    case InnerColor => "u_innerColor"
    case OuterColor => "u_outerColor"
    case Tick => "u_Tick"
    case RadialBias => "u_radialBias"
    case RadialGain => "u_radialGain"
    case ColorBias => "u_colorBias"
    case ColorGain => "u_colorGain"
  }

  /** The GLSL attribute names looked up for position, normal and colour. */
  const PosName: string := "vs_Pos"
  const NorName: string := "vs_Nor"
  const ColName: string := "vs_Col"

  /** A `WebGLUniformLocation`: it belongs to the program it came from. */
  datatype Location = Location(prog: ProgramHandle, uniform: Uniform)

  /** The JavaScript value a uniform slot holds. `getUniformLocation` yields a
      location object, or `null` for a uniform the program does not declare;
      the number case exists only so that the source's comparison with `-1`
      can be written down. */
  datatype JsValue = JsNumber(n: int) | JsNull | JsLocation(loc: Location)

  /** An attribute slot: `getAttribLocation` yields `-1` for an attribute the
      program does not declare. */
  type AttribIndex = i: int | -1 <= i

  /** The three GPU buffers a mesh owns. */
  datatype BufferRef = PositionBuffer(mesh: nat) | NormalBuffer(mesh: nat) | IndexBuffer(mesh: nat)

  /** What `vertexAttribPointer` recorded for an attribute index. */
  datatype AttribPointer = AttribPointer(buffer: Option<BufferRef>, size: nat, kind: nat)

  /** One `drawElements` call, with the state it saw. */
  datatype DrawCall = DrawCall(
    prog: Option<ProgramHandle>,
    mode: nat,
    count: int,
    indexType: nat,
    elements: Option<BufferRef>,
    enabled: set<int>,
    depthTest: bool)

  /** The context. `active` is the module-level `activeProgram` variable of
      the shader-program file, shared by every program and initially `null`;
      `useLog` lists every `useProgram` call in order. */
  datatype Gl = Gl(
    active: Option<ProgramHandle>,
    useLog: seq<ProgramHandle>,
    uniforms: map<Location, UniformValue>,
    enabled: set<int>,
    pointers: map<int, AttribPointer>,
    arrayBuffer: Option<BufferRef>,
    elementBuffer: Option<BufferRef>,
    draws: seq<DrawCall>,
    depthTest: bool)

  /** A fresh context: no program in use, nothing uploaded, nothing drawn. */
  const Fresh: Gl := Gl(None, [], map[], {}, map[], None, None, [], false)

  /** The value stored at a location, if any. */
  function Lookup(m: map<Location, UniformValue>, l: Location): Option<UniformValue> {
    if l in m then Some(m[l]) else None
  }

  /** `gl.uniform*(loc, v)`: GL ignores an upload to a `null` location. */
  function UploadUniform(g: Gl, slot: JsValue, v: UniformValue): (r: Gl)
    ensures r.(uniforms := g.uniforms) == g
    ensures slot.JsLocation? ==> Lookup(r.uniforms, slot.loc) == Some(v)
    ensures forall l :: (!slot.JsLocation? || l != slot.loc) ==> Lookup(r.uniforms, l) == Lookup(g.uniforms, l)
  {
    if slot.JsLocation? then g.(uniforms := g.uniforms[slot.loc := v]) else g
  }

  /** `gl.enable(gl.DEPTH_TEST)` / `gl.disable(gl.DEPTH_TEST)`. */
  function SetDepthTest(g: Gl, on: bool): Gl {
    g.(depthTest := on)
  }

  /** A mesh as the shader program sees it: the answers of its `bindPos`,
      `bindNor`, `drawMode` and `elemCount`, and the buffers it binds. The
      draw mode is whatever number `drawMode()` returns (the source of the
      meshes, where it would be `gl.TRIANGLES`, is not part of this model) and
      is passed to the draw call unchanged. */
  datatype Drawable = Drawable(mesh: nat, hasPos: bool, hasNor: bool, mode: nat, count: int)

  /** `d.bindPos()`: binds the position buffer when the mesh has one and says
      whether it did. */
  function BindPos(d: Drawable, g: Gl): (bool, Gl) {
    if d.hasPos then (true, g.(arrayBuffer := Some(PositionBuffer(d.mesh)))) else (false, g)
  }

  /** `d.bindNor()`, likewise for the normal buffer. */
  function BindNor(d: Drawable, g: Gl): (bool, Gl) {
    if d.hasNor then (true, g.(arrayBuffer := Some(NormalBuffer(d.mesh)))) else (false, g)
  }

  /** `d.bindIdx()`: binds the index buffer. */
  function BindIdx(d: Drawable, g: Gl): Gl {
    g.(elementBuffer := Some(IndexBuffer(d.mesh)))
  }

  /** `gl.enableVertexAttribArray(i)` followed by
      `gl.vertexAttribPointer(i, 4, gl.FLOAT, false, 0, 0)`, which reads from
      the bound array buffer. */
  function EnableAttrib(g: Gl, i: nat): Gl {
    g.(enabled := g.enabled + {i},
       pointers := g.pointers[i := AttribPointer(g.arrayBuffer, 4, FLOAT)])
  }

  /** `gl.disableVertexAttribArray(i)`. */
  function DisableAttrib(g: Gl, i: nat): Gl {
    g.(enabled := g.enabled - {i})
  }

  /** `gl.drawElements(mode, count, type, 0)`: logged with the program in use,
      the bound index buffer, the enabled attributes and the depth test. */
  function DrawElements(g: Gl, mode: nat, count: int, indexType: nat): Gl {
    g.(draws := g.draws + [DrawCall(g.active, mode, count, indexType, g.elementBuffer, g.enabled, g.depthTest)])
  }
}
