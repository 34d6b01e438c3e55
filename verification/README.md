# hw01-fireball: the frame loop and the shader program, in Dafny

A WebGL 2 fireball viewer. A control panel edits a live parameter snapshot:
the tessellation level, inner and outer colour, radial bias and gain, and
colour bias and gain. Once per animation frame, `tick()` does three things:

- it compares the live snapshot with the copy last pushed to the shaders;
- for each changed field it rebuilds the icosphere or pushes a uniform to the
  fireball and/or background shader program, and advances and pushes a tick
  counter;
- it draws the background square with the depth test off, then the fireball
  with it on.

This project models two pieces:

- The frame step. It is a pure diff-and-tick function from
  (live, committed, tick) to (committed', tick', ordered actions). It is
  embedded in a frame function that carries the actions out against an
  abstract GL state and then renders.
- `ShaderProgram` as transitions of that abstract GL state:
  - construction, with its error paths and slot resolution;
  - the cached `use()`;
  - the nine uniform setters (ten uniforms: `setModelMatrix` writes two);
  - `draw`.

Modules:

- `Values`: `Option`/`Result`, gl-matrix vectors and a symbolic `mat4`,
  uniform values.
- `GlState`: the GL context as a record:
  - the module-level `activeProgram` shared by every program;
  - a log of `useProgram` calls;
  - the uniform store keyed by (program, uniform);
  - enabled attributes and attribute pointers;
  - bound buffers;
  - a draw log;
  - the depth-test flag.

  It also holds the primitive GL calls over that record.
- `ShaderProgram`: `Shader` and `ShaderProgram` from
  `src/rendering/gl/ShaderProgram.ts`.
- `Controls`:
  - the parameter snapshot (`controls` and `prevControls`);
  - colour arrays as references into a heap, so that `!=` on them is
    reference inequality, as in JavaScript;
  - `reset`, `toColor` and the per-field comparison.
- `FrameDiff`: the diff block and tick of `tick()` as an ordered list of
  actions.
- `FrameLoop`:
  - start-up (the initial pushes);
  - applying the actions;
  - rendering in the order the frame uses;
  - one frame, and a run of frames;
  - the invariant that the shaders hold the committed parameters.

Two behaviours of the code that a reader might not expect, and that the
model follows:

- **Icosphere rebuild.** When the tessellation changes,
  `src/main.ts:123-127` builds a new icosphere and drops the reference to
  the old one without releasing its GPU buffers. The model replaces the
  icosphere and releases nothing.
- **Absent uniforms.** `getUniformLocation` yields `null` for a uniform the
  program does not declare, so the `!== -1` guards in front of every
  uniform upload (`src/rendering/gl/ShaderProgram.ts:72-140`) never fire.
  The upload goes through, and GL ignores it because the location is
  `null`.
  - `ShaderProgram.Guard` models the guard literally.
  - `GlState.UploadUniform` models GL ignoring a `null` location.
  - `UniformGuardNeverFires` states the consequence.

  For attributes, `getAttribLocation` really returns `-1`, and the `!= -1`
  tests in `draw` do take effect.

## Model

| member | source | states |
|---|---|---|
| `ShaderProgram.CompileStages` | src/rendering/gl/ShaderProgram.ts:10-18 | constructing the stages of one program in order succeeds exactly when every stage compiles, and then yields one shader per stage in order; otherwise it fails with the info log of the first stage that does not compile |
| `ShaderProgram.CompileAndLink` | src/main.ts:94-97 | `new ShaderProgram([new Shader(..), ...])` succeeds exactly when every stage compiles and the program links; a compile error wins over the link and carries the first failing stage's log; with every stage compiled a failed link carries the program log; on success the program has the handle `createProgram` returned, is well formed, holds the location lookup of every uniform, and holds in each attribute slot `getAttribLocation` of its name |
| `ShaderProgram.NewShaderProgram` | src/rendering/gl/ShaderProgram.ts:39-63 | fails exactly when linking fails, with the program info log; on success each uniform slot is present exactly when its GLSL name is an active uniform and then holds this program's own location, each attribute slot holds `getAttribLocation` of its name, so it is `-1` exactly when the name is not an active attribute and otherwise its linked location, and present position/normal/colour slots are pairwise distinct whenever GL gives distinct attributes distinct locations |
| `ShaderProgram.AttribLocation` | src/rendering/gl/ShaderProgram.ts:50-52 | `-1` exactly for an attribute the program does not declare, otherwise its linked location |
| `ShaderProgram.UniformLocation` | src/rendering/gl/ShaderProgram.ts:53-62 | a location exactly for a declared uniform, and only ever `null` or this program's own location for that uniform |
| `ShaderProgram.Use` | src/rendering/gl/ShaderProgram.ts:65-70 | afterwards the program is active; a `useProgram` is logged exactly when another program (or none) was active; nothing else in the GL state changes |
| `ShaderProgram.UseTwice` | src/rendering/gl/ShaderProgram.ts:65-70 | two consecutive `use()` calls equal one, issuing at most one `useProgram` |
| `ShaderProgram.UseAlternating` | src/rendering/gl/ShaderProgram.ts:65-70 | switching between two programs issues a `useProgram` on every switch, in order |
| `ShaderProgram.SetUniform` | src/rendering/gl/ShaderProgram.ts:86-140 | every setter of one uniform leaves its program active, issues at most one `useProgram`, changes nothing outside the uniform store and the active-program state, logs exactly the `useProgram` that `use()` would, stores the value at its slot when the slot is present, leaves the store untouched when it is absent, and leaves every other location alone |
| `ShaderProgram.SetModelMatrix` | src/rendering/gl/ShaderProgram.ts:72-84 | leaves the program active and logs exactly the `useProgram` that `use()` would; the inverse-transpose of the model matrix lands at the `u_ModelInvTr` slot and the matrix itself at `u_Model` when present; every other location and all non-uniform state is unchanged |
| `ShaderProgram.SetModelMatrixWritesOwnSlots` | src/rendering/gl/ShaderProgram.ts:72-84 | for a well-formed program, `setModelMatrix` changes no location other than that program's `u_Model` and `u_ModelInvTr`, and each of those, when present, holds the matrix and its inverse-transpose |
| `ShaderProgram.UniformGuardNeverFires` | src/rendering/gl/ShaderProgram.ts:93-98 | for a constructed program every uniform slot is a location or `null`, so the `!== -1` guard always lets the upload through |
| `ShaderProgram.AbsentUniformIsIgnored` | src/rendering/gl/ShaderProgram.ts:53-140 | a program linked without a uniform keeps its uniform store unchanged when that uniform's setter is called |
| `ShaderProgram.SetUniformWritesOwnSlot` | src/rendering/gl/ShaderProgram.ts:93-140 | a setter changes no location other than its own uniform of its own program |
| `ShaderProgram.SetUniformOverwrites` | src/rendering/gl/ShaderProgram.ts:93-98 | setting a uniform twice is the same as setting it once to the second value |
| `ShaderProgram.SetUniformsCommute` | src/rendering/gl/ShaderProgram.ts:93-140 | setters of two different uniforms of one program give the same GL state in either order |
| `ShaderProgram.Draw` | src/rendering/gl/ShaderProgram.ts:142-160 | leaves the program active and logs exactly the `useProgram` that `use()` would; leaves the uniforms and depth test unchanged; appends exactly one draw whose mode, count, unsigned-int index type and index buffer are the drawable's; at the draw the enabled attributes are the old ones plus each present position/normal slot whose binder returned true; afterwards every present position/normal slot is disabled; the pointers of enabled slots read the position/normal buffers, all other pointers are untouched, and no pointer is set outside the enabled slots |
| `ShaderProgram.DrawRestoresEnabled` | src/rendering/gl/ShaderProgram.ts:158-159 | a draw from a state in which the program's position/normal slots are off leaves the enabled set as it found it |
| `ShaderProgram.DrawLeavesColourAlone` | src/rendering/gl/ShaderProgram.ts:142-160 | the colour attribute's enabled flag and pointer are never changed by `draw` |
| `ShaderProgram.DrawEnablesOnlyBoundChannels` | src/rendering/gl/ShaderProgram.ts:145-153 | a slot that was off is on during the draw exactly when it is the present position (normal) slot and `bindPos()` (`bindNor()`) returned true |
| `Controls.Reset` | src/main.ts:50-52 | every tunable field, colour references included, becomes the default |
| `Controls.ResetChangesOnlyNonDefaults` | src/main.ts:50-52 | after `reset()` the fields found changed are exactly those in which the committed snapshot differs from the defaults, and a second reset changes nothing |
| `Controls.ToColor` | src/main.ts:30-33 | each of the first three channels is 255 times the corresponding component, and alpha is 1 |
| `Controls.ToColorRoundTrip` | src/main.ts:30-33 | scaling the components back by 255 recovers the first three channels exactly |
| `Controls.ToColorInjective` | src/main.ts:30-33 | two three-channel colours convert to the same vector exactly when they are equal |
| `Controls.ToColorInUnitRange` | src/main.ts:30-33 | channels in the colour picker's range 0..255 give components in 0..1 |
| `Controls.ChangedFields` | src/main.ts:123-153 | a field is reported changed exactly when the frame's comparison finds it changed (colours by reference) |
| `FrameDiff.ChangedFieldsActed` | src/main.ts:123-153 | a field's block of the frame does something exactly when the comparison reports that field changed |
| `Controls.NothingChangedIffEqual` | src/main.ts:123-153 | no field is found changed exactly when the live and committed snapshots are identical |
| `FrameDiff.FedUniformsHaveFields` | src/main.ts:128-153 | every uniform a program is fed from the snapshot has a snapshot field, and the background's are a subset of the fireball's |
| `FrameDiff.FieldActions` | src/main.ts:123-153 | an unchanged field yields no action; a changed tessellation yields a rebuild at the live level; a changed colour yields one push of its converted live value to each program; a changed bias/gain yields one push to the fireball only |
| `FrameDiff.Commit` | src/main.ts:123-153 | copying the changed fields one by one leaves the committed snapshot equal to the live one |
| `FrameDiff.Blocks` | src/main.ts:123-153 | the concatenated blocks contain a rebuild or push exactly for the listed fields that changed, with live values, and never a tick push |
| `FrameDiff.DiffStep` | src/main.ts:123-155 | committed becomes live; the tick grows by one and the last action pushes the new tick to the fireball, with no tick push before it; a rebuild at the live level occurs exactly when the tessellation changed; each program receives a push of a fed uniform's live value exactly when that field changed; every other push is of a fed, changed field with its live value |
| `FrameDiff.BlocksOnlyOne` | src/main.ts:123-153 | when only one field can have changed, the blocks reduce to that field's block |
| `FrameDiff.UnchangedStepOnlyTicks` | src/main.ts:123-155 | a frame in which nothing changed does nothing but push the new tick |
| `FrameDiff.OneChangeStep` | src/main.ts:123-155 | a frame in which only one field changed makes that field's actions and then the tick push, nothing else |
| `FrameDiff.InnerColorOnlyStep` | src/main.ts:128-132 | moving only the inner colour to a new array pushes the new colour to the fireball, then to the background, then the tick |
| `FrameLoop.ApplyAll` | src/main.ts:123-153 | carrying out actions changes only the icosphere and the program/uniform part of the GL state; the icosphere is the one built by the last rebuild, or unchanged without one |
| `FrameLoop.ApplyAllSlot` | src/main.ts:104-153 | after a list of pushes, a present uniform slot holds the last value pushed to it and any slot pushed nothing keeps its value |
| `FrameLoop.RebuildOfStep` | src/main.ts:123-127 | the frame's actions rebuild, at the live level, exactly when the tessellation changed |
| `FrameLoop.StepLastPush` | src/main.ts:128-153 | the last push of a fed uniform in a frame is its live value when its field changed, and there is none otherwise |
| `FrameLoop.StepLastTick` | src/main.ts:154-155 | the last tick push of a frame carries the post-increment tick |
| `FrameLoop.DrawAll` | src/main.ts:157-164 | drawing a list with one program logs one draw per drawable, in order, each with that program, that drawable's index buffer, mode and count and the current depth-test setting, and writes no uniform besides the model matrices |
| `FrameLoop.Render` | src/main.ts:157-164 | rendering leaves the program active and the depth test as it was, appends the drawables' draws in order, and, for a well-formed program, stores the view-projection matrix at its `u_ViewProj` slot when present and writes no uniform besides its three matrices |
| `FrameLoop.RenderFrame` | src/main.ts:157-164 | with a well-formed program, setting the view-projection matrix and drawing the list changes no uniform location except that program's model, inverse-transpose model and view-projection slots, and leaves the view-projection matrix at the `u_ViewProj` slot when present |
| `FrameLoop.Frame` | src/main.ts:123-164 | one frame leaves live snapshot, heap, square and programs alone; committed becomes live; the tick grows by one; the icosphere is rebuilt at centre (0,0,0), radius 1 and the live level exactly when the tessellation changed; the depth test ends enabled; exactly two draws are appended, the square by the background program with the depth test off and then the icosphere by the fireball program with it on |
| `FrameLoop.FrameSlot` | src/main.ts:154-164 | rendering after the diff block changes no colour, bias, gain or tick uniform |
| `FrameLoop.FrameSyncsSlot` | src/main.ts:123-153 | a fed uniform that held the committed value holds the live value after the frame |
| `FrameLoop.FrameKeepsInSync` | src/main.ts:123-153 | if the shaders held the committed parameters before a frame, they hold the new committed (the live) parameters after it |
| `FrameLoop.FrameTick` | src/main.ts:154-155 | after a frame the fireball's tick uniform, when declared, holds the post-increment tick count |
| `FrameLoop.InitialPushes` | src/main.ts:104-111 | the start-up pushes are exactly the snapshot's values for every fed uniform of both programs |
| `FrameLoop.InitialPushesLast` | src/main.ts:104-111 | every fed uniform's last start-up push is the snapshot's value, and start-up rebuilds nothing |
| `FrameLoop.Start` | src/main.ts:85-111 | start-up fails exactly when a stage of either program fails to compile or either program fails to link; the fireball program's error is thrown first, and the background program's only when the fireball program was built; otherwise the two programs are exactly the ones `CompileAndLink` builds from each source, so they have the handles `createProgram` returned and are well formed, and the square is the one given; otherwise both snapshots are the defaults sharing the default arrays, the tick is 0, the depth test is on, nothing is drawn yet and the icosphere is built at level 5 |
| `FrameLoop.StartInSync` | src/main.ts:104-111 | after start-up the shaders hold the default parameters |
| `FrameLoop.NextFrame` | src/main.ts:117-169 | a frame after the user's edits adds one to the tick, keeps the programs, and leaves the new tick in the fireball's tick uniform |
| `FrameLoop.RunTicks` | src/main.ts:39-155 | after N frames the tick count has grown by exactly N (from start-up, where it is 0, it is N) |
| `FrameLoop.RunTickUniform` | src/main.ts:154-155 | after at least one frame the last tick pushed to the fireball is the current tick count |
| `FrameLoop.InPlaceEditNotPushed` | src/main.ts:128-137 | a colour array, inner or outer, edited in place (same reference) is not pushed: both programs keep their previous value of that colour |
| `FrameLoop.InPlaceEditGoesStale` | src/main.ts:128-132 | when the committed inner-colour array's contents are overwritten with a different colour, the fireball still holds the old colour after the frame, so the shaders no longer hold the committed snapshot |
| `FrameLoop.InPlaceEditLeavesShadersStale` | src/main.ts:128-132 | concretely, with the default yellow pushed and the same inner-colour array turned blue in place, the fireball still shows yellow after the frame, out of step with the snapshot it committed |
| `FrameLoop.ResetThenFrame` | src/main.ts:50-52 | pressing Reset and rendering one frame commits the defaults and brings the shaders back to them |

## Left out

- The WebGL calls themselves are replaced by a record of the state they touch:
  - `createShader`, `compileShader`, `createProgram`, `linkProgram`;
  - the `uniform*` uploads, `enable`/`disable`, `drawElements`,
    `viewport` and `clear`.

  Compile and link results enter as parameters: the compile status, the
  link status, the info logs, and the active attributes and uniforms.
- `ShaderProgram.NewShader`, one stage's compile, has no row of its own: its
  meaning is stated through `ShaderProgram.CompileStages`.
- The named setters `setInnerColor` … `setTick` are one function,
  `ShaderProgram.SetUniform`, of the uniform they name. A push in the frame
  step names the setter by its uniform.
- `attachShader` is not recorded. It affects only GL's own program object,
  and its effect reaches the model through the link outcome.
- gl-matrix numerics (the transpose and inverse in `setModelMatrix`, the
  camera's matrices) are not computed. The inverse-transpose is kept as a
  symbolic matrix.
- The stats widget, the dat.GUI wiring, the canvas and DOM lookup, `alert`,
  `requestAnimationFrame` scheduling and the resize listener are user
  interface and I/O (`src/main.ts:54-79`, `src/main.ts:165-182`). The user's
  edits between frames enter `FrameLoop.Run` as a list of inputs.
- `camera.update()`, `stats.begin()`, `gl.viewport` and `renderer.clear()`
  at the top of `tick()`, and `stats.end()` at its bottom, have no effect on
  the modelled state.
- `Icosphere`, `Square`, `Cube`, `Camera`, `OpenGLRenderer` and the
  `Drawable` base class are not part of this model:
  - Icosphere construction is a parameter mapping a level to the mesh it
    creates.
  - The buffers `icosphere.create()` allocates and the array and index
    buffer bindings it leaves behind are not recorded. A rebuild at a level
    built before gets the same mesh back in the model, where the program
    allocates fresh buffers. `draw` binds its own buffers before drawing, so
    neither difference reaches the draw log.
  - A drawable is the record of its answers to `bindPos`, `bindNor`,
    `drawMode` and `elemCount`, and of the buffers it binds. `bindPos`
    (`bindNor`) is taken to bind its position (normal) buffer exactly when
    it returns true.
  - `renderer.render` is assumed to set the view-projection matrix, then
    for each drawable set the identity model matrix and draw it; its source
    is not part of this model.
- The cube built by `loadScene` is never drawn and is left out.
- GLSL sources are left out. Only which names a linked program declares
  matters.
- JavaScript number semantics are not modelled: parameters are exact reals
  and the tick counter is an unbounded integer. NaN is out of scope.
- Uniform uploads (`gl.uniform1f`, `gl.uniform4fv`, `gl.uniformMatrix4fv`)
  and gl-matrix vectors are 32-bit floats. The model stores exact values.
- FrameLoop.FrameTick: states that the tick uniform equals the tick count
  exactly. `setTick` uploads with `gl.uniform1f`, a 32-bit float, so the
  equality holds in the program only up to 2^24 frames (about three days
  at 60 frames per second).
- FrameLoop.RunTickUniform: the same exact-equality abstraction as
  `FrameTick`. The tick uniform matches the count only up to 2^24.
- FrameLoop.NextFrame: the same exact-equality abstraction for the tick
  uniform.
- Controls.ToColorRoundTrip: exact over the model's reals. `toColor` builds
  a gl-matrix `vec4`, a `Float32Array`, so in the program the round trip
  holds only up to 32-bit rounding.
- `Controls.ToColor` requires at least three channels. On a shorter array
  the source builds a vector with NaN components, which the model does not
  represent. The colour picker always supplies three channels.
- The property "from start-up, after N frames the fireball's tick uniform
  holds N" is stated in two parts. `FrameLoop.Start` gives tick 0, and
  `FrameLoop.RunTicks` with `FrameLoop.RunTickUniform` cover any start
  state. There is no single lemma applying the run to `Start`'s result:
  with Dafny 4.11, composing the recursive `Run` with `Start`'s literal
  initial state lets the verifier derive `false`, so such a lemma would rest
  on contradictory assumptions.
