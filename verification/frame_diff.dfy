/** The diff-and-tick part of one frame as a pure step: the live snapshot is
    compared with the committed one field by field, each change is copied
    into the committed snapshot and turned into pushes to the fireball and
    background shaders (or an icosphere rebuild), and the tick advances and
    is pushed to the fireball shader. */
module FrameDiff {
  import opened Values
  import opened GlState
  import opened Controls

  /** The two shader programs of the scene. */
  datatype Target = Fireball | Background

  /** What the step asks of the scene, in order: rebuild the icosphere at a
      tessellation level, or call a setter of one of the programs. */
  datatype Action = Rebuild(level: int) | Push(target: Target, slot: Uniform, value: UniformValue)

  /** The result of the step: the new committed snapshot, the new tick count
      and the actions to carry out. */
  datatype Step = Step(committed: Snapshot, tickCount: int, actions: seq<Action>)

  /** The uniforms each program is fed from the snapshot: the colours go to
      both, the bias and gain values only to the fireball. */
  function FedBy(t: Target): set<Uniform> {
    match t
    case Fireball => {InnerColor, OuterColor, RadialBias, RadialGain, ColorBias, ColorGain}
    case Background => {InnerColor, OuterColor}
  }

  /** The snapshot field a uniform is fed from. */
  function FieldFor(u: Uniform): Option<Field> {
    match u
    case InnerColor => Some(InnerColorField)
    case OuterColor => Some(OuterColorField)
    case RadialBias => Some(RadialBiasField)
    case RadialGain => Some(RadialGainField)
    case ColorBias => Some(ColorBiasField)
    case ColorGain => Some(ColorGainField)
    case _ => None
  }

  /** The value a snapshot feeds to a uniform: colours through `toColor` of
      the array's current contents, numbers as they are. */
  function SlotValue(u: Uniform, c: Snapshot, heap: Heap): UniformValue
    requires ColorsAllocated(c, heap) && FieldFor(u).Some?
  {
    match u
    case InnerColor => Vec4Value(ToColor(heap[c.innerColor]))
    case OuterColor => Vec4Value(ToColor(heap[c.outerColor]))
    case RadialBias => FloatValue(c.radialBias)
    case RadialGain => FloatValue(c.radialGain)
    case ColorBias => FloatValue(c.colorBias)
    case ColorGain => FloatValue(c.colorGain)
  }

  /** Every uniform a program is fed from the snapshot has a field. */
  lemma FedUniformsHaveFields(t: Target, u: Uniform)
    ensures u in FedBy(t) ==> FieldFor(u).Some?
    ensures u in FedBy(Background) ==> u in FedBy(Fireball)
  {
  }

  lemma AllFedUniformsHaveFields()
    ensures forall t, u :: u in FedBy(t) ==> FieldFor(u).Some?
  {
    forall t, u | u in FedBy(t) ensures FieldFor(u).Some? {
      FedUniformsHaveFields(t, u);
    }
  }

  /** The block of the frame that handles one field: nothing when it is
      unchanged; otherwise a rebuild for the tessellation, pushes to both
      programs for a colour, or a push to the fireball for the rest. */
  function FieldActions(f: Field, live: Snapshot, committed: Snapshot, heap: Heap): (r: seq<Action>)
    requires ColorsAllocated(live, heap)
    ensures forall a :: a in r ==> Differs(f, live, committed) && !(a.Push? && a.slot == Tick)
    ensures forall a :: a in r && a.Rebuild? ==> f == Tesselations && a.level == live.tesselations
    ensures forall a :: a in r && a.Push? ==>
              a.slot in FedBy(a.target) && FieldFor(a.slot) == Some(f) && a.value == SlotValue(a.slot, live, heap)
    ensures f == Tesselations && Differs(f, live, committed) ==> Rebuild(live.tesselations) in r
    ensures forall t, u :: u in FedBy(t) && FieldFor(u) == Some(f) && Differs(f, live, committed) ==>
              Push(t, u, SlotValue(u, live, heap)) in r
    ensures forall i, j :: 0 <= i < j < |r| && r[i].Push? && r[j].Push? ==> r[i].target != r[j].target
    ensures forall i, j :: 0 <= i < j < |r| ==> !r[i].Rebuild? || !r[j].Rebuild?
  {
    if !Differs(f, live, committed) then []
    else
      match f
      case Tesselations => [Rebuild(live.tesselations)]
      case InnerColorField =>
        var c := ToColor(heap[live.innerColor]);
        [Push(Fireball, InnerColor, Vec4Value(c)), Push(Background, InnerColor, Vec4Value(c))]
      case OuterColorField =>
        var c := ToColor(heap[live.outerColor]);
        [Push(Fireball, OuterColor, Vec4Value(c)), Push(Background, OuterColor, Vec4Value(c))]
      case RadialBiasField => [Push(Fireball, RadialBias, FloatValue(live.radialBias))]
      case RadialGainField => [Push(Fireball, RadialGain, FloatValue(live.radialGain))]
      case ColorBiasField => [Push(Fireball, ColorBias, FloatValue(live.colorBias))]
      case ColorGainField => [Push(Fireball, ColorGain, FloatValue(live.colorGain))]
  }

  /** A field has a non-empty block exactly when the comparison reports it
      changed. */
  lemma ChangedFieldsActed(f: Field, live: Snapshot, committed: Snapshot, heap: Heap)
    requires ColorsAllocated(live, heap)
    ensures f in ChangedFields(live, committed) <==> FieldActions(f, live, committed, heap) != []
  {
    if f in ChangedFields(live, committed) {
      match f
      case Tesselations =>
      case InnerColorField => assert InnerColor in FedBy(Fireball);
      case OuterColorField => assert OuterColor in FedBy(Fireball);
      case RadialBiasField => assert RadialBias in FedBy(Fireball);
      case RadialGainField => assert RadialGain in FedBy(Fireball);
      case ColorBiasField => assert ColorBias in FedBy(Fireball);
      case ColorGainField => assert ColorGain in FedBy(Fireball);
    }
  }

  /** The committed snapshot after the diff block: each field is copied from
      the live snapshot only when it was found changed. */
  function Commit(live: Snapshot, committed: Snapshot): (r: Snapshot)
    ensures r == live
  {
    var c1 := if Differs(Tesselations, live, committed) then committed.(tesselations := live.tesselations) else committed;
    var c2 := if Differs(InnerColorField, live, c1) then c1.(innerColor := live.innerColor) else c1;
    var c3 := if Differs(OuterColorField, live, c2) then c2.(outerColor := live.outerColor) else c2;
    var c4 := if Differs(RadialBiasField, live, c3) then c3.(radialBias := live.radialBias) else c3;
    var c5 := if Differs(RadialGainField, live, c4) then c4.(radialGain := live.radialGain) else c4;
    var c6 := if Differs(ColorBiasField, live, c5) then c5.(colorBias := live.colorBias) else c5;
    if Differs(ColorGainField, live, c6) then c6.(colorGain := live.colorGain) else c6
  }

  /** The push of the new tick count that ends the step. */
  function TickPush(tickCount: int): Action {
    Push(Fireball, Tick, FloatValue(tickCount as real))
  }

  /** The order in which the frame compares the fields. */
  const FieldOrder: seq<Field> := [Tesselations, InnerColorField, OuterColorField,
                                   RadialBiasField, RadialGainField, ColorBiasField, ColorGainField]

  /** The blocks for the given fields, one after the other. */
  function Blocks(fields: seq<Field>, live: Snapshot, committed: Snapshot, heap: Heap): (r: seq<Action>)
    requires ColorsAllocated(live, heap)
    ensures forall a :: a in r ==> !(a.Push? && a.slot == Tick)
    ensures forall a :: a in r && a.Rebuild? ==>
              Tesselations in fields && Differs(Tesselations, live, committed) && a.level == live.tesselations
    ensures Tesselations in fields && Differs(Tesselations, live, committed) ==> Rebuild(live.tesselations) in r
    ensures forall t, u :: u in FedBy(t) && FieldFor(u).Some? && FieldFor(u).value in fields
                           && Differs(FieldFor(u).value, live, committed) ==>
              Push(t, u, SlotValue(u, live, heap)) in r
    ensures forall a :: a in r && a.Push? ==>
              a.slot in FedBy(a.target) && FieldFor(a.slot).Some? && FieldFor(a.slot).value in fields
              && Differs(FieldFor(a.slot).value, live, committed) && a.value == SlotValue(a.slot, live, heap)
  {
    if fields == [] then []
    else Blocks(fields[..|fields| - 1], live, committed, heap) + FieldActions(fields[|fields| - 1], live, committed, heap)
  }

  /** The diff block and the tick of one frame. */
  function DiffStep(live: Snapshot, committed: Snapshot, heap: Heap, tickCount: int): (r: Step)
    requires ColorsAllocated(live, heap)
    ensures r.committed == live
    ensures r.tickCount == tickCount + 1
    ensures |r.actions| > 0 && r.actions[|r.actions| - 1] == Push(Fireball, Tick, FloatValue(r.tickCount as real))
    ensures forall i :: 0 <= i < |r.actions| - 1 ==> !(r.actions[i].Push? && r.actions[i].slot == Tick)
    ensures Rebuild(live.tesselations) in r.actions <==> live.tesselations != committed.tesselations
    ensures forall a :: a in r.actions && a.Rebuild? ==> a.level == live.tesselations
    ensures forall t, u :: u in FedBy(t) ==>
              (Push(t, u, SlotValue(u, live, heap)) in r.actions <==> Differs(FieldFor(u).value, live, committed))
    ensures forall a :: a in r.actions && a.Push? && a.slot != Tick ==>
              a.slot in FedBy(a.target) && Differs(FieldFor(a.slot).value, live, committed)
              && a.value == SlotValue(a.slot, live, heap)
  {
    AllFieldsInOrder();
    var body := Blocks(FieldOrder, live, committed, heap);
    Step(Commit(live, committed), tickCount + 1, body + [TickPush(tickCount + 1)])
  }

  lemma AllFieldsInOrder()
    ensures forall f: Field :: f in FieldOrder
  {
    forall f: Field ensures f in FieldOrder {
      match f
      case Tesselations => case InnerColorField => case OuterColorField => case RadialBiasField =>
      case RadialGainField => case ColorBiasField => case ColorGainField =>
    }
  }

  /** When every field but `f` is unchanged, the blocks reduce to the block
      of `f`, if `f` is listed (once). */
  lemma {:induction false} BlocksOnlyOne(fields: seq<Field>, f: Field, live: Snapshot, committed: Snapshot, heap: Heap)
    requires ColorsAllocated(live, heap)
    requires forall g :: g != f ==> !Differs(g, live, committed)
    requires multiset(fields)[f] <= 1
    ensures Blocks(fields, live, committed, heap) == if f in fields then FieldActions(f, live, committed, heap) else []
  {
    if fields != [] {
      var prefix := fields[..|fields| - 1];
      var last := fields[|fields| - 1];
      assert fields == prefix + [last];
      assert multiset(fields) == multiset(prefix) + multiset{last};
      BlocksOnlyOne(prefix, f, live, committed, heap);
      if last == f {
        assert f !in multiset(prefix);
      }
    }
  }

  /** A frame in which nothing changed only advances and pushes the tick. */
  lemma UnchangedStepOnlyTicks(live: Snapshot, heap: Heap, tickCount: int)
    requires ColorsAllocated(live, heap)
    ensures DiffStep(live, live, heap, tickCount).actions == [TickPush(tickCount + 1)]
  {
    assert multiset(FieldOrder)[Tesselations] == 1;
    BlocksOnlyOne(FieldOrder, Tesselations, live, live, heap);
  }

  /** A frame in which exactly one field changed makes that field's block of
      actions and then the tick push, nothing else. */
  lemma OneChangeStep(f: Field, live: Snapshot, committed: Snapshot, heap: Heap, tickCount: int)
    requires ColorsAllocated(live, heap)
    requires forall g :: g != f ==> !Differs(g, live, committed)
    ensures DiffStep(live, committed, heap, tickCount).actions
            == FieldActions(f, live, committed, heap) + [TickPush(tickCount + 1)]
  {
    AllFieldsInOrder();
    assert multiset(FieldOrder)[f] <= 1 by {
      match f
      case Tesselations => case InnerColorField => case OuterColorField => case RadialBiasField =>
      case RadialGainField => case ColorBiasField => case ColorGainField =>
    }
    BlocksOnlyOne(FieldOrder, f, live, committed, heap);
  }

  /** Concretely: moving only the inner colour to a new array pushes the new
      colour to the fireball and then to the background, then the tick. */
  lemma InnerColorOnlyStep(live: Snapshot, committed: Snapshot, heap: Heap, tickCount: int)
    requires ColorsAllocated(live, heap)
    requires live == committed.(innerColor := live.innerColor) && live.innerColor != committed.innerColor
    ensures var c := Vec4Value(ToColor(heap[live.innerColor]));
            DiffStep(live, committed, heap, tickCount).actions
            == [Push(Fireball, InnerColor, c), Push(Background, InnerColor, c), TickPush(tickCount + 1)]
  {
    OneChangeStep(InnerColorField, live, committed, heap, tickCount);
  }
}
