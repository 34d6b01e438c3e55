/** The parameter snapshot the control panel edits (`controls`) and the copy
    last pushed to the shaders (`prevControls`), with `reset`, `toColor` and
    the field-by-field comparison the frame loop makes. */
module Controls {
  import opened Values

  /** A JavaScript array object; the colours in a snapshot are references to
      arrays, and two snapshots may share one. */
  type ArrayRef = nat

  /** The contents of every colour array currently alive. */
  type Heap = map<ArrayRef, seq<real>>

  /** The seven tunable fields; the `Load Scene` and `Reset` callbacks the
      objects also hold never change and are left out. */
  datatype Snapshot = Snapshot(
    tesselations: int,
    innerColor: ArrayRef,
    outerColor: ArrayRef,
    radialBias: real,
    radialGain: real,
    colorBias: real,
    colorGain: real)

  /** The arrays `[255, 255, 0]` and `[255, 0, 0]` that `defaultControls`
      is created with. */
  const DefaultInnerArray: ArrayRef := 0
  const DefaultOuterArray: ArrayRef := 1

  const InitialHeap: Heap := map[DefaultInnerArray := [255.0, 255.0, 0.0], DefaultOuterArray := [255.0, 0.0, 0.0]]

  /** `defaultControls`. */
  const Defaults: Snapshot := Snapshot(5, DefaultInnerArray, DefaultOuterArray, 0.45, 0.8, 0.5, 0.4)

  /** Both colour arrays of the snapshot are alive and have three channels. */
  ghost predicate ColorsAllocated(c: Snapshot, heap: Heap) {
    && c.innerColor in heap && |heap[c.innerColor]| >= 3
    && c.outerColor in heap && |heap[c.outerColor]| >= 3
  }

  /** `reset()`: `Object.assign(controls, defaultControls)` overwrites every
      field, colours included, with the default's own array references. */
  function Reset(live: Snapshot): (r: Snapshot)
    ensures r == Defaults
  {
    live.(tesselations := Defaults.tesselations,
          innerColor := Defaults.innerColor,
          outerColor := Defaults.outerColor,
          radialBias := Defaults.radialBias,
          radialGain := Defaults.radialGain,
          colorBias := Defaults.colorBias,
          colorGain := Defaults.colorGain)
  }

  /** `toColor(c)`: each of the first three channels divided by 255, and an
      alpha of one. */
  function ToColor(c: seq<real>): (r: Vec4)
    requires |c| >= 3
    ensures 255.0 * r.x == c[0] && 255.0 * r.y == c[1] && 255.0 * r.z == c[2]
    ensures r.w == 1.0
  {
    var normed := seq(|c|, i requires 0 <= i < |c| => c[i] / 255.0);
    Vec4(normed[0], normed[1], normed[2], 1.0)
  }

  /** The channels of a colour, recovered from what `toColor` produced. */
  function FromColor(v: Vec4): seq<real> {
    [255.0 * v.x, 255.0 * v.y, 255.0 * v.z]
  }

  /** `toColor` loses nothing but the channels past the third. */
  lemma ToColorRoundTrip(c: seq<real>)
    requires |c| >= 3
    ensures FromColor(ToColor(c)) == c[..3]
  {
  }

  /** `toColor` is injective on three-channel colours. */
  lemma ToColorInjective(a: seq<real>, b: seq<real>)
    requires |a| == 3 && |b| == 3
    ensures ToColor(a) == ToColor(b) <==> a == b
  {
    if ToColor(a) == ToColor(b) {
      ToColorRoundTrip(a);
      ToColorRoundTrip(b);
      assert a == a[..3] && b == b[..3];
    }
  }

  /** Channels in the GUI's range 0..255 give components in 0..1. */
  lemma ToColorInUnitRange(c: seq<real>)
    requires |c| >= 3
    requires forall i :: 0 <= i < 3 ==> 0.0 <= c[i] <= 255.0
    ensures 0.0 <= ToColor(c).x <= 1.0 && 0.0 <= ToColor(c).y <= 1.0 && 0.0 <= ToColor(c).z <= 1.0
  {
    var r := ToColor(c);
    assert 0.0 <= c[0] <= 255.0 && 0.0 <= c[1] <= 255.0 && 0.0 <= c[2] <= 255.0;
  }

  /** The fields of a snapshot, in the order the frame loop compares them. */
  datatype Field =
    | Tesselations | InnerColorField | OuterColorField
    | RadialBiasField | RadialGainField | ColorBiasField | ColorGainField

  /** The comparison the frame loop makes for one field: `!=` on numbers,
      and on the colour arrays reference inequality, which does not look at
      the contents. */
  predicate Differs(f: Field, live: Snapshot, committed: Snapshot) {
    match f
    case Tesselations => live.tesselations != committed.tesselations
    case InnerColorField => live.innerColor != committed.innerColor
    case OuterColorField => live.outerColor != committed.outerColor
    case RadialBiasField => live.radialBias != committed.radialBias
    case RadialGainField => live.radialGain != committed.radialGain
    case ColorBiasField => live.colorBias != committed.colorBias
    case ColorGainField => live.colorGain != committed.colorGain
  }

  /** The fields the frame loop will find changed. */
  function ChangedFields(live: Snapshot, committed: Snapshot): (r: set<Field>)
    ensures forall f :: f in r <==> Differs(f, live, committed)
  {
    AllFieldsListed();
    set f | f in AllFields && Differs(f, live, committed)
  }

  const AllFields: set<Field> := {Tesselations, InnerColorField, OuterColorField, RadialBiasField,
                                  RadialGainField, ColorBiasField, ColorGainField}

  lemma AllFieldsListed()
    ensures forall f: Field :: f in AllFields
  {
    forall f: Field ensures f in AllFields {
      match f
      case Tesselations => case InnerColorField => case OuterColorField => case RadialBiasField =>
      case RadialGainField => case ColorBiasField => case ColorGainField =>
    }
  }

  /** No field is found changed exactly when the two snapshots are the same
      snapshot: the seven comparisons cover every field. */
  lemma NothingChangedIffEqual(live: Snapshot, committed: Snapshot)
    ensures ChangedFields(live, committed) == {} <==> live == committed
  {
    if ChangedFields(live, committed) == {} {
      assert !Differs(Tesselations, live, committed);
      assert !Differs(InnerColorField, live, committed);
      assert !Differs(OuterColorField, live, committed);
      assert !Differs(RadialBiasField, live, committed);
      assert !Differs(RadialGainField, live, committed);
      assert !Differs(ColorBiasField, live, committed);
      assert !Differs(ColorGainField, live, committed);
    }
  }

  /** After `reset()` the snapshot differs from the committed one exactly in
      the fields where the committed one is not the default. */
  lemma ResetChangesOnlyNonDefaults(live: Snapshot, committed: Snapshot)
    ensures ChangedFields(Reset(live), committed) == ChangedFields(Defaults, committed)
    ensures Reset(Reset(live)) == Reset(live)
  {
  }
}
