/** The beam constructor's carry-forward pass: one left-to-right sweep over
    the control points that fills each point's missing aperture and geometry
    fields from the (already filled) previous point. */
module CarryForwardPass {
  import opened Optional
  import opened DicomUtils
  import opened ControlPoints

  /** The source tests angles for truthiness: an angle counts as set when it
      is present and nonzero, so a true 0 is replaced by a nonzero previous angle. */
  predicate AngleSet(a: Option<real>) {
    a.Some? && a.value != 0.0
  }

  function InheritOption<T>(cur: Option<T>, prev: Option<T>): Option<T> {
    if cur.None? && prev.Some? then prev else cur
  }

  function InheritAngle(cur: Option<real>, prev: Option<real>): Option<real> {
    if !AngleSet(cur) && AngleSet(prev) then prev else cur
  }

  function InheritBank(cur: seq<real>, prev: seq<real>): seq<real> {
    if |cur| == 0 && |prev| > 0 then prev else cur
  }

  /** One step of the pass: `cur` after inheriting from its predecessor
      `prev`; every field that is not carried stays `cur`'s. */
  function Inherit(cur: ControlPoint, prev: ControlPoint): (r: ControlPoint)
    ensures SameUncarried(r, cur)
  {
    cur.(
      jawX := InheritOption(cur.jawX, prev.jawX),
      jawY := InheritOption(cur.jawY, prev.jawY),
      isocenter := InheritOption(cur.isocenter, prev.isocenter),
      ssd := InheritOption(cur.ssd, prev.ssd),
      gantryAngle := InheritAngle(cur.gantryAngle, prev.gantryAngle),
      collimatorAngle := InheritAngle(cur.collimatorAngle, prev.collimatorAngle),
      couchAngle := InheritAngle(cur.couchAngle, prev.couchAngle),
      mlcA := InheritBank(cur.mlcA, prev.mlcA),
      mlcB := InheritBank(cur.mlcB, prev.mlcB))
  }

  /** The pass over a whole list: point 0 is kept, every later point inherits
      from the already-processed point before it. */
  function CarryForward(cps: seq<ControlPoint>): (r: seq<ControlPoint>)
    ensures |r| == |cps|
    ensures |cps| > 0 ==> r[0] == cps[0]
    ensures forall i :: 0 < i < |cps| ==> r[i] == Inherit(cps[i], r[i - 1])
    decreases |cps|
  {
    if |cps| <= 1 then cps
    else
      var p := CarryForward(cps[..|cps| - 1]);
      p + [Inherit(cps[|cps| - 1], p[|p| - 1])]
  }

  /** The in-place loop of the beam constructor over indices 1 .. end. */
  method CarryForwardInPlace(cps: seq<ControlPoint>) returns (r: seq<ControlPoint>)
    ensures r == CarryForward(cps)
  {
    r := cps;
    var i := 1;
    while i < |r|
      invariant |r| == |cps|
      invariant |cps| > 0 ==> 1 <= i <= |cps|
      invariant |cps| > 0 ==> r[..i] == CarryForward(cps[..i])
      invariant forall j :: i <= j < |r| ==> r[j] == cps[j]
    {
      var prefix := CarryForward(cps[..i + 1]);
      assert cps[..i + 1][..i] == cps[..i];
      r := r[i := Inherit(r[i], r[i - 1])];
      assert r[..i + 1] == prefix;
      i := i + 1;
    }
    if |cps| > 0 {
      assert cps[..i] == cps;
      assert r[..i] == r;
    }
  }

  /** The carried fields, named so that one lemma can speak about all of them. */
  datatype Field = JawX | JawY | Isocenter | Ssd | Gantry | Collimator | Couch | BankA | BankB

  datatype FieldValue =
    | PairValue(pair: Option<Pair>)
    | TripleValue(triple: Option<Triple>)
    | Scalar(scalar: Option<real>)
    | Bank(bank: seq<real>)

  function Get(cp: ControlPoint, f: Field): FieldValue {
    match f
    case JawX => PairValue(cp.jawX)
    case JawY => PairValue(cp.jawY)
    case Isocenter => TripleValue(cp.isocenter)
    case Ssd => Scalar(cp.ssd)
    case Gantry => Scalar(cp.gantryAngle)
    case Collimator => Scalar(cp.collimatorAngle)
    case Couch => Scalar(cp.couchAngle)
    case BankA => Bank(cp.mlcA)
    case BankB => Bank(cp.mlcB)
  }

  /** Whether a value of field `f` counts as supplied in the source's test:
      present for the optionals, nonzero for the angles, non-empty for the banks. */
  predicate Supplied(v: FieldValue, f: Field) {
    match v
    case PairValue(p) => p.Some?
    case TripleValue(t) => t.Some?
    case Scalar(s) => if f == Ssd then s.Some? else AngleSet(s)
    case Bank(b) => |b| > 0
  }

  predicate Supplies(cp: ControlPoint, f: Field) {
    Supplied(Get(cp, f), f)
  }

  /** Every field not carried forward is equal. */
  predicate SameUncarried(a: ControlPoint, b: ControlPoint) {
    a.(jawX := b.jawX, jawY := b.jawY, isocenter := b.isocenter, ssd := b.ssd,
       gantryAngle := b.gantryAngle, collimatorAngle := b.collimatorAngle, couchAngle := b.couchAngle,
       mlcA := b.mlcA, mlcB := b.mlcB) == b
  }

  /** One step, field by field: `cur` keeps a field it supplies and takes
      its predecessor's when it does not and the predecessor does. */
  lemma InheritField(cur: ControlPoint, prev: ControlPoint, f: Field)
    ensures Get(Inherit(cur, prev), f) == if !Supplies(cur, f) && Supplies(prev, f) then Get(prev, f) else Get(cur, f)
  {
    match f
    case JawX =>
    case JawY =>
    case Isocenter =>
    case Ssd =>
    case Gantry =>
    case Collimator =>
    case Couch =>
    case BankA =>
    case BankB =>
  }

  /** The last point at or before `i` that supplies `f`, if any. */
  function LastSupplier(cps: seq<ControlPoint>, i: nat, f: Field): (j: Option<nat>)
    requires i < |cps|
    ensures j.Some? ==> j.value <= i && Supplies(cps[j.value], f)
    ensures j.Some? ==> forall k :: j.value < k <= i ==> !Supplies(cps[k], f)
    ensures j.None? ==> forall k :: 0 <= k <= i ==> !Supplies(cps[k], f)
  {
    if Supplies(cps[i], f) then Some(i)
    else if i == 0 then None
    else LastSupplier(cps, i - 1, f)
  }

  /** Reference meaning of the pass: point `i`'s field is that of the last
      point at or before `i` supplying it, or its own value when none does. */
  function Resolved(cps: seq<ControlPoint>, i: nat, f: Field): FieldValue
    requires i < |cps|
  {
    match LastSupplier(cps, i, f)
    case Some(j) => Get(cps[j], f)
    case None => Get(cps[i], f)
  }

  /** The pass computes exactly the reference meaning, for every point and
      every carried field, and leaves every other field alone. */
  lemma {:induction false} CarryForwardResolves(cps: seq<ControlPoint>, i: nat, f: Field)
    requires i < |cps|
    ensures Get(CarryForward(cps)[i], f) == Resolved(cps, i, f)
    ensures SameUncarried(CarryForward(cps)[i], cps[i])
    decreases i
  {
    var r := CarryForward(cps);
    if i > 0 {
      CarryForwardResolves(cps, i - 1, f);
      InheritField(cps[i], r[i - 1], f);
      // `r[i-1]` supplies `f` exactly when some point at or before i-1 does.
      match LastSupplier(cps, i - 1, f)
      case Some(j) =>
      case None =>
    }
  }

  /** The pass keeps the bank invariant. The two banks are copied
      independently, but a point's banks are both empty or both full, so
      they are inherited together; the leaf-pair count is never carried. */
  lemma {:induction false} CarryForwardKeepsBanksPaired(cps: seq<ControlPoint>, i: nat)
    requires i < |cps|
    requires forall k :: 0 <= k < |cps| ==> cps[k].leafPairs == LeafPairs && BanksPaired(cps[k])
    ensures CarryForward(cps)[i].leafPairs == LeafPairs && BanksPaired(CarryForward(cps)[i])
    decreases i
  {
    if i > 0 {
      CarryForwardKeepsBanksPaired(cps, i - 1);
      assert CarryForward(cps)[i] == Inherit(cps[i], CarryForward(cps)[i - 1]);
    }
  }

  /** Closure: a field supplied by point 0 and by no later point ends up
      equal to point 0's value at every point. */
  lemma CarryForwardClosure(cps: seq<ControlPoint>, f: Field)
    requires |cps| > 0 && Supplies(cps[0], f)
    requires forall k :: 0 < k < |cps| ==> !Supplies(cps[k], f)
    ensures forall i :: 0 <= i < |cps| ==> Get(CarryForward(cps)[i], f) == Get(cps[0], f)
  {
    forall i | 0 <= i < |cps|
      ensures Get(CarryForward(cps)[i], f) == Get(cps[0], f)
    {
      CarryForwardResolves(cps, i, f);
      var j := LastSupplier(cps, i, f);
      assert j == Some(0);
    }
  }

  /** A point that supplies a field keeps its own value. */
  lemma CarryForwardKeepsOwn(cps: seq<ControlPoint>, i: nat, f: Field)
    requires i < |cps| && Supplies(cps[i], f)
    ensures Get(CarryForward(cps)[i], f) == Get(cps[i], f)
  {
    CarryForwardResolves(cps, i, f);
  }

  /** No look-ahead: the first `k` results depend only on the first `k` points. */
  lemma {:induction false} CarryForwardPrefix(cps: seq<ControlPoint>, k: nat)
    requires k <= |cps|
    ensures CarryForward(cps[..k]) == CarryForward(cps)[..k]
    decreases |cps|
  {
    if k < |cps| {
      var p := cps[..|cps| - 1];
      assert p[..k] == cps[..k];
      CarryForwardPrefix(p, k);
      assert CarryForward(cps)[..|cps| - 1] == CarryForward(p);
    } else {
      assert cps[..k] == cps;
    }
  }

  /** Two lists that agree up to point `i` agree on the pass's result at `i`,
      whatever follows. */
  lemma NoLookAhead(a: seq<ControlPoint>, b: seq<ControlPoint>, i: nat)
    requires i < |a| && i < |b| && a[..i + 1] == b[..i + 1]
    ensures CarryForward(a)[i] == CarryForward(b)[i]
  {
    CarryForwardPrefix(a, i + 1);
    CarryForwardPrefix(b, i + 1);
    assert CarryForward(a)[i] == CarryForward(a[..i + 1])[i];
    assert CarryForward(b)[i] == CarryForward(b[..i + 1])[i];
  }
}
