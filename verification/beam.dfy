/** One beam, built from one beam sequence item: identity, classification
    and machine fields, the control point list (null items skipped, order
    kept) and the carry-forward pass; and the per-beam fraction-group store. */
module Beams {
  import opened Optional
  import opened DicomTree
  import opened DicomUtils
  import opened ControlPoints
  import opened CarryForwardPass
  import Tags = DicomTags

  /** A beam. Meterset, dose and dose specification point are uninitialised
      in the source until a fraction-group entry is attached; they are
      `Option` here. */
  datatype Beam = Beam(
    beamNumber: int,
    beamName: Option<string>,
    beamType: Option<string>,
    radiationType: Option<string>,
    treatmentDeliveryType: Option<string>,
    treatmentMachineName: Option<string>,
    primaryDosimeterUnit: Option<string>,
    sourceAxisDistance: Option<real>,
    finalCumulativeMetersetWeight: Option<real>,
    numberOfControlPoints: int,
    leafPairs: int,
    controlPoints: seq<ControlPoint>,
    metersetMU: Option<real>,
    doseGy: Option<real>,
    doseSpecPoint: Option<Triple>)

  /** The member initialisers: number -1, declared count 0, 60 leaf pairs, nothing else set. */
  const DefaultBeam: Beam :=
    Beam(-1, None, None, None, None, None, None, None, None, 0, 60, [], None, None, None)

  /** The control point loop: one control point per non-null item, in sequence order. */
  function BuildControlPoints(items: seq<Option<Node>>): (r: seq<ControlPoint>)
    ensures |r| == |Present(items)| <= |items|
    ensures forall k :: 0 <= k < |r| ==> r[k] == BuildControlPoint(Some(Present(items)[k]))
    decreases |items|
  {
    if |items| == 0 then []
    else
      var front := BuildControlPoints(items[..|items| - 1]);
      match items[|items| - 1]
      case None => front
      case Some(node) => front + [BuildControlPoint(Some(node))]
  }

  /** The beam constructor. */
  function BuildBeam(item: Option<Node>): (b: Beam)
    ensures b.leafPairs == 60
    ensures b.beamNumber == GetInt(item, Tags.BeamNumber, 0).GetOr(-1)
    ensures b.numberOfControlPoints == GetInt(item, Tags.NumberOfControlPoints, 0).GetOr(0)
    ensures GetSequence(item, Tags.ControlPointSequence).None? ==> b.controlPoints == []
    ensures GetSequence(item, Tags.ControlPointSequence).Some? ==>
              b.controlPoints == CarryForward(BuildControlPoints(GetSequence(item, Tags.ControlPointSequence).value))
    ensures b.metersetMU.None? && b.doseGy.None? && b.doseSpecPoint.None?
  {
    DefaultBeam.(
      leafPairs := 60,
      beamNumber := GetInt(item, Tags.BeamNumber, 0).GetOr(-1),
      beamName := GetString(item, Tags.BeamName, 0),
      beamType := GetString(item, Tags.BeamType, 0),
      radiationType := GetString(item, Tags.RadiationType, 0),
      treatmentDeliveryType := GetString(item, Tags.TreatmentDeliveryType, 0),
      treatmentMachineName := GetString(item, Tags.TreatmentMachineName, 0),
      primaryDosimeterUnit := GetString(item, Tags.PrimaryDosimeterUnit, 0),
      sourceAxisDistance := GetDouble(item, Tags.SourceAxisDistance, 0),
      finalCumulativeMetersetWeight := GetDouble(item, Tags.FinalCumulativeMetersetWeight, 0),
      numberOfControlPoints := GetInt(item, Tags.NumberOfControlPoints, 0).GetOr(0),
      controlPoints :=
        match GetSequence(item, Tags.ControlPointSequence)
        case None => []
        case Some(items) => CarryForward(BuildControlPoints(items)))
  }

  /** The beam's identity, classification and machine fields are read from
      the item field by field: present exactly when their tag reads, with
      that value. */
  lemma BuildBeamReadsIdentity(item: Option<Node>)
    ensures var b := BuildBeam(item);
      && b.beamName == GetString(item, Tags.BeamName, 0)
      && b.beamType == GetString(item, Tags.BeamType, 0)
      && b.radiationType == GetString(item, Tags.RadiationType, 0)
      && b.treatmentDeliveryType == GetString(item, Tags.TreatmentDeliveryType, 0)
      && b.treatmentMachineName == GetString(item, Tags.TreatmentMachineName, 0)
      && b.primaryDosimeterUnit == GetString(item, Tags.PrimaryDosimeterUnit, 0)
      && b.sourceAxisDistance == GetDouble(item, Tags.SourceAxisDistance, 0)
      && b.finalCumulativeMetersetWeight == GetDouble(item, Tags.FinalCumulativeMetersetWeight, 0)
  {
  }

  /** The built control points keep sequence order: the k-th built point
      comes, through carry-forward, from the k-th non-null item, and at
      most one point exists per item. */
  lemma BeamControlPointsFollowSequence(item: Option<Node>)
    requires GetSequence(item, Tags.ControlPointSequence).Some?
    ensures var items := GetSequence(item, Tags.ControlPointSequence).value;
      var b := BuildBeam(item);
      var idx := PresentIndices(items);
      && |b.controlPoints| == |idx| <= |items|
      && (forall k :: 0 <= k < |idx| ==>
            items[idx[k]].Some? && SameUncarried(b.controlPoints[k], BuildControlPoint(items[idx[k]])))
      && (forall k, l :: 0 <= k < l < |idx| ==> idx[k] < idx[l])
  {
    var items := GetSequence(item, Tags.ControlPointSequence).value;
    var built := BuildControlPoints(items);
    var idx := PresentIndices(items);
    forall k | 0 <= k < |idx|
      ensures SameUncarried(BuildBeam(item).controlPoints[k], BuildControlPoint(items[idx[k]]))
    {
      CarryForwardResolves(built, k, JawX);
      assert items[idx[k]] == Some(Present(items)[k]);
    }
  }

  /** Every control point of a built beam, after carry-forward, has 60 leaf
      pairs and both banks empty or both full. */
  lemma BeamBanksPaired(item: Option<Node>)
    ensures var b := BuildBeam(item);
      forall i :: 0 <= i < |b.controlPoints| ==>
        b.controlPoints[i].leafPairs == LeafPairs && BanksPaired(b.controlPoints[i])
  {
    var b := BuildBeam(item);
    match GetSequence(item, Tags.ControlPointSequence)
    case None =>
    case Some(items) =>
      var built := BuildControlPoints(items);
      forall i | 0 <= i < |b.controlPoints|
        ensures b.controlPoints[i].leafPairs == LeafPairs && BanksPaired(b.controlPoints[i])
      {
        CarryForwardKeepsBanksPaired(built, i);
      }
  }

  /** The declared control point count is read on its own and never
      reconciled with the list: a beam may declare three points and hold none. */
  lemma DeclaredCountNotReconciled()
    ensures var item := Some(Node(map[Tags.NumberOfControlPoints := Numbers([Some(3.0)]),
                                       Tags.ControlPointSequence := Items([])]));
      BuildBeam(item).numberOfControlPoints == 3 && |BuildBeam(item).controlPoints| == 0
  {
    var node := Node(map[Tags.NumberOfControlPoints := Numbers([Some(3.0)]),
                         Tags.ControlPointSequence := Items([])]);
    assert FindFloat64(node, Tags.NumberOfControlPoints, 0) == Some(3.0);
    assert (3.0).Floor == 3;
    assert GetInt(Some(node), Tags.NumberOfControlPoints, 0) == Some(3);
  }

  /** Storing one referenced-beam item onto a beam: nothing happens unless
      the item's referenced beam number reads and equals the beam's number;
      then meterset and dose are overwritten when they read, and the dose
      specification point when all three of its components read. A
      referenced beam number that does not read is taken to match no beam. */
  function StoreFractionSequence(b: Beam, item: Option<Node>): (r: Beam)
    ensures GetInt(item, Tags.ReferencedBeamNumber, 0) != Some(b.beamNumber) ==> r == b
    ensures r.(metersetMU := b.metersetMU, doseGy := b.doseGy, doseSpecPoint := b.doseSpecPoint) == b
    ensures r.metersetMU != b.metersetMU ==> r.metersetMU == GetDouble(item, Tags.BeamMeterset, 0)
    ensures r.doseGy != b.doseGy ==> r.doseGy == GetDouble(item, Tags.BeamDose, 0)
    ensures r.doseSpecPoint != b.doseSpecPoint ==> r.doseSpecPoint == GetDouble3(item, Tags.BeamDoseSpecificationPoint)
    ensures GetInt(item, Tags.ReferencedBeamNumber, 0) == Some(b.beamNumber) ==>
              && (GetDouble(item, Tags.BeamMeterset, 0).Some? ==> r.metersetMU == GetDouble(item, Tags.BeamMeterset, 0))
              && (GetDouble(item, Tags.BeamDose, 0).Some? ==> r.doseGy == GetDouble(item, Tags.BeamDose, 0))
              && (GetDouble3(item, Tags.BeamDoseSpecificationPoint).Some? ==>
                    r.doseSpecPoint == GetDouble3(item, Tags.BeamDoseSpecificationPoint))
    ensures GetDouble(item, Tags.BeamMeterset, 0).None? ==> r.metersetMU == b.metersetMU
    ensures GetDouble(item, Tags.BeamDose, 0).None? ==> r.doseGy == b.doseGy
    ensures GetDouble3(item, Tags.BeamDoseSpecificationPoint).None? ==> r.doseSpecPoint == b.doseSpecPoint
  {
    match GetInt(item, Tags.ReferencedBeamNumber, 0)
    case None => b
    case Some(refBeamNo) =>
      if refBeamNo != b.beamNumber then b
      else
        b.(
          metersetMU := match GetDouble(item, Tags.BeamMeterset, 0) case Some(v) => Some(v) case None => b.metersetMU,
          doseGy := match GetDouble(item, Tags.BeamDose, 0) case Some(v) => Some(v) case None => b.doseGy,
          doseSpecPoint := match GetDouble3(item, Tags.BeamDoseSpecificationPoint) case Some(p) => Some(p) case None => b.doseSpecPoint)
  }

  /** Storing the same item twice is the same as storing it once. */
  lemma StoreFractionSequenceIdempotent(b: Beam, item: Option<Node>)
    ensures StoreFractionSequence(StoreFractionSequence(b, item), item) == StoreFractionSequence(b, item)
  {
  }
}
