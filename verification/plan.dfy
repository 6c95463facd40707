/** The plan built from a whole RT Plan data set: identity fields, the
    structure set reference, the fraction-group map (RT Fraction Scheme
    module, first fraction group only), the beams (RT Beams module) joined
    with that map, the total meterset and the primary isocenter. */
module Plans {
  import opened Optional
  import opened DicomTree
  import opened DicomUtils
  import opened ControlPoints
  import opened Beams
  import Tags = DicomTags

  /** What the first fraction group says about one referenced beam. Meterset
      and dose default to 0 when their tags are absent; the dose
      specification point is present only when all three components read. */
  datatype FractionBeamInfo = FractionBeamInfo(mu: real, dose: real, specPoint: Option<Triple>)

  /** Key used for a referenced-beam item whose beam number does not read. */
  const MissingBeamNumber: int := -1

  function BeamKey(rb: Node): int {
    GetInt(Some(rb), Tags.ReferencedBeamNumber, 0).GetOr(MissingBeamNumber)
  }

  /** One referenced-beam item's entry: meterset and dose as read, 0 when
      absent; the specification point only when all three components read. */
  function ReadFractionBeamInfo(rb: Node): (info: FractionBeamInfo)
    ensures GetDouble(Some(rb), Tags.BeamMeterset, 0).Some? ==> info.mu == GetDouble(Some(rb), Tags.BeamMeterset, 0).value
    ensures GetDouble(Some(rb), Tags.BeamMeterset, 0).None? ==> info.mu == 0.0
    ensures GetDouble(Some(rb), Tags.BeamDose, 0).Some? ==> info.dose == GetDouble(Some(rb), Tags.BeamDose, 0).value
    ensures GetDouble(Some(rb), Tags.BeamDose, 0).None? ==> info.dose == 0.0
    ensures info.specPoint.Some? <==> forall i :: 0 <= i < 3 ==> GetDouble(Some(rb), Tags.BeamDoseSpecificationPoint, i).Some?
    ensures info.specPoint.Some? ==>
              info.specPoint.value == Triple(GetDouble(Some(rb), Tags.BeamDoseSpecificationPoint, 0).value,
                                             GetDouble(Some(rb), Tags.BeamDoseSpecificationPoint, 1).value,
                                             GetDouble(Some(rb), Tags.BeamDoseSpecificationPoint, 2).value)
  {
    FractionBeamInfo(
      GetDouble(Some(rb), Tags.BeamMeterset, 0).GetOr(0.0),
      GetDouble(Some(rb), Tags.BeamDose, 0).GetOr(0.0),
      GetDouble3(Some(rb), Tags.BeamDoseSpecificationPoint))
  }

  /** Whether referenced-beam item `i` is non-null and keyed `k`. */
  predicate KeyedAt(items: seq<Option<Node>>, i: int, k: int)
    requires 0 <= i < |items|
  {
    items[i].Some? && BeamKey(items[i].value) == k
  }

  /** The referenced-beam loop: one map entry per non-null item, a later
      item overwriting an earlier one with the same key. */
  function FractionMap(items: seq<Option<Node>>): (m: map<int, FractionBeamInfo>)
    ensures forall k :: k in m ==> exists i :: 0 <= i < |items| && KeyedAt(items, i, k)
                                                && m[k] == ReadFractionBeamInfo(items[i].value)
    decreases |items|
  {
    if |items| == 0 then map[]
    else
      var m := FractionMap(items[..|items| - 1]);
      match items[|items| - 1]
      case None => m
      case Some(rb) => m[BeamKey(rb) := ReadFractionBeamInfo(rb)]
  }

  /** One step of the loop: the previous map, plus the last item's entry when it is non-null. */
  lemma FractionMapStep(items: seq<Option<Node>>)
    requires |items| > 0
    ensures items[|items| - 1].None? ==> FractionMap(items) == FractionMap(items[..|items| - 1])
    ensures items[|items| - 1].Some? ==>
              FractionMap(items) == FractionMap(items[..|items| - 1])[BeamKey(items[|items| - 1].value) := ReadFractionBeamInfo(items[|items| - 1].value)]
  {
  }

  /** The map's keys are exactly the keys of the non-null items. */
  lemma {:induction false} FractionMapKeys(items: seq<Option<Node>>, k: int)
    ensures k in FractionMap(items) <==> exists i :: 0 <= i < |items| && KeyedAt(items, i, k)
    decreases |items|
  {
    if |items| > 0 {
      var last := |items| - 1;
      var prefix := items[..last];
      FractionMapKeys(prefix, k);
      FractionMapStep(items);
      if k in FractionMap(items) {
        if KeyedAt(items, last, k) {
          assert 0 <= last < |items| && KeyedAt(items, last, k);
        } else {
          assert k in FractionMap(prefix);
          var i :| 0 <= i < last && KeyedAt(prefix, i, k);
          assert prefix[i] == items[i];
          assert KeyedAt(items, i, k);
        }
      }
      if exists i :: 0 <= i < |items| && KeyedAt(items, i, k) {
        var i :| 0 <= i < |items| && KeyedAt(items, i, k);
        if i < last {
          assert prefix[i] == items[i];
          assert KeyedAt(prefix, i, k);
        }
      }
    }
  }

  /** Duplicate keys: the last non-null item with a key decides its entry. */
  lemma {:induction false} FractionMapLastWriteWins(items: seq<Option<Node>>, i: int, k: int)
    requires 0 <= i < |items| && KeyedAt(items, i, k)
    requires forall j :: i < j < |items| ==> !KeyedAt(items, j, k)
    ensures k in FractionMap(items) && FractionMap(items)[k] == ReadFractionBeamInfo(items[i].value)
    decreases |items|
  {
    var last := |items| - 1;
    var prefix := items[..last];
    FractionMapStep(items);
    if i < last {
      forall j | i < j < last
        ensures !KeyedAt(prefix, j, k)
      {
        assert prefix[j] == items[j];
        assert !KeyedAt(items, j, k);
      }
      assert prefix[i] == items[i];
      FractionMapLastWriteWins(prefix, i, k);
      assert !KeyedAt(items, last, k);
    }
  }

  /** The first fraction-group item, when the sequence exists, is non-empty
      and its first item is not null; later items are never consulted. */
  function FirstFractionGroup(ds: Node): (fg: Option<Node>)
    ensures fg.Some? ==> exists items: seq<Option<Node>> :: FindSequence(ds, Tags.FractionGroupSequence) == Some(items)
                                        && |items| > 0 && items[0] == fg
    ensures FindSequence(ds, Tags.FractionGroupSequence).Some? && |FindSequence(ds, Tags.FractionGroupSequence).value| > 0 ==>
              fg == FindSequence(ds, Tags.FractionGroupSequence).value[0]
  {
    match FindSequence(ds, Tags.FractionGroupSequence)
    case Some(items) => if |items| > 0 then items[0] else None
    case None => None
  }

  /** The beam-number map of a fraction group item; empty without a
      referenced beam sequence. */
  function FractionGroupMap(fg: Option<Node>): (m: map<int, FractionBeamInfo>)
    ensures GetSequence(fg, Tags.ReferencedBeamSequence).None? ==> m == map[]
    ensures GetSequence(fg, Tags.ReferencedBeamSequence).Some? ==>
              m == FractionMap(GetSequence(fg, Tags.ReferencedBeamSequence).value)
  {
    match GetSequence(fg, Tags.ReferencedBeamSequence)
    case Some(items) => FractionMap(items)
    case None => map[]
  }

  /** Attaching the fraction-group entry of a beam's number, if any:
      meterset and dose always, the specification point only when it read. */
  function JoinBeam(b: Beam, fg: map<int, FractionBeamInfo>): (r: Beam)
    ensures r.(metersetMU := b.metersetMU, doseGy := b.doseGy, doseSpecPoint := b.doseSpecPoint) == b
    ensures b.beamNumber !in fg ==> r == b
    ensures b.beamNumber in fg ==>
              && r.metersetMU == Some(fg[b.beamNumber].mu)
              && r.doseGy == Some(fg[b.beamNumber].dose)
              && r.doseSpecPoint == (if fg[b.beamNumber].specPoint.Some? then fg[b.beamNumber].specPoint else b.doseSpecPoint)
  {
    if b.beamNumber in fg then
      var info := fg[b.beamNumber];
      b.(metersetMU := Some(info.mu), doseGy := Some(info.dose),
         doseSpecPoint := if info.specPoint.Some? then info.specPoint else b.doseSpecPoint)
    else b
  }

  /** The running total after one more beam: started on the first match. */
  function AddMeterset(total: Option<real>, b: Beam, fg: map<int, FractionBeamInfo>): (r: Option<real>)
    ensures b.beamNumber !in fg ==> r == total
    ensures b.beamNumber in fg && total.None? ==> r == Some(fg[b.beamNumber].mu)
    ensures b.beamNumber in fg && total.Some? ==> r == Some(total.value + fg[b.beamNumber].mu)
  {
    if b.beamNumber in fg then Some(total.GetOr(0.0) + fg[b.beamNumber].mu) else total
  }

  /** The beam loop's join: each built beam gets its entry attached, in
      order, and the total meterset accumulates over matching beams. */
  function AttachFractionInfo(built: seq<Beam>, fg: map<int, FractionBeamInfo>): (r: (seq<Beam>, Option<real>))
    ensures |r.0| == |built|
    ensures forall i :: 0 <= i < |built| ==> r.0[i] == JoinBeam(built[i], fg)
    decreases |built|
  {
    if |built| == 0 then ([], None)
    else
      var (beams, total) := AttachFractionInfo(built[..|built| - 1], fg);
      var b := built[|built| - 1];
      (beams + [JoinBeam(b, fg)], AddMeterset(total, b, fg))
  }

  /** Reference sum: the meterset of every beam whose number is a key,
      counted once per such beam. */
  function MatchedMeterset(beams: seq<Beam>, fg: map<int, FractionBeamInfo>): real
    decreases |beams|
  {
    if |beams| == 0 then 0.0
    else (if beams[0].beamNumber in fg then fg[beams[0].beamNumber].mu else 0.0) + MatchedMeterset(beams[1..], fg)
  }

  predicate AnyMatched(beams: seq<Beam>, fg: map<int, FractionBeamInfo>) {
    exists i :: 0 <= i < |beams| && beams[i].beamNumber in fg
  }

  lemma {:induction false} MatchedMetersetSnoc(beams: seq<Beam>, b: Beam, fg: map<int, FractionBeamInfo>)
    ensures MatchedMeterset(beams + [b], fg)
            == MatchedMeterset(beams, fg) + (if b.beamNumber in fg then fg[b.beamNumber].mu else 0.0)
    decreases |beams|
  {
    if |beams| > 0 {
      assert (beams + [b])[1..] == beams[1..] + [b];
      MatchedMetersetSnoc(beams[1..], b, fg);
    }
  }

  /** The total is absent exactly when no beam matched, and otherwise is the
      reference sum over the matching beams. */
  lemma {:induction false} TotalIsMatchedSum(built: seq<Beam>, fg: map<int, FractionBeamInfo>)
    ensures AttachFractionInfo(built, fg).1.None? <==> !AnyMatched(built, fg)
    ensures AttachFractionInfo(built, fg).1.Some? ==> AttachFractionInfo(built, fg).1.value == MatchedMeterset(built, fg)
    decreases |built|
  {
    if |built| > 0 {
      var front := built[..|built| - 1];
      var b := built[|built| - 1];
      TotalIsMatchedSum(front, fg);
      assert built == front + [b];
      assert AttachFractionInfo(built, fg).1 == AddMeterset(AttachFractionInfo(front, fg).1, b, fg);
      MatchedMetersetSnoc(front, b, fg);
      AnyMatchedSnoc(front, b, fg);
      if !AnyMatched(front, fg) {
        // With no earlier match the reference sum of the front is 0.
        NoMatchSumsToZero(front, fg);
      }
    }
  }

  /** Some beam of `beams + [b]` matches exactly when one of `beams` does or `b` does. */
  lemma AnyMatchedSnoc(beams: seq<Beam>, b: Beam, fg: map<int, FractionBeamInfo>)
    ensures AnyMatched(beams + [b], fg) <==> AnyMatched(beams, fg) || b.beamNumber in fg
  {
    var all := beams + [b];
    if AnyMatched(beams, fg) {
      var i :| 0 <= i < |beams| && beams[i].beamNumber in fg;
      assert all[i] == beams[i];
    }
    if b.beamNumber in fg {
      assert all[|beams|] == b;
    }
    if AnyMatched(all, fg) {
      var i :| 0 <= i < |all| && all[i].beamNumber in fg;
      if i < |beams| {
        assert all[i] == beams[i];
      }
    }
  }

  lemma {:induction false} NoMatchSumsToZero(beams: seq<Beam>, fg: map<int, FractionBeamInfo>)
    requires !AnyMatched(beams, fg)
    ensures MatchedMeterset(beams, fg) == 0.0
    decreases |beams|
  {
    if |beams| > 0 {
      assert beams[0].beamNumber !in fg;
      assert !AnyMatched(beams[1..], fg) by {
        forall i | 0 <= i < |beams[1..]|
          ensures beams[1..][i].beamNumber !in fg
        {
          assert beams[1..][i] == beams[i + 1];
        }
      }
      NoMatchSumsToZero(beams[1..], fg);
    }
  }

  /** Keys that match no beam have no effect on the beams or on the total. */
  lemma {:induction false} UnmatchedKeysIgnored(built: seq<Beam>, fg: map<int, FractionBeamInfo>, k: int)
    requires forall i :: 0 <= i < |built| ==> built[i].beamNumber != k
    ensures AttachFractionInfo(built, fg - {k}) == AttachFractionInfo(built, fg)
    decreases |built|
  {
    if |built| > 0 {
      UnmatchedKeysIgnored(built[..|built| - 1], fg, k);
    }
  }

  /** Joining again changes nothing: the beams and the total come out the
      same (no double counting). */
  lemma {:induction false} AttachIdempotent(built: seq<Beam>, fg: map<int, FractionBeamInfo>)
    ensures AttachFractionInfo(AttachFractionInfo(built, fg).0, fg) == AttachFractionInfo(built, fg)
    decreases |built|
  {
    if |built| > 0 {
      var front := built[..|built| - 1];
      AttachIdempotent(front, fg);
      var joined := AttachFractionInfo(built, fg).0;
      assert joined[..|joined| - 1] == AttachFractionInfo(front, fg).0;
    }
  }

  /** Beams 1, 2 and 3 against entries for beams 1 and 2 (120 and 80 MU):
      beam 3 stays unjoined and the total is 200. */
  lemma TwoOfThreeBeamsJoined()
    ensures var fg := map[1 := FractionBeamInfo(120.0, 2.0, None), 2 := FractionBeamInfo(80.0, 1.0, None)];
      var built := [DefaultBeam.(beamNumber := 1), DefaultBeam.(beamNumber := 2), DefaultBeam.(beamNumber := 3)];
      var r := AttachFractionInfo(built, fg);
      && r.1 == Some(200.0)
      && r.0[0].metersetMU == Some(120.0) && r.0[1].metersetMU == Some(80.0)
      && r.0[2].metersetMU.None? && r.0[2].doseGy.None? && r.0[2].doseSpecPoint.None?
  {
    var fg := map[1 := FractionBeamInfo(120.0, 2.0, None), 2 := FractionBeamInfo(80.0, 1.0, None)];
    var built := [DefaultBeam.(beamNumber := 1), DefaultBeam.(beamNumber := 2), DefaultBeam.(beamNumber := 3)];
    var b0 := AttachFractionInfo(built[..1], fg);
    assert built[..1][..0] == [];
    assert built[..1][0].beamNumber == 1 && 1 in fg && fg[1].mu == 120.0;
    assert AttachFractionInfo(built[..1][..0], fg).1 == None;
    assert b0.1 == Some(120.0);
    var b1 := AttachFractionInfo(built[..2], fg);
    assert built[..2][..1] == built[..1];
    assert b1.1 == Some(200.0);
    assert built[..3][..2] == built[..2];
    assert built[..3] == built;
  }

  /** The beam loop: one beam per non-null beam item, in order. */
  function BuildBeams(items: seq<Option<Node>>): (bs: seq<Beam>)
    ensures |bs| == |Present(items)|
    ensures forall k :: 0 <= k < |bs| ==> bs[k] == BuildBeam(Some(Present(items)[k]))
    decreases |items|
  {
    if |items| == 0 then []
    else
      var front := BuildBeams(items[..|items| - 1]);
      match items[|items| - 1]
      case None => front
      case Some(node) => front + [BuildBeam(Some(node))]
  }

  /** The referenced structure set: from the first item of its sequence only. */
  function StructureSetUid(ds: Node): (uid: Option<string>)
    ensures uid.Some? ==> exists items: seq<Option<Node>> :: FindSequence(ds, Tags.ReferencedStructureSetSequence) == Some(items)
                                         && |items| > 0 && items[0].Some?
                                         && uid == GetString(items[0], Tags.ReferencedSOPInstanceUID, 0)
    ensures FindSequence(ds, Tags.ReferencedStructureSetSequence).Some?
            && |FindSequence(ds, Tags.ReferencedStructureSetSequence).value| > 0 ==>
              uid == GetString(FindSequence(ds, Tags.ReferencedStructureSetSequence).value[0], Tags.ReferencedSOPInstanceUID, 0)
  {
    match FindSequence(ds, Tags.ReferencedStructureSetSequence)
    case Some(items) => if |items| > 0 then GetString(items[0], Tags.ReferencedSOPInstanceUID, 0) else None
    case None => None
  }

  datatype Plan = Plan(
    filePath: string,
    patientName: string,
    patientId: string,
    studyInstanceUid: string,
    seriesInstanceUid: string,
    sopInstanceUid: string,
    frameOfReferenceUid: string,
    rtPlanLabel: string,
    rtPlanName: string,
    rtPlanDescription: Option<string>,
    rtPlanGeometry: Option<string>,
    approvalStatus: Option<string>,
    rtPlanDate: Option<string>,
    rtPlanTime: Option<string>,
    patientPosition: Option<string>,
    referencedStructSetSopInstanceUid: Option<string>,
    fractionGroupNumber: int,
    numFractionsPlanned: int,
    primaryIsocenter: Option<Triple>,
    beams: seq<Beam>,
    totalPlannedMetersetMU: Option<real>)

  /** The member initialisers: empty strings, -1 for the fraction summary, nothing else set. */
  const DefaultPlan: Plan :=
    Plan("", "", "", "", "", "", "", "", "", None, None, None, None, None, None, None, -1, -1, None, [], None)

  /** The beams of the data set before the join; none without a beam sequence. */
  function BuiltBeams(ds: Node): seq<Beam> {
    match FindSequence(ds, Tags.BeamSequence)
    case Some(items) => BuildBeams(items)
    case None => []
  }

  /** The plan constructor. The source builds and joins each beam in one
      loop; attaching an entry depends only on the beam itself, so building
      all beams first and joining them in order gives the same beams and total. */
  function BuildPlan(ds: Option<Node>): (p: Plan)
    ensures ds.None? ==> p == DefaultPlan
    ensures p.filePath == "" && p.patientPosition.None?
    ensures p.rtPlanDescription.Some? <==> GetString(ds, Tags.RTPlanDescription, 0).Some?
    ensures p.rtPlanGeometry.Some? <==> GetString(ds, Tags.RTPlanGeometry, 0).Some?
    ensures p.approvalStatus.Some? <==> GetString(ds, Tags.ApprovalStatus, 0).Some?
    ensures p.rtPlanDate.Some? <==> GetString(ds, Tags.RTPlanDate, 0).Some?
    ensures p.rtPlanTime.Some? <==> GetString(ds, Tags.RTPlanTime, 0).Some?
    ensures p.patientName == GetString(ds, Tags.PatientName, 0).GetOr("")
    ensures ds.Some? ==> p.referencedStructSetSopInstanceUid == StructureSetUid(ds.value)
    ensures ds.Some? ==>
              && p.fractionGroupNumber == GetInt(FirstFractionGroup(ds.value), Tags.FractionGroupNumber, 0).GetOr(-1)
              && p.numFractionsPlanned == GetInt(FirstFractionGroup(ds.value), Tags.NumberOfFractionsPlanned, 0).GetOr(-1)
    ensures ds.Some? ==>
              var fg := FractionGroupMap(FirstFractionGroup(ds.value));
              (p.beams, p.totalPlannedMetersetMU) == AttachFractionInfo(BuiltBeams(ds.value), fg)
    ensures p.primaryIsocenter.Some? ==>
              |p.beams| > 0 && |p.beams[0].controlPoints| > 0 && p.primaryIsocenter == p.beams[0].controlPoints[0].isocenter
    ensures |p.beams| > 0 && |p.beams[0].controlPoints| > 0 ==> p.primaryIsocenter == p.beams[0].controlPoints[0].isocenter
  {
    match ds
    case None => DefaultPlan
    case Some(node) =>
      var fgItem := FirstFractionGroup(node);
      var joined := AttachFractionInfo(BuiltBeams(node), FractionGroupMap(fgItem));
      var beams := joined.0;
      DefaultPlan.(
        patientName := GetString(ds, Tags.PatientName, 0).GetOr(""),
        patientId := GetString(ds, Tags.PatientID, 0).GetOr(""),
        studyInstanceUid := GetString(ds, Tags.StudyInstanceUID, 0).GetOr(""),
        seriesInstanceUid := GetString(ds, Tags.SeriesInstanceUID, 0).GetOr(""),
        sopInstanceUid := GetString(ds, Tags.SOPInstanceUID, 0).GetOr(""),
        frameOfReferenceUid := GetString(ds, Tags.FrameOfReferenceUID, 0).GetOr(""),
        rtPlanLabel := GetString(ds, Tags.RTPlanLabel, 0).GetOr(""),
        rtPlanName := GetString(ds, Tags.RTPlanName, 0).GetOr(""),
        rtPlanDescription := GetString(ds, Tags.RTPlanDescription, 0),
        rtPlanGeometry := GetString(ds, Tags.RTPlanGeometry, 0),
        approvalStatus := GetString(ds, Tags.ApprovalStatus, 0),
        rtPlanDate := GetString(ds, Tags.RTPlanDate, 0),
        rtPlanTime := GetString(ds, Tags.RTPlanTime, 0),
        referencedStructSetSopInstanceUid := StructureSetUid(node),
        fractionGroupNumber := GetInt(fgItem, Tags.FractionGroupNumber, 0).GetOr(-1),
        numFractionsPlanned := GetInt(fgItem, Tags.NumberOfFractionsPlanned, 0).GetOr(-1),
        beams := beams,
        totalPlannedMetersetMU := joined.1,
        primaryIsocenter :=
          if |beams| > 0 && |beams[0].controlPoints| > 0 then beams[0].controlPoints[0].isocenter else None)
  }

  /** The plan's identity strings are read from the data set, empty when
      absent; the five optional text fields are present exactly when their
      tag reads, with that value. */
  lemma BuildPlanReadsIdentity(ds: Option<Node>)
    ensures var p := BuildPlan(ds);
      && p.patientName == GetString(ds, Tags.PatientName, 0).GetOr("")
      && p.patientId == GetString(ds, Tags.PatientID, 0).GetOr("")
      && p.studyInstanceUid == GetString(ds, Tags.StudyInstanceUID, 0).GetOr("")
      && p.seriesInstanceUid == GetString(ds, Tags.SeriesInstanceUID, 0).GetOr("")
      && p.sopInstanceUid == GetString(ds, Tags.SOPInstanceUID, 0).GetOr("")
      && p.frameOfReferenceUid == GetString(ds, Tags.FrameOfReferenceUID, 0).GetOr("")
      && p.rtPlanLabel == GetString(ds, Tags.RTPlanLabel, 0).GetOr("")
      && p.rtPlanName == GetString(ds, Tags.RTPlanName, 0).GetOr("")
      && p.rtPlanDescription == GetString(ds, Tags.RTPlanDescription, 0)
      && p.rtPlanGeometry == GetString(ds, Tags.RTPlanGeometry, 0)
      && p.approvalStatus == GetString(ds, Tags.ApprovalStatus, 0)
      && p.rtPlanDate == GetString(ds, Tags.RTPlanDate, 0)
      && p.rtPlanTime == GetString(ds, Tags.RTPlanTime, 0)
  {
  }

  /** Join correctness on the built plan: a beam receives meterset and dose
      exactly when its number is a key of the first fraction group's map,
      the specification point only when that entry has one, and the total is
      the sum over the matching beams (absent when none matched). */
  lemma PlanJoinCorrect(ds: Node)
    ensures var p := BuildPlan(Some(ds));
      var fg := FractionGroupMap(FirstFractionGroup(ds));
      var built := BuiltBeams(ds);
      && |p.beams| == |built|
      && (forall i :: 0 <= i < |p.beams| ==>
            && p.beams[i].beamNumber == built[i].beamNumber
            && (p.beams[i].metersetMU.Some? <==> built[i].beamNumber in fg)
            && (p.beams[i].doseGy.Some? <==> built[i].beamNumber in fg)
            && (p.beams[i].doseSpecPoint.Some? <==> built[i].beamNumber in fg && fg[built[i].beamNumber].specPoint.Some?)
            && (built[i].beamNumber in fg ==> p.beams[i].metersetMU == Some(fg[built[i].beamNumber].mu)))
      && (p.totalPlannedMetersetMU.None? <==> !AnyMatched(built, fg))
      && (p.totalPlannedMetersetMU.Some? ==> p.totalPlannedMetersetMU.value == MatchedMeterset(built, fg))
  {
    var p := BuildPlan(Some(ds));
    var fg := FractionGroupMap(FirstFractionGroup(ds));
    var built := BuiltBeams(ds);
    TotalIsMatchedSum(built, fg);
    BuiltBeamsUnjoined(ds);
    JoinPerBeam(built, fg);
    assert (p.beams, p.totalPlannedMetersetMU) == AttachFractionInfo(built, fg);
  }

  /** Freshly built beams carry no fraction-group information yet. */
  lemma BuiltBeamsUnjoined(ds: Node)
    ensures forall i :: 0 <= i < |BuiltBeams(ds)| ==>
              BuiltBeams(ds)[i].metersetMU.None? && BuiltBeams(ds)[i].doseGy.None? && BuiltBeams(ds)[i].doseSpecPoint.None?
  {
    match FindSequence(ds, Tags.BeamSequence)
    case Some(items) =>
      forall i | 0 <= i < |BuiltBeams(ds)|
        ensures BuiltBeams(ds)[i].metersetMU.None? && BuiltBeams(ds)[i].doseGy.None? && BuiltBeams(ds)[i].doseSpecPoint.None?
      {
        assert BuiltBeams(ds)[i] == BuildBeam(Some(Present(items)[i]));
      }
    case None =>
  }

  /** The join beam by beam, for unjoined beams: a beam has meterset and
      dose exactly when its number is a key, with the entry's meterset, and
      a specification point exactly when that entry has one. */
  lemma JoinPerBeam(built: seq<Beam>, fg: map<int, FractionBeamInfo>)
    requires forall i :: 0 <= i < |built| ==>
               built[i].metersetMU.None? && built[i].doseGy.None? && built[i].doseSpecPoint.None?
    ensures var joined := AttachFractionInfo(built, fg).0;
      forall i :: 0 <= i < |joined| ==>
        && joined[i].beamNumber == built[i].beamNumber
        && (joined[i].metersetMU.Some? <==> built[i].beamNumber in fg)
        && (joined[i].doseGy.Some? <==> built[i].beamNumber in fg)
        && (joined[i].doseSpecPoint.Some? <==> built[i].beamNumber in fg && fg[built[i].beamNumber].specPoint.Some?)
        && (built[i].beamNumber in fg ==> joined[i].metersetMU == Some(fg[built[i].beamNumber].mu))
  {
    var joined := AttachFractionInfo(built, fg).0;
    forall i | 0 <= i < |joined|
      ensures joined[i] == JoinBeam(built[i], fg)
    {
    }
  }
}
