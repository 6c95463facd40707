/** The light summary reader: classify the loaded object by SOP Class,
    read identity fields and the planned fraction count, and summarise each
    beam with its control point count and its first and last control points. */
module RtPlanReader {
  import opened Optional
  import opened DicomTree
  import opened DicomUtils
  import Plans
  import Beams
  import Tags = DicomTags

  datatype ControlPointSummary = ControlPointSummary(
    index: int,
    gantryAngle: real,
    collimatorAngle: real,
    couchAngle: real)

  datatype BeamSummary = BeamSummary(
    beamNumber: int,
    beamName: string,
    beamType: string,
    radiationType: string,
    treatmentDeliveryType: string,
    numControlPoints: int,
    controlPoints: seq<ControlPointSummary>)

  datatype PlanSummary = PlanSummary(
    filePath: string,
    patientName: string,
    patientId: string,
    studyInstanceUid: string,
    seriesInstanceUid: string,
    sopInstanceUid: string,
    rtPlanLabel: string,
    rtPlanName: string,
    numFractionsPlanned: int,
    beams: seq<BeamSummary>)

  /** The member initialisers: empty strings, -1 fractions, no beams. */
  const DefaultPlanSummary: PlanSummary := PlanSummary("", "", "", "", "", "", "", "", -1, [])

  /** Outcome of loading the file, supplied by the caller: the container
      parser is outside the model. */
  datatype LoadResult = Loaded(dataset: Node) | LoadFailed(diagnostic: string)

  /** The boolean result, the summary out-parameter and the message out-parameter. */
  datatype ReadResult = ReadResult(ok: bool, plan: PlanSummary, errorMessage: string)

  const LoadFailedPrefix: string := "loadFile failed: "
  const NotRtPlanMessage: string := "Not an RTPLAN file (SOPClassUID != RT Plan Storage)."

  /** The string seen through a C string pointer: everything before the first NUL. */
  function CString(s: string): (r: string)
    ensures r <= s
    ensures '\0' !in r
    ensures |r| < |s| ==> s[|r|] == '\0'
  {
    if |s| == 0 || s[0] == '\0' then ""
    else [s[0]] + CString(s[1..])
  }

  /** Classification: a non-null UID equal to RT Plan Storage. */
  function IsRtPlanSopClass(uid: Option<string>): (b: bool)
    ensures uid.None? ==> !b
    ensures b <==> uid == Some("1.2.840.10008.5.1.4.1.1.481.5")
  {
    uid.Some? && uid.value == Tags.RTPlanStorage
  }

  /** One sampled control point, or nothing when the position is out of
      range or the item is null. Angles that do not read stay 0. */
  function SampleAt(items: seq<Option<Node>>, i: nat): (r: seq<ControlPointSummary>)
    ensures |r| <= 1
    ensures |r| == 1 <==> i < |items| && items[i].Some?
    ensures |r| == 1 ==> r[0].index == i
  {
    if i >= |items| then []
    else
      match items[i]
      case None => []
      case Some(_) =>
        [ControlPointSummary(
          i,
          GetDouble(items[i], Tags.GantryAngle, 0).GetOr(0.0),
          GetDouble(items[i], Tags.BeamLimitingDeviceAngle, 0).GetOr(0.0),
          GetDouble(items[i], Tags.PatientSupportAngle, 0).GetOr(0.0))]
  }

  /** First and last control point samples: index 0 when the sequence is
      non-empty, the last index when it has more than one item. */
  function SampleFirstAndLast(items: seq<Option<Node>>): (r: seq<ControlPointSummary>)
    ensures |r| <= 2
    ensures forall k :: 0 <= k < |r| ==>
              && 0 <= r[k].index < |items| && items[r[k].index].Some?
              && (r[k].index == 0 || r[k].index == |items| - 1)
              && r[k].gantryAngle == GetDouble(items[r[k].index], Tags.GantryAngle, 0).GetOr(0.0)
              && r[k].collimatorAngle == GetDouble(items[r[k].index], Tags.BeamLimitingDeviceAngle, 0).GetOr(0.0)
              && r[k].couchAngle == GetDouble(items[r[k].index], Tags.PatientSupportAngle, 0).GetOr(0.0)
    ensures |r| == (if |items| > 0 && items[0].Some? then 1 else 0)
                   + (if |items| > 1 && items[|items| - 1].Some? then 1 else 0)
    ensures |r| == 2 ==> r[0].index == 0 && r[1].index == |items| - 1
  {
    (if |items| > 0 then SampleAt(items, 0) else [])
    + (if |items| > 1 then SampleAt(items, |items| - 1) else [])
  }

  /** One beam summary from a non-null beam item. */
  function SummarizeBeam(item: Node): (b: BeamSummary)
    ensures b.beamNumber == GetInt(Some(item), Tags.BeamNumber, 0).GetOr(-1)
    ensures b.beamName == GetString(Some(item), Tags.BeamName, 0).GetOr("")
    ensures b.beamType == GetString(Some(item), Tags.BeamType, 0).GetOr("")
    ensures b.radiationType == GetString(Some(item), Tags.RadiationType, 0).GetOr("")
    ensures b.treatmentDeliveryType == GetString(Some(item), Tags.TreatmentDeliveryType, 0).GetOr("")
    ensures FindSequence(item, Tags.ControlPointSequence).None? ==> b.numControlPoints == 0 && b.controlPoints == []
    ensures FindSequence(item, Tags.ControlPointSequence).Some? ==>
              && b.numControlPoints == |FindSequence(item, Tags.ControlPointSequence).value|
              && b.controlPoints == SampleFirstAndLast(FindSequence(item, Tags.ControlPointSequence).value)
  {
    var it := Some(item);
    var base := BeamSummary(
      GetInt(it, Tags.BeamNumber, 0).GetOr(-1),
      GetString(it, Tags.BeamName, 0).GetOr(""),
      GetString(it, Tags.BeamType, 0).GetOr(""),
      GetString(it, Tags.RadiationType, 0).GetOr(""),
      GetString(it, Tags.TreatmentDeliveryType, 0).GetOr(""),
      0, []);
    match FindSequence(item, Tags.ControlPointSequence)
    case None => base
    case Some(cps) => base.(numControlPoints := |cps|, controlPoints := SampleFirstAndLast(cps))
  }

  /** The beam loop: one summary per non-null beam item, in order. */
  function SummarizeBeams(items: seq<Option<Node>>): (bs: seq<BeamSummary>)
    ensures |bs| == |Present(items)|
    ensures forall k :: 0 <= k < |bs| ==> bs[k] == SummarizeBeam(Present(items)[k])
    decreases |items|
  {
    if |items| == 0 then []
    else
      var front := SummarizeBeams(items[..|items| - 1]);
      match items[|items| - 1]
      case None => front
      case Some(node) => front + [SummarizeBeam(node)]
  }

  /** `ReadPlan` after the load step: the summary is reset and given its
      path first; a failed load or a wrong object class returns false with
      its fixed message and nothing else read; otherwise the message
      out-parameter is untouched. */
  function ReadPlan(path: string, load: LoadResult, errorMessage: string): (r: ReadResult)
    ensures r.plan.filePath == path
    ensures !r.ok ==> r.plan == DefaultPlanSummary.(filePath := path)
    ensures load.LoadFailed? ==> !r.ok && r.errorMessage == LoadFailedPrefix + load.diagnostic
    ensures load.Loaded? ==>
              var uid := GetString(Some(load.dataset), Tags.SOPClassUID, 0);
              (r.ok <==> uid.Some? && IsRtPlanSopClass(Some(CString(uid.value))))
    ensures load.Loaded? && !r.ok ==> r.errorMessage == NotRtPlanMessage
    ensures r.ok ==> r.errorMessage == errorMessage
    ensures r.ok ==> r.plan.numFractionsPlanned
                     == GetInt(Plans.FirstFractionGroup(load.dataset), Tags.NumberOfFractionsPlanned, 0).GetOr(-1)
    ensures r.ok && FindSequence(load.dataset, Tags.BeamSequence).None? ==> r.plan.beams == []
    ensures r.ok && FindSequence(load.dataset, Tags.BeamSequence).Some? ==>
              r.plan.beams == SummarizeBeams(FindSequence(load.dataset, Tags.BeamSequence).value)
  {
    var reset := DefaultPlanSummary.(filePath := path);
    match load
    case LoadFailed(diagnostic) => ReadResult(false, reset, LoadFailedPrefix + diagnostic)
    case Loaded(ds) =>
      var it := Some(ds);
      var sopClass := GetString(it, Tags.SOPClassUID, 0);
      if sopClass.None? || !IsRtPlanSopClass(Some(CString(sopClass.value))) then
        ReadResult(false, reset, NotRtPlanMessage)
      else
        var identified := reset.(
          patientName := GetString(it, Tags.PatientName, 0).GetOr(""),
          patientId := GetString(it, Tags.PatientID, 0).GetOr(""),
          studyInstanceUid := GetString(it, Tags.StudyInstanceUID, 0).GetOr(""),
          seriesInstanceUid := GetString(it, Tags.SeriesInstanceUID, 0).GetOr(""),
          sopInstanceUid := GetString(it, Tags.SOPInstanceUID, 0).GetOr(""),
          rtPlanLabel := GetString(it, Tags.RTPlanLabel, 0).GetOr(""),
          rtPlanName := GetString(it, Tags.RTPlanName, 0).GetOr(""),
          numFractionsPlanned :=
            GetInt(Plans.FirstFractionGroup(ds), Tags.NumberOfFractionsPlanned, 0).GetOr(-1));
        match FindSequence(ds, Tags.BeamSequence)
        case None => ReadResult(true, identified, errorMessage)
        case Some(items) => ReadResult(true, identified.(beams := SummarizeBeams(items)), errorMessage)
  }

  /** On an accepted data set each identity field of the summary is its own
      tag read, or empty when the tag does not read. */
  lemma ReadPlanReadsIdentity(path: string, ds: Node, errorMessage: string)
    ensures var r := ReadPlan(path, Loaded(ds), errorMessage);
      var it := Some(ds);
      r.ok ==>
      && r.plan.patientName == GetString(it, Tags.PatientName, 0).GetOr("")
      && r.plan.patientId == GetString(it, Tags.PatientID, 0).GetOr("")
      && r.plan.studyInstanceUid == GetString(it, Tags.StudyInstanceUID, 0).GetOr("")
      && r.plan.seriesInstanceUid == GetString(it, Tags.SeriesInstanceUID, 0).GetOr("")
      && r.plan.sopInstanceUid == GetString(it, Tags.SOPInstanceUID, 0).GetOr("")
      && r.plan.rtPlanLabel == GetString(it, Tags.RTPlanLabel, 0).GetOr("")
      && r.plan.rtPlanName == GetString(it, Tags.RTPlanName, 0).GetOr("")
  {
  }

  /** A CT image (SOP Class 1.2.840.10008.5.1.4.1.1.2) is refused as not an RT Plan. */
  lemma CtImageIsRefused(path: string, errorMessage: string)
    ensures var ds := Node(map[Tags.SOPClassUID := Text(["1.2.840.10008.5.1.4.1.1.2"])]);
      var r := ReadPlan(path, Loaded(ds), errorMessage);
      !r.ok && r.errorMessage == NotRtPlanMessage
  {
    var ds := Node(map[Tags.SOPClassUID := Text(["1.2.840.10008.5.1.4.1.1.2"])]);
    var uid := "1.2.840.10008.5.1.4.1.1.2";
    assert GetString(Some(ds), Tags.SOPClassUID, 0) == Some(uid);
    assert CString(uid) == uid by {
      assert '\0' !in uid;
      CStringWithoutNul(uid);
    }
    assert uid != Tags.RTPlanStorage by {
      assert |uid| != |Tags.RTPlanStorage|;
    }
  }

  lemma {:induction false} CStringWithoutNul(s: string)
    requires '\0' !in s
    ensures CString(s) == s
  {
    if |s| > 0 {
      assert s[0] in s;
      assert forall c :: c in s[1..] ==> c in s;
      CStringWithoutNul(s[1..]);
    }
  }

  /** The summary agrees with the full plan built from the same data set:
      the same fraction count, the same beams in the same order, and each
      summary's control point count (the sequence cardinality) bounds the
      plan beam's list length, which skips null items. */
  lemma SummaryAgreesWithPlan(path: string, ds: Node, errorMessage: string)
    ensures var r := ReadPlan(path, Loaded(ds), errorMessage);
      var s := r.plan;
      var p := Plans.BuildPlan(Some(ds));
      r.ok ==>
      && s.numFractionsPlanned == p.numFractionsPlanned
      && |s.beams| == |p.beams|
      && forall k :: 0 <= k < |s.beams| ==>
           s.beams[k].beamNumber == p.beams[k].beamNumber
           && |p.beams[k].controlPoints| <= s.beams[k].numControlPoints
  {
    var r := ReadPlan(path, Loaded(ds), errorMessage);
    if r.ok {
      var p := Plans.BuildPlan(Some(ds));
      var fg := Plans.FractionGroupMap(Plans.FirstFractionGroup(ds));
      assert p.beams == Plans.AttachFractionInfo(Plans.BuiltBeams(ds), fg).0;
      match FindSequence(ds, Tags.BeamSequence)
      case None =>
      case Some(items) =>
        SummariesMatchBeams(items, fg);
    }
  }

  /** Beam by beam, the summaries of a beam sequence and the joined beams
      built from it agree on number and order, and the summary's count
      bounds the built control point list. */
  lemma SummariesMatchBeams(items: seq<Option<Node>>, fg: map<int, Plans.FractionBeamInfo>)
    ensures var sums := SummarizeBeams(items);
      var joined := Plans.AttachFractionInfo(Plans.BuildBeams(items), fg).0;
      && |sums| == |joined|
      && forall k :: 0 <= k < |sums| ==>
           sums[k].beamNumber == joined[k].beamNumber
           && |joined[k].controlPoints| <= sums[k].numControlPoints
  {
    var sums := SummarizeBeams(items);
    var built := Plans.BuildBeams(items);
    var joined := Plans.AttachFractionInfo(built, fg).0;
    forall k | 0 <= k < |sums|
      ensures sums[k].beamNumber == joined[k].beamNumber
      ensures |joined[k].controlPoints| <= sums[k].numControlPoints
    {
      var node := Present(items)[k];
      assert sums[k] == SummarizeBeam(node);
      assert joined[k] == Plans.JoinBeam(built[k], fg);
      assert built[k] == Beams.BuildBeam(Some(node));
    }
  }
}
