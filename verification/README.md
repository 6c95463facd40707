# DCM_Reader core in Dafny

A model of the part of DCM_Reader that turns a loaded DICOM RT Plan data set
into plan, beam and control point records, with proofs about it. The main parts:

- The tag accessors (`dicom::getString`, `getInt`, `getDouble`, `getDouble2`,
  `getDouble3`, `getDoubleVector` and `getSequence`), together with the private
  copies of them in the control point, plan and summary readers. Each read
  returns `Option`. A failed read leaves the C++ out-parameter untouched; here
  the caller writes that as `GetOr(default)`.
- The `ControlPoint` constructor. It reads the geometry fields one by one, then
  decodes the Beam Limiting Device Position Sequence. An `ASYMX`/`ASYMY` entry
  needs at least two values. An `MLCX` entry needs at least `2 * leafPairs`
  values; the first 60 go to bank A and the next 60 to bank B.
- The `Beam` constructor:
  - identity, machine and declared control point count;
  - the control point list (null items skipped, order kept);
  - the carry-forward pass, in which each later point inherits unset jaws,
    isocenter, SSD, angles and banks from the point before it.
- `Beam::storeFractionSequence`.
- The `Plan` constructor:
  - identity and optional fields;
  - the referenced structure set;
  - the first fraction group's referenced-beam map, where a later item with
    the same beam number wins;
  - the join of that map onto the beams, with the total planned meterset;
  - the primary isocenter.
- `RtPlanReader::ReadPlan`, the light summary reader. It classifies the object
  by SOP Class UID, reads identity fields and the planned fraction count, and
  samples the first and last control point of each beam.

The data set is an immutable tree (`DicomTree.Node`): a map from tags to
string values, numeric values, or sequences of possibly-null items. Numbers are
Dafny `real`s. The source has several fields with no presence flag that stay
uninitialised until read. These are `Option` in the model: control point
angles, energy and dose rate, and a beam's meterset, dose and dose
specification point.

Modules, one per file, in dependency order:
- `Optional` (optional.dfy)
- `DicomTree` (dicom_tree.dfy)
- `DicomTags` (dicom_tags.dfy)
- `DicomUtils` (dicom_utils.dfy)
- `ControlPoints` (control_point.dfy)
- `CarryForwardPass` (carry_forward.dfy)
- `Beams` (beam.dfy)
- `Plans` (plan.dfy)
- `RtPlanReader` (rt_plan_reader.dfy)

## Model
| member | source | states |
|---|---|---|
| DicomUtils.GetString | src/DicomUtils.cpp:8-22 | A null item never reads. A read succeeds exactly when the element exists, holds strings and has a value at the position; the result is that value. |
| DicomUtils.GetInt | src/DicomUtils.cpp:24-38 | A null item never reads. The read succeeds exactly when the float reading at that position exists and is an integer within the Sint32 range; the result lies in that range and equals the reading. |
| DicomUtils.GetDouble | src/DicomUtils.cpp:40-54 | A null item never reads. A component that converts at an existing element always reads. A successful read comes from an existing element, at a position within its multiplicity, and is that component's value. |
| DicomUtils.GetDouble2 | src/DicomUtils.cpp:56-68 | The jaw pair reads exactly when components 0 and 1 both read, and then holds those two values in order. |
| DicomUtils.GetDouble3 | src/DicomUtils.cpp:70-83 | The 3-vector reads exactly when components 0, 1 and 2 all read, and then holds those values in order. |
| DicomUtils.TupleReadsAllOrNothing | src/DicomUtils.cpp:56-83 | One unreadable component voids the whole 2- or 3-tuple; it is never half-filled. |
| DicomUtils.ReadComponents | src/DicomUtils.cpp:100-108 | The first n components all convert, or the read fails. On success there are exactly n results, pointwise equal to the components. |
| DicomUtils.GetDoubleVector | src/DicomUtils.cpp:85-111 | Null item, missing element or zero multiplicity: the read fails. On success the length equals the multiplicity and every entry equals its component. It succeeds whenever every component converts. |
| DicomUtils.ReadDoubleVectorInto | src/DicomUtils.cpp:85-111 | Succeeds exactly when the vector read does, with the same values. On an early failure the out-vector is kept. A conversion failure part-way leaves the components read so far, stopping at the first one that fails. |
| DicomUtils.GetSequence | src/DicomUtils.cpp:113-123 | A null item gives no sequence. A sequence is returned exactly when the element exists and holds items; those items are returned. |
| ControlPoints.HasMlc | include/ControlPoint.h:45 | A control point with an MLC has a positive leaf-pair count and banks of equal length. Together the two banks hold exactly 2 × leafPairs positions, bank A first and bank B from offset leafPairs. |
| ControlPoints.DefaultLeafPairsHaveNoMlc | include/ControlPoint.h:39-45 | With the default leaf-pair count of 0, no bank contents make an MLC. |
| ControlPoints.ReadDevice | src/ControlPoint.cpp:114-121 | A device entry is used exactly when its type string and its position vector both read; its reading carries those values, and the vector is non-empty. |
| ControlPoints.ApplyReading | src/ControlPoint.cpp:123-139 | One entry changes only the jaws and banks. An entry accepted for a device type sets that device to the decoded value. Every device the entry is not accepted for keeps its value. An accepted MLCX entry puts exactly the first 2n positions into banks A and B, n each. |
| ControlPoints.ApplyDevices | src/ControlPoint.cpp:112-140 | The device loop, applying readable entries in sequence order, changes only the jaws and the banks. |
| ControlPoints.LastAcceptedEntryWins | src/ControlPoint.cpp:112-140 | After the device loop, a device's field is what the last entry accepted for it decodes to. |
| ControlPoints.UnacceptedEntriesKeepAperture | src/ControlPoint.cpp:112-140 | Entries not accepted for a device leave its field as it was: other types, short vectors, unreadable entries, null items. |
| ControlPoints.ApplyDevicesKeepsBankShape | src/ControlPoint.cpp:131-139 | With a positive leaf-pair count, banks that start both empty or both full end both empty or both full. |
| ControlPoints.BuildControlPoint | src/ControlPoint.cpp:79-142 | Leaf pairs are 60. Index and weight keep their defaults -1 and 0 when unread. The isocenter is set exactly when all three components read. Collimator and couch rotation directions are never set. The banks are both empty or form a full MLC. |
| ControlPoints.BuildReadsGeometry | src/ControlPoint.cpp:83-107 | Angles, gantry rotation direction, isocenter, SSD, energy and dose rate are each present exactly when their tag reads, with that value, whatever the device sequence holds. |
| ControlPoints.BuildDecodesDevices | src/ControlPoint.cpp:109-141 | Each of ASYMX, ASYMY and MLCX is decided by the last accepted device entry of its type, and stays unset when none is accepted. |
| CarryForwardPass.CarryForward | src/Beam.cpp:59-76 | Length is kept and point 0 is unchanged. Every later point is its own point after inheriting from the already-processed previous point. |
| CarryForwardPass.CarryForwardInPlace | src/Beam.cpp:59-76 | The in-place index loop computes the same list as the recursive pass. |
| CarryForwardPass.Inherit | src/Beam.cpp:61-75 | One step of the pass changes only the carried fields: jaws, isocenter, SSD, the three angles and the two banks. Every other field is the point's own. |
| CarryForwardPass.InheritField | src/Beam.cpp:64-75 | For each carried field, a point keeps the field if it supplies it: present for the optional fields, nonzero for the angles, non-empty for the banks. Otherwise it takes its predecessor's field when the predecessor supplies it. |
| CarryForwardPass.LastSupplier | src/Beam.cpp:59-76 | Finds the last point at or before i that supplies a field; no later point up to i supplies it, and None means no point up to i does. |
| CarryForwardPass.CarryForwardResolves | src/Beam.cpp:59-76 | Each point's carried field equals the value of the last point at or before it that supplies the field, or its own value when none does. Other fields are untouched. |
| CarryForwardPass.CarryForwardClosure | src/Beam.cpp:59-76 | A field supplied by point 0 and by no later point ends up with point 0's value everywhere. |
| CarryForwardPass.CarryForwardKeepsOwn | src/Beam.cpp:61-75 | A point that supplies a field keeps its own value. |
| CarryForwardPass.CarryForwardPrefix | src/Beam.cpp:59-76 | The pass on the first k points gives the first k results of the pass on the whole list. |
| CarryForwardPass.NoLookAhead | src/Beam.cpp:59-76 | Point i's result depends only on points 0..i. |
| CarryForwardPass.CarryForwardKeepsBanksPaired | src/Beam.cpp:74-75 | When every input point has 60 leaf pairs and paired banks, every output point does too. The banks are copied separately but always together. |
| Beams.BuildControlPoints | src/Beam.cpp:48-55 | One control point per non-null item, in sequence order, and never more than there are items. |
| Beams.BuildBeam | src/Beam.cpp:9-78 | Leaf pairs are 60. An unread beam number stays -1 and an unread declared count stays 0. Without a control point sequence the list is empty; with one, it is the carry-forward pass over the built points. Meterset, dose and specification point start unset. |
| Beams.BuildBeamReadsIdentity | src/Beam.cpp:14-34 | Beam name, beam type, radiation type, delivery type, machine name, dosimeter unit, source-axis distance and final cumulative meterset weight are each present exactly when their tag reads, with that value. |
| Beams.BeamControlPointsFollowSequence | src/Beam.cpp:40-76 | The k-th built point comes from the k-th non-null item, with strictly increasing source positions. Apart from the carried fields it is that item's control point. |
| Beams.BeamBanksPaired | src/Beam.cpp:40-76 | Every control point of a built beam, after carry-forward, has 60 leaf pairs and both banks empty or a full MLC. |
| Beams.DeclaredCountNotReconciled | src/Beam.cpp:37-55 | The declared count is never checked against the list: a beam can declare 3 points and hold none. |
| Beams.StoreFractionSequence | src/Beam.cpp:111-127 | Nothing changes unless the referenced beam number reads and equals the beam's number. Only meterset, dose and specification point can change. On a match each of them is overwritten when it reads; the point needs all three components. A field whose read fails keeps its old value. |
| Beams.StoreFractionSequenceIdempotent | src/Beam.cpp:111-127 | Storing the same item twice equals storing it once. |
| Plans.ReadFractionBeamInfo | src/Plan.cpp:124-127 | An entry's meterset and dose are the values read, or 0 when absent. Its specification point is present exactly when all three components read, and is then those three values in order. |
| Plans.FractionMap | src/Plan.cpp:116-131 | Every key of the map comes from some non-null referenced-beam item carrying that number, and its entry is the one read from such an item. |
| Plans.FractionMapKeys | src/Plan.cpp:116-131 | A number is a key exactly when some non-null item carries it. |
| Plans.FractionMapLastWriteWins | src/Plan.cpp:116-131 | The entry under a number is the one read from the last item carrying that number. |
| Plans.FirstFractionGroup | src/Plan.cpp:103-108 | For a non-empty fraction group sequence, the group is item 0, null or not. A group exists only then; later items are never consulted. |
| Plans.FractionGroupMap | src/Plan.cpp:113-132 | With a referenced beam sequence the map is the referenced-beam loop over its items; without one, the map is empty. |
| Plans.JoinBeam | src/Plan.cpp:150-158 | Only meterset, dose and specification point change. An unmatched beam is unchanged. A matched beam gets the entry's meterset and dose, and its specification point only when the entry has one. |
| Plans.AddMeterset | src/Plan.cpp:159-160 | An unmatched beam leaves the running total as it was. A matched beam starts the total at its entry's meterset, or adds that meterset to the existing total. |
| Plans.AttachFractionInfo | src/Plan.cpp:137-164 | The joined list keeps the beams' number and order, and each beam is joined with the map. |
| Plans.MatchedMetersetSnoc | src/Plan.cpp:159-160 | Appending a beam adds its matched meterset, or nothing when unmatched, to the reference sum. |
| Plans.TotalIsMatchedSum | src/Plan.cpp:151-161 | The total is absent exactly when no beam matched. Otherwise it is the sum of the matched entries' metersets, one per matching beam. |
| Plans.NoMatchSumsToZero | src/Plan.cpp:151-161 | When no beam matches, the reference sum is 0. |
| Plans.UnmatchedKeysIgnored | src/Plan.cpp:151-161 | Removing a map entry that no beam matches changes neither the beams nor the total. |
| Plans.AttachIdempotent | src/Plan.cpp:150-161 | Joining the joined beams again gives the same beams and the same total. |
| Plans.TwoOfThreeBeamsJoined | src/Plan.cpp:150-161 | Beams 1, 2 and 3 against entries for beams 1 (120 MU) and 2 (80 MU): beam 3 stays unjoined and the total is 200. |
| Plans.BuildBeams | src/Plan.cpp:139-148 | One beam per non-null beam item, in order. |
| Plans.StructureSetUid | src/Plan.cpp:82-91 | For a non-empty referenced structure set sequence, the UID is item 0's Referenced SOP Instance UID read. A UID exists only then. |
| Plans.BuildPlan | src/Plan.cpp:47-173 | A null data set gives the default plan. Each optional text field is set exactly when its tag reads. The fraction group number and planned fractions come from the first fraction group, defaulting to -1. The beams and total are the join of the built beams with the first group's map. The primary isocenter is set exactly from the first control point of the first beam. |
| Plans.BuildPlanReadsIdentity | src/Plan.cpp:53-80 | Patient name and ID, study, series, SOP instance and frame-of-reference UIDs, plan label and plan name are each the value read, or empty when absent. Description, geometry, approval status, date and time are present exactly when their tag reads, with that value. |
| Plans.PlanJoinCorrect | src/Plan.cpp:101-161 | In the built plan, a beam has meterset and dose exactly when its number is a key, and a specification point exactly when the entry has one. The total is absent exactly when nothing matched and is otherwise the matched sum. |
| Plans.JoinPerBeam | src/Plan.cpp:150-158 | For beams not yet joined: after the join, each beam keeps its number. It has meterset and dose exactly when its number is a key, with the entry's meterset. It has a specification point exactly when that entry has one. |
| RtPlanReader.CString | src/RtPlanReader.cpp:81 | The C-string view is a prefix without NUL, cut at the first NUL when one exists. |
| RtPlanReader.CStringWithoutNul | src/RtPlanReader.cpp:81 | A string with no NUL is its own C-string view. |
| RtPlanReader.IsRtPlanSopClass | src/RtPlanReader.cpp:40-43 | A null UID is refused. A UID is accepted exactly when it is 1.2.840.10008.5.1.4.1.1.481.5 (RT Plan Storage). |
| RtPlanReader.SampleAt | src/RtPlanReader.cpp:146-160 | One sample, or none when the index is out of range or the item is null; the sample carries its index. |
| RtPlanReader.SampleFirstAndLast | src/RtPlanReader.cpp:146-163 | At most two samples. Each comes from index 0 or the last index and from a non-null item, with that item's angles (0 when unread). The count is 1 for a non-null first item plus 1 for a non-null last item when there are at least two. With two samples, the first comes before the last. |
| RtPlanReader.SummarizeBeam | src/RtPlanReader.cpp:128-164 | The beam number reads, defaulting to -1. Beam name, beam type, radiation type and treatment delivery type are each their own tag read, or empty when it does not read. Without a control point sequence the count is 0 and there are no samples. With one, the count is the sequence's item count and the samples are its first and last control points. |
| RtPlanReader.SummarizeBeams | src/RtPlanReader.cpp:123-167 | One summary per non-null beam item, in order. |
| RtPlanReader.ReadPlan | src/RtPlanReader.cpp:63-170 | The summary is reset and gets its path. A failed load returns false with the prefixed diagnostic. The object is accepted exactly when the SOP Class UID reads and its C-string equals RT Plan Storage; otherwise the call returns false with the fixed message and nothing read. On success the message is untouched and planned fractions come from the first fraction group. The beams are empty without a beam sequence and otherwise summarise every non-null beam item. |
| RtPlanReader.ReadPlanReadsIdentity | src/RtPlanReader.cpp:88-97 | On an accepted data set, patient name and ID, the study, series and SOP instance UIDs, the plan label and the plan name are each their own tag read, or empty when it does not read. |
| RtPlanReader.CtImageIsRefused | src/RtPlanReader.cpp:78-85 | A data set whose SOP Class is CT Image Storage is refused with the fixed message. |
| RtPlanReader.SummaryAgreesWithPlan | src/RtPlanReader.cpp:99-167 | On an accepted data set the summary and the full plan agree: same planned fractions and same beams in the same order. Each summary's control point count bounds the plan beam's list length, which skips null items. |
| RtPlanReader.SummariesMatchBeams | src/RtPlanReader.cpp:126-167 | For one beam sequence, the summaries and the joined beams agree in count, in order and on beam numbers. Each summary's control point count bounds the built list. |

## Left out

- `src/main.cc`, every `print` method, the debug output in the plan constructor and the beam-number mismatch message in `Beam::storeFractionSequence` (src/Beam.cpp:118-119): console output only.
- `DcmFileFormat::loadFile` and the binary container. `ReadPlan` takes the load outcome (a data set or a diagnostic text) as a parameter.
- The `void*` wrappers `RtPlanReader::GetStr`, `GetInt` and `GetFloat64` (src/RtPlanReader.cpp:45-61). They only cast the pointer and call the static helpers modelled by `DicomUtils`.
- Floating point: values are Dafny reals. Rounding and NaN are not modelled, and the `(double)` casts are identities.
- The toolkit's value conversions are approximated by the tree model:
  - String reads succeed only on string elements.
  - Float reads succeed only on numeric components the toolkit converts; a component that does not convert is `None`.
  - A Sint32 read succeeds on an integral component within the 32-bit range.
  - A sequence element has multiplicity 1.
- DicomUtils.GetString: the assignment through `c_str()` in the accessor cuts a value at an embedded NUL; the accessor model returns the stored value whole. Only the SOP Class test of the summary reader models the cut (`CString`).
- Fields with no presence flag that are read before any write in the source are `Option` and start as `None`. Where the source reads such a value uninitialised, the model gives it a definite meaning:
  - Beams.StoreFractionSequence: a referenced beam number that does not read matches no beam. In the source, `refBeamNo` is uninitialised in that case.
  - CarryForwardPass.Inherit: an angle that never read is an indeterminate double in the source, which the truthiness test at src/Beam.cpp:70-72 may copy forward or keep. The model takes such an angle as `None`, which counts as not set (`AngleSet`), so the predecessor's nonzero angle is inherited.
  - Plans.FractionMap: a referenced-beam item whose beam number does not read is keyed -1 (`MissingBeamNumber`), as the source initialises it. This assumes `findAndGetSint32` leaves its output alone on failure; some toolkit versions reset it to 0 instead.
- The summary reader's narrowing of the sequence cardinality to `int` is not modelled; counts are unbounded naturals.
- Plans.BuildPlan: the source builds and joins each beam in one loop. The model builds all beams, then joins them in order. Attaching an entry depends only on the beam itself, so the beams and the running total are the same.
- Plans.AttachFractionInfo: the total's floating-point summation order is not modelled; sums are exact reals.

## Findings

None claimed. Two behaviours look surprising but are modelled as written:

- The carry-forward pass tests angles for truthiness, so a genuine 0° angle is replaced by a nonzero previous angle (`CarryForwardPass.AngleSet`).
- The declared control point count is never reconciled with the list (`Beams.DeclaredCountNotReconciled`).
