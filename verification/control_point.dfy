/** One control point of a beam, built from one control point sequence item:
    geometry read field by field, then the beam limiting device positions
    decoded into jaw pairs and the two MLC leaf banks. */
module ControlPoints {
  import opened Optional
  import opened DicomTree
  import opened DicomUtils
  import Tags = DicomTags

  /** Leaf pairs per MLC bank that the constructor configures. */
  const LeafPairs: int := 60

  /** Device types the constructor acts on. */
  const AsymX: string := "ASYMX"
  const AsymY: string := "ASYMY"
  const MlcX: string := "MLCX"

  /** A control point. The angles, energy and dose rate have no presence flag
      in the source and are uninitialised until read; they are `Option` here. */
  datatype ControlPoint = ControlPoint(
    cpIndex: int,
    cumulativeMetersetWeight: real,
    gantryAngle: Option<real>,
    gantryRotationDirection: Option<string>,
    collimatorAngle: Option<real>,
    collimatorRotationDirection: Option<string>,
    couchAngle: Option<real>,
    couchRotationDirection: Option<string>,
    isocenter: Option<Triple>,
    ssd: Option<real>,
    nominalEnergy: Option<real>,
    doseRate: Option<real>,
    jawX: Option<Pair>,
    jawY: Option<Pair>,
    leafPairs: int,
    mlcA: seq<real>,
    mlcB: seq<real>)

  /** The member initialisers of the struct: index -1, weight 0, no leaf pairs, everything else unset. */
  const DefaultControlPoint: ControlPoint :=
    ControlPoint(-1, 0.0, None, None, None, None, None, None, None, None, None, None, None, None, 0, [], [])

  /** A usable MLC shape: a positive leaf-pair count and both banks exactly
      that long, so that every leaf pair has a position in each bank. */
  function HasMlc(cp: ControlPoint): (b: bool)
    ensures b ==> cp.leafPairs > 0 && |cp.mlcA| == |cp.mlcB|
    ensures b ==> |cp.mlcA + cp.mlcB| == 2 * cp.leafPairs
    ensures b ==> (cp.mlcA + cp.mlcB)[..cp.leafPairs] == cp.mlcA && (cp.mlcA + cp.mlcB)[cp.leafPairs..] == cp.mlcB
  {
    cp.leafPairs > 0 && |cp.mlcA| == cp.leafPairs && |cp.mlcB| == cp.leafPairs
  }

  /** The bank invariant of a built control point: both banks empty, or a full MLC. */
  predicate BanksPaired(cp: ControlPoint) {
    (|cp.mlcA| == 0 && |cp.mlcB| == 0) || HasMlc(cp)
  }

  /** With the default leaf-pair count of 0 no bank contents make an MLC. */
  lemma DefaultLeafPairsHaveNoMlc(a: seq<real>, b: seq<real>)
    ensures !HasMlc(DefaultControlPoint.(mlcA := a, mlcB := b))
  {
  }

  /** One beam limiting device entry whose type and positions both read. */
  datatype DeviceReading = DeviceReading(deviceType: string, positions: seq<real>)

  /** Decoding one device entry; an entry without a type string or without a
      readable position vector (including a null item) is skipped. */
  function ReadDevice(entry: Option<Node>): (r: Option<DeviceReading>)
    ensures r.Some? <==> GetString(entry, Tags.RTBeamLimitingDeviceType, 0).Some?
                         && GetDoubleVector(entry, Tags.LeafJawPositions).Some?
    ensures r.Some? ==> r.value.deviceType == GetString(entry, Tags.RTBeamLimitingDeviceType, 0).value
                        && r.value.positions == GetDoubleVector(entry, Tags.LeafJawPositions).value
    ensures r.Some? ==> |r.value.positions| > 0
  {
    match GetString(entry, Tags.RTBeamLimitingDeviceType, 0)
    case None => None
    case Some(t) =>
      match GetDoubleVector(entry, Tags.LeafJawPositions)
      case None => None
      case Some(vals) => Some(DeviceReading(t, vals))
  }

  /** Whether the constructor acts on reading `d` for device type `kind`,
      with `n` leaf pairs per bank: a jaw needs two values, an MLC needs a
      positive `n` and at least `2n` values; any other type is never acted on. */
  predicate Accepts(d: DeviceReading, kind: string, n: int) {
    && d.deviceType == kind
    && if kind == MlcX then n > 0 && |d.positions| >= 2 * n
       else (kind == AsymX || kind == AsymY) && |d.positions| >= 2
  }

  /** The aperture field a device type sets, viewed uniformly. */
  datatype Aperture = Jaw(jaw: Option<Pair>) | Banks(a: seq<real>, b: seq<real>) | NoAperture

  function ApertureOf(cp: ControlPoint, kind: string): Aperture {
    if kind == AsymX then Jaw(cp.jawX)
    else if kind == AsymY then Jaw(cp.jawY)
    else if kind == MlcX then Banks(cp.mlcA, cp.mlcB)
    else NoAperture
  }

  /** What an accepted reading of `kind` decodes to: the first two values of
      a jaw entry; the first `n` and the next `n` values of an MLC entry. */
  function Decoded(d: DeviceReading, kind: string, n: int): Aperture
    requires Accepts(d, kind, n)
  {
    if kind == MlcX then Banks(d.positions[..n], d.positions[n..2 * n])
    else if kind == AsymX || kind == AsymY then Jaw(Some(Pair(d.positions[0], d.positions[1])))
    else NoAperture
  }

  /** Applying one decoded entry, in the order of the constructor's if/else chain. */
  function ApplyReading(cp: ControlPoint, d: DeviceReading): (r: ControlPoint)
    ensures r.(jawX := cp.jawX, jawY := cp.jawY, mlcA := cp.mlcA, mlcB := cp.mlcB) == cp
    ensures forall kind :: Accepts(d, kind, cp.leafPairs) ==> ApertureOf(r, kind) == Decoded(d, kind, cp.leafPairs)
    ensures forall kind :: !Accepts(d, kind, cp.leafPairs) ==> ApertureOf(r, kind) == ApertureOf(cp, kind)
    ensures Accepts(d, MlcX, cp.leafPairs) ==>
              |r.mlcA| == |r.mlcB| == cp.leafPairs && r.mlcA + r.mlcB == d.positions[..2 * cp.leafPairs]
  {
    var vals := d.positions;
    if d.deviceType == AsymX && |vals| >= 2 then
      cp.(jawX := Some(Pair(vals[0], vals[1])))
    else if d.deviceType == AsymY && |vals| >= 2 then
      cp.(jawY := Some(Pair(vals[0], vals[1])))
    else if d.deviceType == MlcX then
      var n := cp.leafPairs;
      if n > 0 && |vals| >= 2 * n then
        assert vals[..n] + vals[n..2 * n] == vals[..2 * n];
        cp.(mlcA := vals[..n], mlcB := vals[n..2 * n])
      else cp
    else cp
  }

  /** Whether entry `j` is read and accepted for `kind`. */
  predicate AcceptedAt(entries: seq<Option<Node>>, j: int, kind: string, n: int)
    requires 0 <= j < |entries|
  {
    ReadDevice(entries[j]).Some? && Accepts(ReadDevice(entries[j]).value, kind, n)
  }

  /** The device-position loop: entries applied in sequence order. */
  function ApplyDevices(cp: ControlPoint, entries: seq<Option<Node>>): (r: ControlPoint)
    ensures r.(jawX := cp.jawX, jawY := cp.jawY, mlcA := cp.mlcA, mlcB := cp.mlcB) == cp
    decreases |entries|
  {
    if |entries| == 0 then cp
    else
      var before := ApplyDevices(cp, entries[..|entries| - 1]);
      match ReadDevice(entries[|entries| - 1])
      case None => before
      case Some(d) => ApplyReading(before, d)
  }

  /** Last accepted entry wins: if entry `k` is the last one accepted for
      `kind`, that device's field is exactly what entry `k` decodes to. */
  lemma {:induction false} LastAcceptedEntryWins(cp: ControlPoint, entries: seq<Option<Node>>, kind: string, k: int)
    requires 0 <= k < |entries| && AcceptedAt(entries, k, kind, cp.leafPairs)
    requires forall j :: k < j < |entries| ==> !AcceptedAt(entries, j, kind, cp.leafPairs)
    ensures ApertureOf(ApplyDevices(cp, entries), kind) == Decoded(ReadDevice(entries[k]).value, kind, cp.leafPairs)
    decreases |entries|
  {
    var last := |entries| - 1;
    var prefix := entries[..last];
    if k < last {
      forall j | k < j < |prefix|
        ensures !AcceptedAt(prefix, j, kind, cp.leafPairs)
      {
        assert prefix[j] == entries[j];
        assert !AcceptedAt(entries, j, kind, cp.leafPairs);
      }
      assert prefix[k] == entries[k];
      LastAcceptedEntryWins(cp, prefix, kind, k);
      assert !AcceptedAt(entries, last, kind, cp.leafPairs);
    }
  }

  /** Entries that are not accepted for `kind` (other device types, short
      vectors, unreadable entries) leave that device's field as it was. */
  lemma {:induction false} UnacceptedEntriesKeepAperture(cp: ControlPoint, entries: seq<Option<Node>>, kind: string)
    requires forall j :: 0 <= j < |entries| ==> !AcceptedAt(entries, j, kind, cp.leafPairs)
    ensures ApertureOf(ApplyDevices(cp, entries), kind) == ApertureOf(cp, kind)
    decreases |entries|
  {
    if |entries| > 0 {
      var last := |entries| - 1;
      var prefix := entries[..last];
      forall j | 0 <= j < |prefix|
        ensures !AcceptedAt(prefix, j, kind, cp.leafPairs)
      {
        assert prefix[j] == entries[j];
        assert !AcceptedAt(entries, j, kind, cp.leafPairs);
      }
      UnacceptedEntriesKeepAperture(cp, prefix, kind);
      assert !AcceptedAt(entries, last, kind, cp.leafPairs);
    }
  }

  /** The device loop keeps the bank invariant: when the leaf-pair count is
      positive and the banks start both empty or both full, they end that way. */
  lemma {:induction false} ApplyDevicesKeepsBankShape(cp: ControlPoint, entries: seq<Option<Node>>)
    requires cp.leafPairs > 0
    requires (|cp.mlcA| == 0 && |cp.mlcB| == 0) || HasMlc(cp)
    ensures var r := ApplyDevices(cp, entries); (|r.mlcA| == 0 && |r.mlcB| == 0) || HasMlc(r)
    decreases |entries|
  {
    if |entries| > 0 {
      ApplyDevicesKeepsBankShape(cp, entries[..|entries| - 1]);
    }
  }

  /** The field-by-field reads of the constructor, before the device loop. */
  function ReadFields(item: Option<Node>): ControlPoint {
    DefaultControlPoint.(
      leafPairs := LeafPairs,
      cpIndex := GetInt(item, Tags.ControlPointIndex, 0).GetOr(-1),
      cumulativeMetersetWeight := GetDouble(item, Tags.CumulativeMetersetWeight, 0).GetOr(0.0),
      gantryAngle := GetDouble(item, Tags.GantryAngle, 0),
      gantryRotationDirection := GetString(item, Tags.GantryRotationDirection, 0),
      collimatorAngle := GetDouble(item, Tags.BeamLimitingDeviceAngle, 0),
      couchAngle := GetDouble(item, Tags.PatientSupportAngle, 0),
      isocenter := GetDouble3(item, Tags.IsocenterPosition),
      ssd := GetDouble(item, Tags.SourceToSurfaceDistance, 0),
      nominalEnergy := GetDouble(item, Tags.NominalBeamEnergy, 0),
      doseRate := GetDouble(item, Tags.DoseRateSet, 0))
  }

  /** The control point constructor. Index and weight keep their defaults
      when absent; every other scalar is present exactly when it reads. */
  function BuildControlPoint(item: Option<Node>): (cp: ControlPoint)
    ensures cp.leafPairs == LeafPairs
    ensures cp.cpIndex == GetInt(item, Tags.ControlPointIndex, 0).GetOr(-1)
    ensures cp.cumulativeMetersetWeight == GetDouble(item, Tags.CumulativeMetersetWeight, 0).GetOr(0.0)
    ensures cp.isocenter.Some? <==> forall i :: 0 <= i < 3 ==> GetDouble(item, Tags.IsocenterPosition, i).Some?
    ensures cp.collimatorRotationDirection.None? && cp.couchRotationDirection.None?
    ensures BanksPaired(cp)
  {
    var base := ReadFields(item);
    match GetSequence(item, Tags.BeamLimitingDevicePositionSequence)
    case None => base
    case Some(entries) =>
      ApplyDevicesKeepsBankShape(base, entries);
      ApplyDevices(base, entries)
  }

  /** The built control point's geometry is read from the item field by
      field, and the device loop touches none of it. */
  lemma BuildReadsGeometry(item: Option<Node>)
    ensures var cp := BuildControlPoint(item);
      && cp.gantryAngle == GetDouble(item, Tags.GantryAngle, 0)
      && cp.gantryRotationDirection == GetString(item, Tags.GantryRotationDirection, 0)
      && cp.collimatorAngle == GetDouble(item, Tags.BeamLimitingDeviceAngle, 0)
      && cp.couchAngle == GetDouble(item, Tags.PatientSupportAngle, 0)
      && cp.isocenter == GetDouble3(item, Tags.IsocenterPosition)
      && cp.ssd == GetDouble(item, Tags.SourceToSurfaceDistance, 0)
      && cp.nominalEnergy == GetDouble(item, Tags.NominalBeamEnergy, 0)
      && cp.doseRate == GetDouble(item, Tags.DoseRateSet, 0)
  {
  }

  /** The built control point's aperture: for each device type, the last
      accepted entry of the device sequence decides it; with none, it stays unset. */
  lemma BuildDecodesDevices(item: Option<Node>, kind: string)
    requires kind == AsymX || kind == AsymY || kind == MlcX
    ensures var cp := BuildControlPoint(item);
      var entries := GetSequence(item, Tags.BeamLimitingDevicePositionSequence);
      && ((entries.None? || (forall j :: 0 <= j < |entries.value| ==> !AcceptedAt(entries.value, j, kind, LeafPairs)))
          ==> ApertureOf(cp, kind) == ApertureOf(DefaultControlPoint, kind))
      && (forall k :: (entries.Some? && 0 <= k < |entries.value| && AcceptedAt(entries.value, k, kind, LeafPairs)
                       && (forall j :: k < j < |entries.value| ==> !AcceptedAt(entries.value, j, kind, LeafPairs)))
            ==> ApertureOf(cp, kind) == Decoded(ReadDevice(entries.value[k]).value, kind, LeafPairs))
  {
    var cp := BuildControlPoint(item);
    var entries := GetSequence(item, Tags.BeamLimitingDevicePositionSequence);
    if entries.Some? {
      var base := ReadFields(item);
      assert cp == ApplyDevices(base, entries.value);
      assert ApertureOf(base, kind) == ApertureOf(DefaultControlPoint, kind);
      if forall j :: 0 <= j < |entries.value| ==> !AcceptedAt(entries.value, j, kind, LeafPairs) {
        UnacceptedEntriesKeepAperture(base, entries.value, kind);
      }
      forall k | 0 <= k < |entries.value| && AcceptedAt(entries.value, k, kind, LeafPairs)
                 && (forall j :: k < j < |entries.value| ==> !AcceptedAt(entries.value, j, kind, LeafPairs))
        ensures ApertureOf(cp, kind) == Decoded(ReadDevice(entries.value[k]).value, kind, LeafPairs)
      {
        LastAcceptedEntryWins(base, entries.value, kind, k);
      }
    }
  }
}
