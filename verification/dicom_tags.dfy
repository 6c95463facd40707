/** The data-element tags the RT Plan reader queries (DICOM PS3.6 data
    dictionary) and the RT Plan Storage SOP Class UID (DICOM PS3.4). */
module DicomTags {
  import opened DicomTree

  // SOP common, patient, study and series
  const SOPClassUID := Tag(0x0008, 0x0016)
  const SOPInstanceUID := Tag(0x0008, 0x0018)
  const ReferencedSOPInstanceUID := Tag(0x0008, 0x1155)
  const PatientName := Tag(0x0010, 0x0010)
  const PatientID := Tag(0x0010, 0x0020)
  const StudyInstanceUID := Tag(0x0020, 0x000D)
  const SeriesInstanceUID := Tag(0x0020, 0x000E)
  const FrameOfReferenceUID := Tag(0x0020, 0x0052)

  // RT General Plan
  const RTPlanLabel := Tag(0x300A, 0x0002)
  const RTPlanName := Tag(0x300A, 0x0003)
  const RTPlanDescription := Tag(0x300A, 0x0004)
  const RTPlanDate := Tag(0x300A, 0x0006)
  const RTPlanTime := Tag(0x300A, 0x0007)
  const RTPlanGeometry := Tag(0x300A, 0x000C)
  const ReferencedStructureSetSequence := Tag(0x300C, 0x0060)
  const ApprovalStatus := Tag(0x300E, 0x0002)

  // RT Fraction Scheme
  const FractionGroupSequence := Tag(0x300A, 0x0070)
  const FractionGroupNumber := Tag(0x300A, 0x0071)
  const NumberOfFractionsPlanned := Tag(0x300A, 0x0078)
  const BeamDoseSpecificationPoint := Tag(0x300A, 0x0082)
  const BeamDose := Tag(0x300A, 0x0084)
  const BeamMeterset := Tag(0x300A, 0x0086)
  const ReferencedBeamSequence := Tag(0x300C, 0x0004)
  const ReferencedBeamNumber := Tag(0x300C, 0x0006)

  // RT Beams
  const BeamSequence := Tag(0x300A, 0x00B0)
  const TreatmentMachineName := Tag(0x300A, 0x00B2)
  const PrimaryDosimeterUnit := Tag(0x300A, 0x00B3)
  const SourceAxisDistance := Tag(0x300A, 0x00B4)
  const RTBeamLimitingDeviceType := Tag(0x300A, 0x00B8)
  const BeamNumber := Tag(0x300A, 0x00C0)
  const BeamName := Tag(0x300A, 0x00C2)
  const BeamType := Tag(0x300A, 0x00C4)
  const RadiationType := Tag(0x300A, 0x00C6)
  const TreatmentDeliveryType := Tag(0x300A, 0x00CE)
  const FinalCumulativeMetersetWeight := Tag(0x300A, 0x010E)
  const NumberOfControlPoints := Tag(0x300A, 0x0110)
  const ControlPointSequence := Tag(0x300A, 0x0111)
  const ControlPointIndex := Tag(0x300A, 0x0112)
  const NominalBeamEnergy := Tag(0x300A, 0x0114)
  const DoseRateSet := Tag(0x300A, 0x0115)
  const BeamLimitingDevicePositionSequence := Tag(0x300A, 0x011A)
  const LeafJawPositions := Tag(0x300A, 0x011C)
  const GantryAngle := Tag(0x300A, 0x011E)
  const GantryRotationDirection := Tag(0x300A, 0x011F)
  const BeamLimitingDeviceAngle := Tag(0x300A, 0x0120)
  const PatientSupportAngle := Tag(0x300A, 0x0122)
  const IsocenterPosition := Tag(0x300A, 0x012C)
  const SourceToSurfaceDistance := Tag(0x300A, 0x0130)
  const CumulativeMetersetWeight := Tag(0x300A, 0x0134)

  /** RT Plan Storage SOP Class UID. */
  const RTPlanStorage: string := "1.2.840.10008.5.1.4.1.1.481.5"
}
