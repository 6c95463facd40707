/** The tag accessors of `dicom::` (and their copies private to the control
    point, plan and summary readers): reads that report absence and never
    fail the caller. A null item is `None`; a successful read is `Some`, a
    failed one `None`, which the caller turns back into "out-parameter left
    untouched" with `GetOr`. */
module DicomUtils {
  import opened Optional
  import opened DicomTree

  /** A fixed 2-tuple of floats (jaw pair). */
  datatype Pair = Pair(first: real, second: real)

  /** A fixed 3-tuple of floats (a position in mm). */
  datatype Triple = Triple(x: real, y: real, z: real)

  /** String value `pos` of element `tag`. */
  function GetString(it: Option<Node>, tag: Tag, pos: nat): (r: Option<string>)
    ensures it.None? ==> r.None?
    ensures r.Some? <==> it.Some? && tag in it.value.elements && it.value.elements[tag].Text?
                         && pos < |it.value.elements[tag].strings|
    ensures r.Some? ==> r.value == it.value.elements[tag].strings[pos]
  {
    match it
    case None => None
    case Some(node) => FindString(node, tag, pos)
  }

  /** 32-bit integer value `pos` of element `tag`. */
  function GetInt(it: Option<Node>, tag: Tag, pos: nat): (r: Option<int>)
    ensures it.None? ==> r.None?
    ensures r.Some? <==> GetDouble(it, tag, pos).Some? && IsSint32(GetDouble(it, tag, pos).value)
    ensures r.Some? ==> Int32Min <= r.value <= Int32Max
    ensures r.Some? ==> GetDouble(it, tag, pos) == Some(r.value as real)
  {
    match it
    case None => None
    case Some(node) => FindSint32(node, tag, pos)
  }

  /** Float value `pos` of element `tag`. */
  function GetDouble(it: Option<Node>, tag: Tag, pos: nat): (r: Option<real>)
    ensures it.None? ==> r.None?
    ensures r.Some? ==> tag in it.value.elements && pos < Multiplicity(it.value.elements[tag])
                        && Float64Of(it.value.elements[tag], pos) == r
    ensures it.Some? && tag in it.value.elements && Float64Of(it.value.elements[tag], pos).Some? ==> r.Some?
  {
    match it
    case None => None
    case Some(node) => FindFloat64(node, tag, pos)
  }

  /** The fixed 2-tuple read: components 0 and 1 read one by one, all or nothing. */
  function GetDouble2(it: Option<Node>, tag: Tag): (r: Option<Pair>)
    ensures r.Some? <==> forall i :: 0 <= i < 2 ==> GetDouble(it, tag, i).Some?
    ensures r.Some? ==> r.value.first == GetDouble(it, tag, 0).value
                        && r.value.second == GetDouble(it, tag, 1).value
  {
    match (GetDouble(it, tag, 0), GetDouble(it, tag, 1))
    case (Some(v0), Some(v1)) => Some(Pair(v0, v1))
    case _ => None
  }

  /** The fixed 3-tuple read: components 0, 1 and 2 read one by one, all or nothing. */
  function GetDouble3(it: Option<Node>, tag: Tag): (r: Option<Triple>)
    ensures r.Some? <==> forall i :: 0 <= i < 3 ==> GetDouble(it, tag, i).Some?
    ensures r.Some? ==> r.value.x == GetDouble(it, tag, 0).value
                        && r.value.y == GetDouble(it, tag, 1).value
                        && r.value.z == GetDouble(it, tag, 2).value
  {
    match (GetDouble(it, tag, 0), GetDouble(it, tag, 1), GetDouble(it, tag, 2))
    case (Some(v0), Some(v1), Some(v2)) => Some(Triple(v0, v1, v2))
    case _ => None
  }

  /** A tuple is never half-read: one unreadable component voids the whole
      2- or 3-tuple. */
  lemma TupleReadsAllOrNothing(it: Option<Node>, tag: Tag, i: nat)
    requires GetDouble(it, tag, i).None?
    ensures i < 2 ==> GetDouble2(it, tag).None?
    ensures i < 3 ==> GetDouble3(it, tag).None?
  {
  }

  /** Components 0 .. n-1 of `v`, all converted, or nothing. */
  function ReadComponents(v: Value, n: nat): (r: Option<seq<real>>)
    ensures r.Some? <==> forall i :: 0 <= i < n ==> Float64Of(v, i).Some?
    ensures r.Some? ==> |r.value| == n
    ensures r.Some? ==> forall i :: 0 <= i < n ==> Float64Of(v, i) == Some(r.value[i])
  {
    if n == 0 then Some([])
    else
      match ReadComponents(v, n - 1)
      case None => None
      case Some(prefix) =>
        match Float64Of(v, n - 1)
        case Some(x) => Some(prefix + [x])
        case None => None
  }

  /** The variable-length read: every value of element `tag`, in order. */
  function GetDoubleVector(it: Option<Node>, tag: Tag): (r: Option<seq<real>>)
    ensures it.None? ==> r.None?
    ensures it.Some? && tag !in it.value.elements ==> r.None?
    ensures it.Some? && tag in it.value.elements && Multiplicity(it.value.elements[tag]) == 0 ==> r.None?
    ensures r.Some? ==> |r.value| == Multiplicity(it.value.elements[tag]) > 0
    ensures r.Some? ==> forall i :: 0 <= i < |r.value| ==> Float64Of(it.value.elements[tag], i) == Some(r.value[i])
    ensures it.Some? && tag in it.value.elements && Multiplicity(it.value.elements[tag]) > 0
            && (forall i :: 0 <= i < Multiplicity(it.value.elements[tag]) ==> Float64Of(it.value.elements[tag], i).Some?)
            ==> r.Some?
  {
    match it
    case None => None
    case Some(node) =>
      match FindElement(node, tag)
      case None => None
      case Some(e) => if Multiplicity(e) == 0 then None else ReadComponents(e, Multiplicity(e))
  }

  /** The variable-length read with its out-parameter: `out` is kept on an
      early failure (null item, missing element, no values); otherwise it is
      cleared and refilled component by component, so a conversion failure
      part-way returns false with the components read so far. */
  method ReadDoubleVectorInto(it: Option<Node>, tag: Tag, out: seq<real>) returns (ok: bool, out': seq<real>)
    ensures ok <==> GetDoubleVector(it, tag).Some?
    ensures ok ==> out' == GetDoubleVector(it, tag).value
    ensures it.None? || tag !in it.value.elements || Multiplicity(it.value.elements[tag]) == 0 ==> out' == out
    ensures !ok && it.Some? && tag in it.value.elements && Multiplicity(it.value.elements[tag]) > 0 ==>
              && |out'| < Multiplicity(it.value.elements[tag])
              && Float64Of(it.value.elements[tag], |out'|).None?
              && forall i :: 0 <= i < |out'| ==> Float64Of(it.value.elements[tag], i) == Some(out'[i])
  {
    if it.None? {
      return false, out;
    }
    var found := FindElement(it.value, tag);
    if found.None? {
      return false, out;
    }
    var e := found.value;
    var vm := Multiplicity(e);
    if vm == 0 {
      return false, out;
    }
    out' := [];
    var i := 0;
    while i < vm
      invariant 0 <= i <= vm
      invariant |out'| == i
      invariant forall j :: 0 <= j < i ==> Float64Of(e, j) == Some(out'[j])
    {
      var v := Float64Of(e, i);
      if v.None? {
        return false, out';
      }
      out' := out' + [v.value];
      i := i + 1;
    }
    ok := true;
    var expected := ReadComponents(e, vm);
    assert expected.Some?;
    assert out' == expected.value;
  }

  /** The child sequence of element `tag`; absent for a null item or a failed lookup. */
  function GetSequence(it: Option<Node>, tag: Tag): (r: Option<seq<Option<Node>>>)
    ensures it.None? ==> r.None?
    ensures r.Some? <==> it.Some? && tag in it.value.elements && it.value.elements[tag].Items?
    ensures r.Some? ==> r.value == it.value.elements[tag].items
  {
    match it
    case None => None
    case Some(node) => FindSequence(node, tag)
  }
}
