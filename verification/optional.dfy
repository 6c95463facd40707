/** Presence/absence values, and the "skip null items" walk that every
    sequence traversal of the RT Plan reader performs. */
module Optional {

  /** A value that may be absent: a failed tag read, an unset optional field,
      or a null item pointer. */
  datatype Option<+T> = None | Some(value: T) {

    /** The value when present, otherwise `default`: the shape of an
        out-parameter that a failed read leaves untouched. */
    function GetOr(default: T): T {
      match this
      case Some(v) => v
      case None => default
    }
  }

  /** The present elements of `xs`, in order; absent (null) items are skipped. */
  function Present<T>(xs: seq<Option<T>>): (r: seq<T>)
    ensures |r| <= |xs|
  {
    if |xs| == 0 then []
    else if xs[|xs| - 1].Some? then Present(xs[..|xs| - 1]) + [xs[|xs| - 1].value]
    else Present(xs[..|xs| - 1])
  }

  /** The positions in `xs` of the elements `Present` keeps: strictly
      increasing, each pointing at the element kept at that rank, and
      covering every present position. */
  function PresentIndices<T>(xs: seq<Option<T>>): (p: seq<nat>)
    ensures |p| == |Present(xs)|
    ensures forall k :: 0 <= k < |p| ==> p[k] < |xs| && xs[p[k]] == Some(Present(xs)[k])
    ensures forall k, l :: 0 <= k < l < |p| ==> p[k] < p[l]
    ensures forall i :: 0 <= i < |xs| && xs[i].Some? ==> i in p
  {
    if |xs| == 0 then []
    else
      var q := PresentIndices(xs[..|xs| - 1]);
      if xs[|xs| - 1].Some? then q + [|xs| - 1] else q
  }
}
