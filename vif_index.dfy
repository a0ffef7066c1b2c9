// The mapping between an interface's position index (vif->idx, from 0) and
// the index the firmware uses for it (from 1; 0 is reserved by the device).
module VifIndex {
  import opened Bytes

  /** WILC_NUM_CONCURRENT_IFC: the number of interfaces the device runs at once. */
  const NumConcurrentIfc: int := 2

  /** wilc_get_vif_idx: the firmware's index for an interface. */
  function GetVifIdx(idx: int): (fw: int)
    ensures fw - 1 == idx
    ensures 0 <= idx < NumConcurrentIfc ==> 1 <= fw <= NumConcurrentIfc
  {
    idx + 1
  }

  /** The position of the first interface in `idxs` whose vif->idx is `index`. */
  function FirstWithIdx(idxs: seq<int>, index: int): (r: Option<nat>)
    ensures r.Some? ==>
      (r.value < |idxs| && idxs[r.value] == index && forall j :: 0 <= j < r.value ==> idxs[j] != index)
    ensures r.None? ==> forall j :: 0 <= j < |idxs| ==> idxs[j] != index
    decreases |idxs|
  {
    if idxs == [] then None
    else if idxs[0] == index then Some(0)
    else match FirstWithIdx(idxs[1..], index)
      case None => None
      case Some(p) => Some(p + 1)
  }

  /**
   * wilc_get_vif_from_idx over the interface list, given as the vif->idx of
   * each entry: a firmware index outside 1..WILC_NUM_CONCURRENT_IFC names no
   * interface; otherwise the first entry whose vif->idx is one less.
   */
  function VifFromIdx(idxs: seq<int>, id: int): Option<nat>
  {
    if id - 1 < 0 || id - 1 >= NumConcurrentIfc then None else FirstWithIdx(idxs, id - 1)
  }

  /** The list walk of wilc_get_vif_from_idx. */
  method GetVifFromIdx(idxs: seq<int>, id: int) returns (r: Option<nat>)
    ensures r == VifFromIdx(idxs, id)
    ensures r.Some? ==> 1 <= id <= NumConcurrentIfc && r.value < |idxs| && idxs[r.value] == id - 1
    ensures (id < 1 || id > NumConcurrentIfc) ==> r.None?
  {
    var index := id - 1;
    if index < 0 || index >= NumConcurrentIfc {
      return None;
    }
    var i := 0;
    while i < |idxs|
      invariant 0 <= i <= |idxs|
      invariant forall j :: 0 <= j < i ==> idxs[j] != index
    {
      if idxs[i] == index {
        FirstWithIdxUnique(idxs, index, i);
        return Some(i);
      }
      i := i + 1;
    }
    return None;
  }

  /** The first match is the only candidate the walk can stop at. */
  lemma FirstWithIdxUnique(idxs: seq<int>, index: int, p: nat)
    requires p < |idxs| && idxs[p] == index
    requires forall j :: 0 <= j < p ==> idxs[j] != index
    ensures FirstWithIdx(idxs, index) == Some(p)
  {
    var r := FirstWithIdx(idxs, index);
    assert r.Some?;
    if r.value < p {
    } else if r.value > p {
    }
  }

  /** Interface indices are distinct and in 0..WILC_NUM_CONCURRENT_IFC-1. */
  predicate WellIndexed(idxs: seq<int>)
  {
    (forall i :: 0 <= i < |idxs| ==> 0 <= idxs[i] < NumConcurrentIfc)
    && (forall i, j :: 0 <= i < j < |idxs| ==> idxs[i] != idxs[j])
  }

  /**
   * Round trip: the firmware index of any interface of a well-indexed list
   * leads back to that interface, and the reserved index 0 leads nowhere.
   */
  lemma VifIdxRoundTrip(idxs: seq<int>, p: nat)
    requires WellIndexed(idxs) && p < |idxs|
    ensures VifFromIdx(idxs, GetVifIdx(idxs[p])) == Some(p)
    ensures VifFromIdx(idxs, 0) == None
  {
    FirstWithIdxUnique(idxs, idxs[p], p);
  }
}
