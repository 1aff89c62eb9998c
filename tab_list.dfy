/** `tabs.find(t => t.id === id)` of both windows, on the list of ids. */
module TabList {

  /** The position of the first occurrence of `id`, or -1 when `id` does not occur. */
  function IndexOf(ids: seq<int>, id: int): (k: int)
    ensures -1 <= k < |ids|
    ensures k == -1 <==> id !in ids
    ensures 0 <= k ==> ids[k] == id && id !in ids[..k]
  {
    if ids == [] then -1
    else if ids[0] == id then 0
    else
      var k := IndexOf(ids[1..], id);
      if k == -1 then -1 else k + 1
  }

  /** The linear search `find` performs. */
  method FindIndex(ids: seq<int>, id: int) returns (k: int)
    ensures k == IndexOf(ids, id)
  {
    k := 0;
    while k < |ids|
      invariant 0 <= k <= |ids|
      invariant id !in ids[..k]
    {
      if ids[k] == id {
        return;
      }
      k := k + 1;
    }
    assert ids[..k] == ids;
    k := -1;
  }

  /** Ids that occur at most once. */
  predicate Distinct(ids: seq<int>) {
    forall i, j :: 0 <= i < j < |ids| ==> ids[i] != ids[j]
  }

  /** In a list of distinct ids the first occurrence is the only one. */
  lemma IndexOfDistinct(ids: seq<int>, id: int, k: nat)
    requires Distinct(ids) && k < |ids| && ids[k] == id
    ensures IndexOf(ids, id) == k
  {
    assert id !in ids[..k];
    assert ids[..k + 1][k] == id;
  }
}
