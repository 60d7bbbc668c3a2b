/** The one query both collections answer: the ids of the documents that match a filter, in ascending id
    order (`find(filter).sort({ _id: 1 })`, or insertion order, since ids come from a counter). */
module Store {

  /** The ids below `n` whose document in `m` satisfies `keep`, ascending. */
  function Select<T>(m: map<nat, T>, n: nat, keep: T -> bool): (ids: seq<nat>)
    ensures forall i :: 0 <= i < |ids| ==> ids[i] < n && ids[i] in m && keep(m[ids[i]])
    ensures forall id :: id in ids ==> id < n && id in m && keep(m[id])
    ensures forall i, j :: 0 <= i < j < |ids| ==> ids[i] < ids[j]
    ensures forall id :: id in m && id < n && keep(m[id]) ==> id in ids
  {
    if n == 0 then []
    else
      var prefix := Select(m, n - 1, keep);
      if n - 1 in m && keep(m[n - 1]) then prefix + [n - 1] else prefix
  }
}
