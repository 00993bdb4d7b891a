// The list of decoded inputs (an arena linked by indices) and the forest it stands for
// (src/core/presentation_submission.rs, `DecodedInput`, `group_by_input_descriptor`).
module DecodedInputs {
  import opened ClaimFormats

  datatype DecodedInput<T> = DecodedInput(
    descriptorId: string,
    format: ClaimFormatDesignation,
    value: T,
    nested: map<string, seq<nat>>)

  // The vector of inputs that a traversal is handed and appends to.
  class InputList<T> {
    var items: seq<DecodedInput<T>>

    constructor ()
      ensures items == []
    {
      items := [];
    }

    method Push(input: DecodedInput<T>)
      modifies this
      ensures items == old(items) + [input]
    {
      items := items + [input];
    }
  }

  // ---- Grouping indices by descriptor id ----

  // The indices paired with `id`, in order.
  function IndicesOf(ids: seq<string>, indices: seq<nat>, id: string): seq<nat>
    requires |ids| == |indices|
  {
    if ids == [] then []
    else
      var n := |ids| - 1;
      IndicesOf(ids[..n], indices[..n], id) + (if ids[n] == id then [indices[n]] else [])
  }

  function Grouped(ids: seq<string>, indices: seq<nat>): map<string, seq<nat>>
    requires |ids| == |indices|
  {
    map id | id in ids :: IndicesOf(ids, indices, id)
  }

  function IdsOf<T>(inputs: seq<DecodedInput<T>>): seq<string> {
    seq(|inputs|, i requires 0 <= i < |inputs| => inputs[i].descriptorId)
  }

  function IdsAt<T>(inputs: seq<DecodedInput<T>>, indices: seq<nat>): seq<string>
    requires forall k :: 0 <= k < |indices| ==> indices[k] < |inputs|
  {
    seq(|indices|, k requires 0 <= k < |indices| => inputs[indices[k]].descriptorId)
  }

  // `map.entry(id).or_default().push(index)`.
  function EntryPush(m: map<string, seq<nat>>, id: string, index: nat): map<string, seq<nat>> {
    m[id := (if id in m then m[id] else []) + [index]]
  }

  lemma GroupedStep(ids: seq<string>, indices: seq<nat>, id: string, index: nat)
    requires |ids| == |indices|
    ensures Grouped(ids + [id], indices + [index]) == EntryPush(Grouped(ids, indices), id, index)
  {
    var ids', indices' := ids + [id], indices + [index];
    assert ids'[..|ids|] == ids && indices'[..|ids|] == indices;
    if id !in ids {
      IndicesOfAbsent(ids, indices, id);
    }
    var expected := EntryPush(Grouped(ids, indices), id, index);
    assert forall x :: x in ids' <==> x in ids || x == id;
    forall x | x in ids'
      ensures Grouped(ids', indices')[x] == expected[x]
    {
      assert IndicesOf(ids', indices', x) == IndicesOf(ids, indices, x) + (if id == x then [index] else []);
    }
  }

  lemma {:induction false} IndicesOfAbsent(ids: seq<string>, indices: seq<nat>, id: string)
    requires |ids| == |indices| && id !in ids
    ensures IndicesOf(ids, indices, id) == []
  {
    if ids != [] {
      IndicesOfAbsent(ids[..|ids| - 1], indices[..|ids| - 1], id);
    }
  }

  method GroupByInputDescriptor<T>(claims: seq<DecodedInput<T>>, indexes: seq<nat>) returns (groups: map<string, seq<nat>>)
    requires forall k :: 0 <= k < |indexes| ==> indexes[k] < |claims|
    ensures groups == Grouped(IdsAt(claims, indexes), indexes)
  {
    groups := map[];
    for k := 0 to |indexes|
      invariant groups == Grouped(IdsAt(claims, indexes[..k]), indexes[..k])
    {
      var id := claims[indexes[k]].descriptorId;
      assert indexes[..k + 1] == indexes[..k] + [indexes[k]];
      assert IdsAt(claims, indexes[..k + 1]) == IdsAt(claims, indexes[..k]) + [id];
      GroupedStep(IdsAt(claims, indexes[..k]), indexes[..k], id, indexes[k]);
      groups := EntryPush(groups, id, indexes[k]);
    }
    assert indexes[..|indexes|] == indexes;
  }

  ghost predicate Increasing(s: seq<nat>) {
    forall i, j :: 0 <= i < j < |s| ==> s[i] < s[j]
  }

  ghost predicate Paired(ids: seq<string>, indices: seq<nat>, id: string, x: nat)
    requires |ids| == |indices|
  {
    exists k :: 0 <= k < |ids| && indices[k] == x && ids[k] == id
  }

  lemma PairedSnoc(ids: seq<string>, indices: seq<nat>, n: nat, id: string, x: nat)
    requires |ids| == |indices| == n + 1
    ensures Paired(ids, indices, id, x) <==>
            Paired(ids[..n], indices[..n], id, x) || (indices[n] == x && ids[n] == id)
  {
    if k :| 0 <= k < n && indices[..n][k] == x && ids[..n][k] == id {
      assert indices[k] == x && ids[k] == id;
    }
    if k :| 0 <= k < n && indices[k] == x && ids[k] == id {
      assert indices[..n][k] == x && ids[..n][k] == id;
    }
  }

  // A bucket lists, in increasing order, exactly the indices that carry its id.
  lemma {:induction false} IndicesOfMeaning(ids: seq<string>, indices: seq<nat>, id: string)
    requires |ids| == |indices| && Increasing(indices)
    ensures Increasing(IndicesOf(ids, indices, id))
    ensures forall x :: x in IndicesOf(ids, indices, id) <==> Paired(ids, indices, id, x)
    decreases |ids|
  {
    if ids != [] {
      var n := |ids| - 1;
      var bucket := IndicesOf(ids[..n], indices[..n], id);
      IndicesOfMeaning(ids[..n], indices[..n], id);
      forall i | 0 <= i < |bucket|
        ensures bucket[i] < indices[n]
      {
        assert Paired(ids[..n], indices[..n], id, bucket[i]);
      }
      forall x: nat
        ensures x in IndicesOf(ids, indices, id) <==> Paired(ids, indices, id, x)
      {
        PairedSnoc(ids, indices, n, id, x);
      }
    }
  }
}
