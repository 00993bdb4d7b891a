// What the verdict on a submission depends on: the multiset of ids its entries select.
module VerdictTheorems {
  import opened Wrappers
  import opened JsonValues
  import opened ClaimFormats
  import opened InputDescriptors
  import opened PresentationDefinitions
  import opened DecodedInputs
  import opened InputForests
  import opened DescriptorMaps
  import opened SelectionSpec
  import opened SubmissionRequirements
  import opened PresentationSubmissions

  // ---- Without submission requirements ----

  // Some accepted item of `d`, or one nested in it, carries this id.
  ghost predicate Supplies<T>(ctx: Context<T>, d: DescriptorMap, items: seq<Json>, id: string)
    decreases d
  {
    exists i :: 0 <= i < |items| && SuppliedBy(ctx, d, items[i], id)
  }

  ghost predicate SuppliedBy<T>(ctx: Context<T>, d: DescriptorMap, item: Json, id: string)
    decreases d, 0
  {
    && Acceptable(ctx, d, item)
    && (|| id == d.id
        || (d.pathNested.Some?
            && Supplies(ctx, Nested(d), ctx.ev.query(Nested(d).path, Decoded(ctx, d, item).value.1.value), id)))
  }

  lemma SuppliesSnoc<T>(ctx: Context<T>, d: DescriptorMap, items: seq<Json>, n: nat, id: string)
    requires |items| == n + 1
    ensures Supplies(ctx, d, items, id) <==> Supplies(ctx, d, items[..n], id) || SuppliedBy(ctx, d, items[n], id)
  {
    if i :| 0 <= i < |items| && SuppliedBy(ctx, d, items[i], id) {
      assert i < n ==> items[..n][i] == items[i];
    }
    if i :| 0 <= i < n && SuppliedBy(ctx, d, items[..n][i], id) {
      assert items[i] == items[..n][i];
    }
  }

  lemma {:induction false} IdsIffSupplied<T>(ctx: Context<T>, d: DescriptorMap, items: seq<Json>, id: string)
    ensures id in ForestIds(Accepted(ctx, d, items)) <==> Supplies(ctx, d, items, id)
    decreases d, |items|
  {
    if items != [] {
      var n := |items| - 1;
      IdsIffSupplied(ctx, d, items[..n], id);
      SuppliesSnoc(ctx, d, items, n, id);
      if Acceptable(ctx, d, items[n]) && d.pathNested.Some? {
        var json := Decoded(ctx, d, items[n]).value.1.value;
        IdsIffSupplied(ctx, Nested(d), ctx.ev.query(Nested(d).path, json), id);
      }
    }
  }

  lemma {:induction false} AllIdsIffSupplied<T>(ctx: Context<T>, ds: seq<DescriptorMap>, value: Json, id: string)
    ensures id in AllSelectedIds(ctx, ds, value) <==>
            exists d :: d in ds && Supplies(ctx, d, ctx.ev.query(d.path, value), id)
    decreases |ds|
  {
    if ds != [] {
      var n := |ds| - 1;
      AllIdsIffSupplied(ctx, ds[..n], value, id);
      IdsIffSupplied(ctx, ds[n], ctx.ev.query(ds[n].path, value), id);
      assert forall e :: e in ds <==> e in ds[..n] || e == ds[n];
    }
  }

  // Without submission requirements a submission is accepted exactly when every entry is
  // processed without error and every defined descriptor is supplied by some entry, by an
  // item that decodes, satisfies that descriptor's constraints and has its nesting.
  lemma AcceptedWithoutRequirements<T>(ctx: Context<T>, ds: seq<DescriptorMap>, value: Json)
    requires ctx.definition.submissionRequirements.None?
    ensures Accepts(ctx, ds, value) <==>
            && (forall d :: d in ds ==> Clean(ctx, d, value))
            && forall desc :: desc in ctx.definition.inputDescriptors ==>
                 exists d :: d in ds && Supplies(ctx, d, ctx.ev.query(d.path, value), desc.id)
  {
    forall desc | desc in ctx.definition.inputDescriptors
      ensures desc.id in AllSelectedIds(ctx, ds, value) <==>
              exists d :: d in ds && Supplies(ctx, d, ctx.ev.query(d.path, value), desc.id)
    {
      AllIdsIffSupplied(ctx, ds, value, desc.id);
    }
  }

  // ---- Order of the entries ----

  lemma {:induction false} CountInConcat(ids: set<string>, a: seq<string>, b: seq<string>)
    ensures CountIn(ids, a + b) == CountIn(ids, a) + CountIn(ids, b)
    decreases |b|
  {
    if b == [] {
      assert a + b == a;
    } else {
      var n := |b| - 1;
      assert (a + b)[..|a| + n] == a + b[..n];
      CountInConcat(ids, a, b[..n]);
    }
  }

  // Takes the k-th element out.
  function Without<A>(s: seq<A>, k: nat): seq<A>
    requires k < |s|
  {
    s[..k] + s[k + 1..]
  }

  lemma WithoutMultiset<A>(s: seq<A>, k: nat)
    requires k < |s|
    ensures multiset(s) == multiset(Without(s, k)) + multiset{s[k]}
  {
    assert s == s[..k] + [s[k]] + s[k + 1..];
  }

  // Equal multisets stay equal when an equal element is taken out of both lists.
  lemma WithoutBoth<A>(a: seq<A>, i: nat, b: seq<A>, k: nat)
    requires i < |a| && k < |b| && a[i] == b[k] && multiset(a) == multiset(b)
    ensures multiset(Without(a, i)) == multiset(Without(b, k))
  {
    WithoutMultiset(a, i);
    WithoutMultiset(b, k);
    var x, y := multiset(Without(a, i)), multiset(Without(b, k));
    assert x == (x + multiset{a[i]}) - multiset{a[i]};
    assert y == (y + multiset{b[k]}) - multiset{b[k]};
  }

  lemma CountInWithout(ids: set<string>, s: seq<string>, k: nat)
    requires k < |s|
    ensures CountIn(ids, s) == CountIn(ids, Without(s, k)) + CountIn(ids, [s[k]])
  {
    assert s == s[..k] + ([s[k]] + s[k + 1..]);
    CountInConcat(ids, s[..k], [s[k]] + s[k + 1..]);
    CountInConcat(ids, [s[k]], s[k + 1..]);
    CountInConcat(ids, s[..k], s[k + 1..]);
  }

  lemma {:induction false} CountInPermuted(ids: set<string>, a: seq<string>, b: seq<string>)
    requires multiset(a) == multiset(b)
    ensures CountIn(ids, a) == CountIn(ids, b)
    decreases |a|
  {
    if a == [] {
      assert |multiset(b)| == 0;
    } else {
      assert a[0] in multiset(b);
      var k :| 0 <= k < |b| && b[k] == a[0];
      WithoutBoth(a, 0, b, k);
      CountInPermuted(ids, Without(a, 0), Without(b, k));
      CountInWithout(ids, a, 0);
      CountInWithout(ids, b, k);
    }
  }

  lemma {:induction false} SelectedConcat<T>(ctx: Context<T>, a: seq<DescriptorMap>, b: seq<DescriptorMap>, value: Json)
    ensures AllSelectedIds(ctx, a + b, value) == AllSelectedIds(ctx, a, value) + AllSelectedIds(ctx, b, value)
    decreases |b|
  {
    if b == [] {
      assert a + b == a;
    } else {
      var n := |b| - 1;
      assert (a + b)[..|a| + n] == a + b[..n] && (a + b)[|a| + n] == b[n];
      SelectedConcat(ctx, a, b[..n], value);
      ConcatAssociates(AllSelectedIds(ctx, a, value), AllSelectedIds(ctx, b[..n], value), SelectedIds(ctx, b[n], value));
    }
  }

  lemma SelectedOne<T>(ctx: Context<T>, d: DescriptorMap, value: Json)
    ensures AllSelectedIds(ctx, [d], value) == SelectedIds(ctx, d, value)
  {
    assert [d][..0] == [];
  }

  lemma SelectedWithout<T>(ctx: Context<T>, ds: seq<DescriptorMap>, k: nat, value: Json)
    requires k < |ds|
    ensures multiset(AllSelectedIds(ctx, ds, value)) ==
            multiset(AllSelectedIds(ctx, Without(ds, k), value)) + multiset(SelectedIds(ctx, ds[k], value))
  {
    var before, after := ds[..k], ds[k + 1..];
    assert ds == before + ([ds[k]] + after);
    SelectedConcat(ctx, before, [ds[k]] + after, value);
    SelectedConcat(ctx, [ds[k]], after, value);
    SelectedConcat(ctx, before, after, value);
    SelectedOne(ctx, ds[k], value);
  }

  lemma {:induction false} SelectedPermuted<T>(ctx: Context<T>, a: seq<DescriptorMap>, b: seq<DescriptorMap>, value: Json)
    requires multiset(a) == multiset(b)
    ensures multiset(AllSelectedIds(ctx, a, value)) == multiset(AllSelectedIds(ctx, b, value))
    decreases |a|
  {
    if a == [] {
      assert |multiset(b)| == 0;
    } else {
      assert a[0] in multiset(b);
      var k :| 0 <= k < |b| && b[k] == a[0];
      WithoutBoth(a, 0, b, k);
      SelectedPermuted(ctx, Without(a, 0), Without(b, k), value);
      SelectedWithout(ctx, a, 0, value);
      SelectedWithout(ctx, b, k, value);
    }
  }

  lemma SameMembers<A>(a: seq<A>, b: seq<A>)
    requires multiset(a) == multiset(b)
    ensures forall x :: x in a <==> x in b
  {
    assert forall x :: x in a <==> x in multiset(a);
    assert forall x :: x in b <==> x in multiset(b);
  }

  lemma DefinitionHoldsPermuted(definition: PresentationDefinition, a: seq<string>, b: seq<string>)
    requires multiset(a) == multiset(b)
    ensures DefinitionHolds(definition, a) <==> DefinitionHolds(definition, b)
  {
    SameMembers(a, b);
    forall leaf: Leaf
      ensures LeafHolds(leaf, definition, a) <==> LeafHolds(leaf, definition, b)
    {
      CountInPermuted(GroupIds(definition, leaf.group), a, b);
    }
  }

  // Reordering the descriptor map never changes whether the submission is accepted.
  lemma VerdictIgnoresOrder<T>(ctx: Context<T>, a: seq<DescriptorMap>, b: seq<DescriptorMap>, value: Json)
    requires multiset(a) == multiset(b)
    ensures Accepts(ctx, a, value) <==> Accepts(ctx, b, value)
  {
    SameMembers(a, b);
    SelectedPermuted(ctx, a, b, value);
    DefinitionHoldsPermuted(ctx.definition, AllSelectedIds(ctx, a, value), AllSelectedIds(ctx, b, value));
  }

  // ---- More entries ----

  // The upper bounds of a leaf still hold when `more` inputs are added to an accepted list.
  ghost predicate HasRoom(leaf: Leaf, definition: PresentationDefinition, names: seq<string>, more: seq<string>) {
    leaf.pick.Some? ==>
      var added := CountIn(GroupIds(definition, leaf.group), more);
      var found := CountIn(GroupIds(definition, leaf.group), names);
      && (leaf.pick.value.max.Some? ==> found + added <= leaf.pick.value.max.value)
      && (leaf.pick.value.count.Some? ==> added == 0)
  }

  ghost predicate AllHaveRoom(definition: PresentationDefinition, names: seq<string>, more: seq<string>) {
    definition.submissionRequirements.Some? ==>
      forall leaf :: leaf in LeavesOf(definition.submissionRequirements.value) ==> HasRoom(leaf, definition, names, more)
  }

  lemma LeafAfterMore(leaf: Leaf, definition: PresentationDefinition, names: seq<string>, more: seq<string>)
    requires LeafHolds(leaf, definition, names)
    ensures LeafHolds(leaf, definition, names + more) <==> HasRoom(leaf, definition, names, more)
  {
    CountInConcat(GroupIds(definition, leaf.group), names, more);
  }

  // An accepted submission stays accepted when entries that process without error are
  // appended exactly when they leave every `max` kept and add nothing to a group with a `count`.
  lemma AppendingEntries<T>(ctx: Context<T>, ds: seq<DescriptorMap>, extra: seq<DescriptorMap>, value: Json)
    requires Accepts(ctx, ds, value) && AllEntriesClean(ctx, extra, value)
    ensures Accepts(ctx, ds + extra, value) <==>
            AllHaveRoom(ctx.definition, AllSelectedIds(ctx, ds, value), AllSelectedIds(ctx, extra, value))
  {
    var names, more := AllSelectedIds(ctx, ds, value), AllSelectedIds(ctx, extra, value);
    SelectedConcat(ctx, ds, extra, value);
    if ctx.definition.submissionRequirements.Some? {
      forall leaf | leaf in LeavesOf(ctx.definition.submissionRequirements.value)
        ensures LeafHolds(leaf, ctx.definition, names + more) <==> HasRoom(leaf, ctx.definition, names, more)
      {
        LeafAfterMore(leaf, ctx.definition, names, more);
      }
    }
  }

  ghost predicate NoUpperBounds(definition: PresentationDefinition) {
    definition.submissionRequirements.Some? ==>
      forall leaf :: leaf in LeavesOf(definition.submissionRequirements.value) && leaf.pick.Some? ==>
        leaf.pick.value.max.None? && leaf.pick.value.count.None?
  }

  // So, without `max` and `count`, appending never turns acceptance into rejection.
  lemma AppendingIsMonotone<T>(ctx: Context<T>, ds: seq<DescriptorMap>, extra: seq<DescriptorMap>, value: Json)
    requires NoUpperBounds(ctx.definition)
    requires Accepts(ctx, ds, value) && AllEntriesClean(ctx, extra, value)
    ensures Accepts(ctx, ds + extra, value)
  {
    AppendingEntries(ctx, ds, extra, value);
  }

  // A library and a decoder under which every value is its own single candidate.
  function PlainContext(definition: PresentationDefinition): Context<()> {
    ContextOf(definition, Evaluator((path, value) => [value], (schema, value) => true),
              (item, format, constraint) => Ok(((), Some(item))))
  }

  // One descriptor `a` in a group from which at most one input may be picked.
  function AtMostOne(): PresentationDefinition {
    PresentationDefinition(
      "at-most-one", [InputDescriptor("a", Constraints([]), map[], ["g"])],
      Some([Pick(SubmissionRequirementPick(From("g"), None, None, Some(1)))]), map[])
  }

  lemma AtMostOneLeaves()
    ensures LeavesOf(AtMostOne().submissionRequirements.value) ==
            [Leaf("g", Some(SubmissionRequirementPick(From("g"), None, None, Some(1))))]
    ensures GroupIds(AtMostOne(), "g") == {"a"}
  {
    var rs := AtMostOne().submissionRequirements.value;
    assert rs[..0] == [] && LeavesOf(rs[..0]) == [];
    var descriptor := AtMostOne().inputDescriptors[0];
    assert descriptor in AtMostOne().inputDescriptors && "g" in descriptor.groups;
  }

  // Under the plain context the entry selects the value itself, once.
  lemma PlainEntrySelectsOne(value: Json)
    ensures var d := DescriptorMap("a", Jwt, "$", None);
            Clean(PlainContext(AtMostOne()), d, value) && SelectedIds(PlainContext(AtMostOne()), d, value) == ["a"]
  {
    var d, ctx := DescriptorMap("a", Jwt, "$", None), PlainContext(AtMostOne());
    assert AtMostOne().inputDescriptors[..0] == [];
    assert ctx.descriptors == map["a" := AtMostOne().inputDescriptors[0]];
    assert ctx.ev.query("$", value) == [value];
    assert Acceptable(ctx, d, value) && ItemClean(ctx, d, value);
    assert [value][..0] == [];
    assert Accepted(ctx, d, [value]) == Snoc(Empty, TreeOf(ctx, d, value));
  }

  // With a `max` acceptance can be lost: the same entry given twice is rejected where the
  // single entry is accepted, though neither fails.
  lemma AppendingCanReject(value: Json)
    ensures var d := DescriptorMap("a", Jwt, "$", None);
            var ctx := PlainContext(AtMostOne());
            && AllEntriesClean(ctx, [d], value)
            && Accepts(ctx, [d], value)
            && !Accepts(ctx, [d] + [d], value)
  {
    var d, ctx := DescriptorMap("a", Jwt, "$", None), PlainContext(AtMostOne());
    var leaf := Leaf("g", Some(SubmissionRequirementPick(From("g"), None, None, Some(1))));
    PlainEntrySelectsOne(value);
    SelectedOne(ctx, d, value);
    AtMostOneLeaves();
    assert ["a"][..0] == [];
    assert CountIn({"a"}, ["a"]) == 1;
    assert LeafHolds(leaf, AtMostOne(), ["a"]) && !HasRoom(leaf, AtMostOne(), ["a"], ["a"]);
    assert leaf in LeavesOf(AtMostOne().submissionRequirements.value);
    AppendingEntries(ctx, [d], [d], value);
  }

  // ---- What a pick counts ----

  ghost function Bucket(index: map<string, seq<nat>>, id: string): seq<nat> {
    if id in index then index[id] else []
  }

  // The bucket lengths of distinct ids, added up.
  ghost function BucketTotal(index: map<string, seq<nat>>, ids: set<string>): nat
    decreases |ids|
  {
    if ids == {} then 0
    else
      var id :| id in ids;
      |Bucket(index, id)| + BucketTotal(index, ids - {id})
  }

  lemma {:induction false} CountInSplit(ids: set<string>, id: string, names: seq<string>)
    requires id in ids
    ensures CountIn(ids, names) == CountIn({id}, names) + CountIn(ids - {id}, names)
    decreases |names|
  {
    if names != [] {
      CountInSplit(ids, id, names[..|names| - 1]);
    }
  }

  lemma {:induction false} CountOfOne(id: string, names: seq<string>, indices: seq<nat>)
    requires |names| == |indices|
    ensures CountIn({id}, names) == |IndicesOf(names, indices, id)|
    decreases |names|
  {
    if names != [] {
      var n := |names| - 1;
      CountOfOne(id, names[..n], indices[..n]);
    }
  }

  lemma CountIsBucket<T>(inputs: seq<DecodedInput<T>>, id: string)
    ensures CountIn({id}, IdsOf(inputs)) == |Bucket(InverseIndex(inputs), id)|
    ensures |Bucket(InverseIndex(inputs), id)| > 0 <==> id in IdsOf(inputs)
  {
    CountOfOne(id, IdsOf(inputs), Positions(|inputs|));
    if id in IdsOf(inputs) {
      BucketScan(inputs, id);
    } else {
      IndicesOfAbsent(IdsOf(inputs), Positions(|inputs|), id);
    }
  }

  // The ids of `ids` that some input carries.
  ghost function Submitted<T>(inputs: seq<DecodedInput<T>>, ids: set<string>): set<string> {
    set id | id in ids && id in IdsOf(inputs)
  }

  // A pick counts inputs, not descriptors: its count is the bucket lengths of the group's
  // ids added up. That is at least the number of distinct descriptors submitted, and equals
  // it exactly when no descriptor of the group has two inputs.
  lemma {:induction false} PickCountsInputs<T>(inputs: seq<DecodedInput<T>>, ids: set<string>)
    ensures CountIn(ids, IdsOf(inputs)) == BucketTotal(InverseIndex(inputs), ids)
    ensures CountIn(ids, IdsOf(inputs)) >= |Submitted(inputs, ids)|
    ensures CountIn(ids, IdsOf(inputs)) == |Submitted(inputs, ids)| <==>
            forall id :: id in ids ==> |Bucket(InverseIndex(inputs), id)| <= 1
    decreases |ids|
  {
    var names, index := IdsOf(inputs), InverseIndex(inputs);
    if ids == {} {
      NoneCounted(names);
    } else {
      var id :| id in ids && BucketTotal(index, ids) == |Bucket(index, id)| + BucketTotal(index, ids - {id});
      PickCountsInputs(inputs, ids - {id});
      CountInSplit(ids, id, names);
      CountIsBucket(inputs, id);
      assert Submitted(inputs, ids) ==
             Submitted(inputs, ids - {id}) + (if id in names then {id} else {});
    }
  }

  lemma {:induction false} NoneCounted(names: seq<string>)
    ensures CountIn({}, names) == 0
    decreases |names|
  {
    if names != [] {
      NoneCounted(names[..|names| - 1]);
    }
  }
}
