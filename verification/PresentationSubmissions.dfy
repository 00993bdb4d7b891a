// Presentation submissions: finding and validating all inputs
// (src/core/presentation_submission.rs, `PresentationSubmission`).
module PresentationSubmissions {
  import opened Wrappers
  import opened JsonValues
  import opened InputDescriptors
  import opened PresentationDefinitions
  import opened DecodedInputs
  import opened InputForests
  import opened DescriptorMaps
  import opened SelectionSpec
  import opened SubmissionRequirements

  datatype PresentationSubmission = PresentationSubmission(
    id: string,
    definitionId: string,
    descriptorMap: seq<DescriptorMap>)

  // The entries of a submission, processed one after another into the same list.
  function TraverseAll<T>(ctx: Context<T>, ds: seq<DescriptorMap>, value: Json): Yield<T> {
    if ds == [] then Yield(Empty, None)
    else
      var n := |ds| - 1;
      var before := TraverseAll(ctx, ds[..n], value);
      if before.error.Some? then before
      else
        var one := Traverse(ctx, ds[n], value);
        Yield(Concat(before.forest, one.forest), one.error)
  }

  function Positions(n: nat): (r: seq<nat>)
    ensures |r| == n
  {
    seq(n, i => i)
  }

  // The inverse index: for each descriptor id, the positions of the inputs that carry it.
  function InverseIndex<T>(inputs: seq<DecodedInput<T>>): map<string, seq<nat>> {
    Grouped(IdsOf(inputs), Positions(|inputs|))
  }

  function ContextOf<T>(definition: PresentationDefinition, ev: Evaluator, decoder: ClaimsDecoder<T>): Context<T> {
    Context(ev, decoder, definition, InputDescriptorsMap(definition))
  }

  method FindInputsOf<T>(submission: PresentationSubmission, definition: PresentationDefinition, value: Json,
                         ev: Evaluator, decoder: ClaimsDecoder<T>)
    returns (r: Result<MatchingInputs<T>, SubmissionError>)
    ensures var y := TraverseAll(ContextOf(definition, ev, decoder), submission.descriptorMap, value);
            var inputs := Flatten(0, y.forest);
            r == if y.error.Some? then Err(y.error.value) else Ok(MatchingInputs(inputs, InverseIndex(inputs)))
  {
    ghost var ctx := ContextOf(definition, ev, decoder);
    var ds := submission.descriptorMap;
    var inputs := new InputList<T>();
    for i := 0 to |ds|
      invariant fresh(inputs)
      invariant EntriesHandled(ctx, ds[..i], value, inputs.items)
    {
      ghost var before := inputs.items;
      var found := FindInputs(ds[i], definition, value, ev, decoder, inputs);
      EntriesGrow(ctx, ds, value, i, before, inputs.items, found);
      if found.Err? {
        return Err(found.error);
      }
    }
    assert ds[..|ds|] == ds;
    var byDescriptor := IndexInputs(inputs.items);
    return Ok(MatchingInputs(inputs.items, byDescriptor));
  }

  // The loop that fills the inverse index.
  method IndexInputs<T>(inputs: seq<DecodedInput<T>>) returns (byDescriptor: map<string, seq<nat>>)
    ensures byDescriptor == InverseIndex(inputs)
  {
    byDescriptor := map[];
    for i := 0 to |inputs|
      invariant byDescriptor == Grouped(IdsOf(inputs[..i]), Positions(i))
    {
      GroupedStep(IdsOf(inputs[..i]), Positions(i), inputs[i].descriptorId, i);
      assert IdsOf(inputs[..i + 1]) == IdsOf(inputs[..i]) + [inputs[i].descriptorId];
      assert Positions(i + 1) == Positions(i) + [i];
      byDescriptor := EntryPush(byDescriptor, inputs[i].descriptorId, i);
    }
    assert inputs[..|inputs|] == inputs;
  }

  ghost predicate EntriesHandled<T>(ctx: Context<T>, ds: seq<DescriptorMap>, value: Json, items: seq<DecodedInput<T>>) {
    var y := TraverseAll(ctx, ds, value);
    y.error == None && items == Flatten(0, y.forest)
  }

  lemma EntriesGrow<T>(ctx: Context<T>, ds: seq<DescriptorMap>, value: Json, i: nat,
                       before: seq<DecodedInput<T>>, now: seq<DecodedInput<T>>, found: Result<seq<nat>, SubmissionError>)
    requires i < |ds| && EntriesHandled(ctx, ds[..i], value, before)
    requires var y := Traverse(ctx, ds[i], value);
             Appended(before, now, y.forest) && found == Outcome(|before|, y)
    ensures found.Ok? ==> EntriesHandled(ctx, ds[..i + 1], value, now)
    ensures found.Err? ==> TraverseAll(ctx, ds, value).error == Some(found.error)
  {
    assert ds[..i + 1][..i] == ds[..i];
    LayoutConcat(0, TraverseAll(ctx, ds[..i], value).forest, |before|, Traverse(ctx, ds[i], value).forest);
    if found.Err? {
      ErrorEndsAll(ctx, ds, value, i + 1);
    }
  }

  lemma {:induction false} ErrorEndsAll<T>(ctx: Context<T>, ds: seq<DescriptorMap>, value: Json, i: nat)
    requires i <= |ds| && TraverseAll(ctx, ds[..i], value).error.Some?
    ensures TraverseAll(ctx, ds, value) == TraverseAll(ctx, ds[..i], value)
    decreases |ds|
  {
    if i == |ds| {
      assert ds[..i] == ds;
    } else {
      assert ds[..|ds| - 1][..i] == ds[..i];
      ErrorEndsAll(ctx, ds[..|ds| - 1], value, i);
    }
  }

  // Without an error in processing, acceptance is the definition's verdict on the inputs.
  method FindAndValidateInputs<T>(submission: PresentationSubmission, definition: PresentationDefinition, value: Json,
                                  ev: Evaluator, decoder: ClaimsDecoder<T>)
    returns (r: Result<MatchingInputs<T>, SubmissionError>)
    ensures var ctx := ContextOf(definition, ev, decoder);
            r.Ok? <==> Accepts(ctx, submission.descriptorMap, value)
    ensures var y := TraverseAll(ContextOf(definition, ev, decoder), submission.descriptorMap, value);
            var inputs := Flatten(0, y.forest);
            var matching := MatchingInputs(inputs, InverseIndex(inputs));
            && (y.error.Some? ==> r == Err(y.error.value))
            && (y.error.None? && r.Ok? ==> r.value == matching && DefinitionSatisfied(definition, matching))
            && (y.error.None? && r.Err? ==> r.error.Validation? && !DefinitionSatisfied(definition, matching))
  {
    ghost var ctx := ContextOf(definition, ev, decoder);
    ghost var y := TraverseAll(ctx, submission.descriptorMap, value);
    r := FindInputsOf(submission, definition, value, ev, decoder);
    AllMeetSpec(ctx, submission.descriptorMap, value);
    if r.Err? {
      return;
    }
    VerdictByNames(definition, Flatten(0, y.forest));
    IdsOfFlatten(0, y.forest);
    var verdict := ValidateMatching(r.value, definition);
    if verdict.Err? {
      r := Err(Validation(verdict.error));
    }
  }

  // ---- The verdict, by the ids of the inputs selected ----

  // The ids of all inputs of a forest, in list order.
  ghost function ForestIds<T>(f: Forest<T>): seq<string> {
    match f
    case Empty => []
    case Snoc(init, last) => ForestIds(init) + (ForestIds(last.children) + [last.id])
  }

  // The ids of the inputs an entry selects.
  ghost function SelectedIds<T>(ctx: Context<T>, d: DescriptorMap, value: Json): seq<string> {
    ForestIds(Accepted(ctx, d, ctx.ev.query(d.path, value)))
  }

  ghost function AllSelectedIds<T>(ctx: Context<T>, ds: seq<DescriptorMap>, value: Json): seq<string> {
    if ds == [] then []
    else
      var n := |ds| - 1;
      AllSelectedIds(ctx, ds[..n], value) + SelectedIds(ctx, ds[n], value)
  }

  ghost predicate LeafHolds(leaf: Leaf, definition: PresentationDefinition, names: seq<string>) {
    var ids := GroupIds(definition, leaf.group);
    match leaf.pick
    case None => forall id :: id in ids ==> id in names
    case Some(p) => WithinPick(p, CountIn(ids, names))
  }

  ghost predicate DefinitionHolds(definition: PresentationDefinition, names: seq<string>) {
    match definition.submissionRequirements
    case Some(requirements) => forall leaf :: leaf in LeavesOf(requirements) ==> LeafHolds(leaf, definition, names)
    case None => forall d :: d in definition.inputDescriptors ==> d.id in names
  }

  ghost predicate AllEntriesClean<T>(ctx: Context<T>, ds: seq<DescriptorMap>, value: Json) {
    forall d :: d in ds ==> Clean(ctx, d, value)
  }

  // A submission is accepted: every entry is processed without error, and the inputs
  // selected meet the definition.
  ghost predicate Accepts<T>(ctx: Context<T>, ds: seq<DescriptorMap>, value: Json) {
    AllEntriesClean(ctx, ds, value) && DefinitionHolds(ctx.definition, AllSelectedIds(ctx, ds, value))
  }

  lemma {:induction false} ForestIdsConcat<T>(a: Forest<T>, b: Forest<T>)
    ensures ForestIds(Concat(a, b)) == ForestIds(a) + ForestIds(b)
  {
    if b.Snoc? {
      ForestIdsConcat(a, b.init);
      ConcatAssociates(ForestIds(a), ForestIds(b.init), ForestIds(b.last.children) + [b.last.id]);
    }
  }

  lemma {:induction false} IdsOfFlatten<T>(base: nat, f: Forest<T>)
    ensures IdsOf(Flatten(base, f)) == ForestIds(f)
    decreases f
  {
    if f.Snoc? {
      var mid, t := base + Size(f.init), f.last;
      IdsOfFlatten(base, f.init);
      IdsOfFlatten(mid, t.children);
      IdsOfConcat(Flatten(mid, t.children), [Entry(mid, t)]);
      IdsOfConcat(Flatten(base, f.init), FlattenTree(mid, t));
      assert IdsOf([Entry(mid, t)]) == [t.id];
    }
  }

  lemma IdsOfConcat<T>(a: seq<DecodedInput<T>>, b: seq<DecodedInput<T>>)
    ensures IdsOf(a + b) == IdsOf(a) + IdsOf(b)
  {
  }

  lemma {:induction false} AllMeetSpec<T>(ctx: Context<T>, ds: seq<DescriptorMap>, value: Json)
    ensures TraverseAll(ctx, ds, value).error.None? <==> AllEntriesClean(ctx, ds, value)
    ensures AllEntriesClean(ctx, ds, value) ==>
              ForestIds(TraverseAll(ctx, ds, value).forest) == AllSelectedIds(ctx, ds, value)
    decreases |ds|
  {
    if ds != [] {
      var n := |ds| - 1;
      AllMeetSpec(ctx, ds[..n], value);
      TraversalMeetsSpec(ctx, ds[n], value);
      ForestIdsConcat(TraverseAll(ctx, ds[..n], value).forest, Traverse(ctx, ds[n], value).forest);
      assert forall d :: d in ds <==> d in ds[..n] || d == ds[n];
    }
  }

  // ---- The inverse index agrees with a linear scan ----

  ghost predicate IsBucket<T>(inputs: seq<DecodedInput<T>>, id: string, bucket: seq<nat>) {
    && bucket != []
    && Increasing(bucket)
    && forall x: nat :: x in bucket <==> x < |inputs| && inputs[x].descriptorId == id
  }

  // The keys are the ids that occur, and each bucket is the non-empty, strictly increasing
  // list of exactly the positions with its id; so every position is in one bucket only.
  lemma IndexIsLinearScan<T>(inputs: seq<DecodedInput<T>>)
    ensures forall id :: id in InverseIndex(inputs) <==> exists i :: 0 <= i < |inputs| && inputs[i].descriptorId == id
    ensures forall id :: id in InverseIndex(inputs) ==> IsBucket(inputs, id, InverseIndex(inputs)[id])
    ensures forall id :: id in InverseIndex(inputs) <==> id in IdsOf(inputs)
  {
    var ids, index := IdsOf(inputs), InverseIndex(inputs);
    forall id
      ensures id in index <==> exists i :: 0 <= i < |inputs| && inputs[i].descriptorId == id
    {
      if i :| 0 <= i < |inputs| && inputs[i].descriptorId == id {
        assert ids[i] == id;
      }
    }
    forall id | id in index
      ensures IsBucket(inputs, id, index[id])
    {
      BucketScan(inputs, id);
    }
  }

  lemma BucketScan<T>(inputs: seq<DecodedInput<T>>, id: string)
    requires id in IdsOf(inputs)
    ensures IsBucket(inputs, id, IndicesOf(IdsOf(inputs), Positions(|inputs|), id))
  {
    var ids, positions := IdsOf(inputs), Positions(|inputs|);
    var bucket := IndicesOf(ids, positions, id);
    IndicesOfMeaning(ids, positions, id);
    forall x: nat
      ensures x in bucket <==> x < |inputs| && inputs[x].descriptorId == id
    {
      if x < |inputs| && inputs[x].descriptorId == id {
        assert positions[x] == x && ids[x] == id;
      }
    }
    var i :| 0 <= i < |ids| && ids[i] == id;
    assert positions[i] in bucket;
  }

  // The two presence tests, `contains_key` and a non-empty bucket, are one.
  lemma VerdictByNames<T>(definition: PresentationDefinition, inputs: seq<DecodedInput<T>>)
    ensures DefinitionSatisfied(definition, MatchingInputs(inputs, InverseIndex(inputs))) <==>
            DefinitionHolds(definition, IdsOf(inputs))
  {
    var m, names := MatchingInputs(inputs, InverseIndex(inputs)), IdsOf(inputs);
    IndexIsLinearScan(inputs);
    if definition.submissionRequirements.Some? {
      var leaves := LeavesOf(definition.submissionRequirements.value);
      assert forall leaf :: LeafSatisfied(leaf, definition, m) <==> LeafHolds(leaf, definition, names);
      assert forall leaf :: leaf in leaves <==> exists i :: 0 <= i < |leaves| && leaves[i] == leaf;
    }
  }
}
