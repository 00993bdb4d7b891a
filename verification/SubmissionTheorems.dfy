// What holds of every processed submission: the shape of the input list, where each input
// comes from, and what the verdict depends on.
module SubmissionTheorems {
  import opened Wrappers
  import opened JsonValues
  import opened ClaimFormats
  import opened DecodedInputs
  import opened InputForests
  import opened DescriptorMaps
  import opened SelectionSpec
  import opened PresentationSubmissions

  // ---- Shape of the list ----

  // A run that returns no index appends nothing, so skipping an item whose nesting is empty
  // leaves no input behind.
  lemma EmptyAnswerAppendsNothing<T>(ctx: Context<T>, d: DescriptorMap, value: Json, base: nat)
    requires Outcome(base, Traverse(ctx, d, value)) == Ok([])
    ensures Flatten(base, Traverse(ctx, d, value).forest) == []
  {
    assert Traverse(ctx, d, value).forest.Snoc? ==> Roots(base, Traverse(ctx, d, value).forest) != [];
  }

  lemma {:induction false} AllUniform<T>(ctx: Context<T>, ds: seq<DescriptorMap>, value: Json)
    requires TraverseAll(ctx, ds, value).error.None?
    ensures Uniform(TraverseAll(ctx, ds, value).forest)
    decreases |ds|
  {
    if ds != [] {
      var n := |ds| - 1;
      var one := Traverse(ctx, ds[n], value).forest;
      AllUniform(ctx, ds[..n], value);
      TraversalMirrors(ctx, ds[n], value);
      MirrorsUniform(ds[n], one);
      UniformConcat(TraverseAll(ctx, ds[..n], value).forest, one);
    }
  }

  lemma {:induction false} UniformConcat<T>(a: Forest<T>, b: Forest<T>)
    requires Uniform(a) && Uniform(b)
    ensures Uniform(Concat(a, b))
    decreases b
  {
    if b.Snoc? {
      UniformConcat(a, b.init);
    }
  }

  // The trees of all the entries' accepted items, entry after entry.
  ghost function AllAccepted<T>(ctx: Context<T>, ds: seq<DescriptorMap>, value: Json): Forest<T> {
    if ds == [] then Empty
    else
      var n := |ds| - 1;
      Concat(AllAccepted(ctx, ds[..n], value), Accepted(ctx, ds[n], ctx.ev.query(ds[n].path, value)))
  }

  lemma {:induction false} AllMeetAccepted<T>(ctx: Context<T>, ds: seq<DescriptorMap>, value: Json)
    requires TraverseAll(ctx, ds, value).error.None?
    ensures TraverseAll(ctx, ds, value).forest == AllAccepted(ctx, ds, value)
    decreases |ds|
  {
    if ds != [] {
      AllMeetAccepted(ctx, ds[..|ds| - 1], value);
      TraversalMeetsSpec(ctx, ds[|ds| - 1], value);
    }
  }

  // The inputs a submission yields form a forest: links point backwards, no input has two
  // parents, and those without a parent are the roots. Following the links from the roots
  // gives back exactly the trees of the accepted items.
  lemma InputsFormTheAcceptedForest<T>(ctx: Context<T>, ds: seq<DescriptorMap>, value: Json)
    requires TraverseAll(ctx, ds, value).error.None?
    ensures var inputs := Flatten(0, TraverseAll(ctx, ds, value).forest);
            var roots := Roots(0, TraverseAll(ctx, ds, value).forest);
            && (forall p: nat, q: nat, c: nat :: Links(0, inputs, p, c) && Links(0, inputs, q, c) ==> p == q)
            && (forall c: nat :: c in roots <==> c < |inputs| && !exists p: nat :: Links(0, inputs, p, c))
            && PointsBackwards(inputs) && Below(roots, |inputs|)
            && ReadForest(inputs, |inputs|, roots) == AllAccepted(ctx, ds, value)
  {
    var f := TraverseAll(ctx, ds, value).forest;
    var inputs := Flatten(0, f);
    LayoutIsForest(0, f);
    LayoutPointsBackwards(f);
    AllUniform(ctx, ds, value);
    assert inputs[0..|inputs|] == inputs;
    ReadBack(inputs, 0, f);
    AllMeetAccepted(ctx, ds, value);
  }

  // Each entry processed on its own from an empty list, its links shifted by what precedes it.
  ghost function IndependentRuns<T>(ctx: Context<T>, ds: seq<DescriptorMap>, value: Json): seq<DecodedInput<T>> {
    if ds == [] then []
    else
      var n := |ds| - 1;
      var before := IndependentRuns(ctx, ds[..n], value);
      before + ShiftInputs(|before|, Flatten(0, Traverse(ctx, ds[n], value).forest))
  }

  // The indices the top-level calls return, in order.
  ghost function ReturnedIndices<T>(ctx: Context<T>, ds: seq<DescriptorMap>, value: Json): seq<nat> {
    if ds == [] then []
    else
      var n := |ds| - 1;
      ReturnedIndices(ctx, ds[..n], value)
      + Roots(|IndependentRuns(ctx, ds[..n], value)|, Traverse(ctx, ds[n], value).forest)
  }

  // Processing all entries into one list is concatenating their independent runs, and the
  // roots of the list are what the top-level calls returned.
  lemma {:induction false} RunsAreIndependent<T>(ctx: Context<T>, ds: seq<DescriptorMap>, value: Json)
    requires TraverseAll(ctx, ds, value).error.None?
    ensures Flatten(0, TraverseAll(ctx, ds, value).forest) == IndependentRuns(ctx, ds, value)
    ensures Roots(0, TraverseAll(ctx, ds, value).forest) == ReturnedIndices(ctx, ds, value)
    decreases |ds|
  {
    if ds != [] {
      var n := |ds| - 1;
      RunsAreIndependent(ctx, ds[..n], value);
      var before, one := TraverseAll(ctx, ds[..n], value).forest, Traverse(ctx, ds[n], value).forest;
      LayoutConcat(0, before, |IndependentRuns(ctx, ds[..n], value)|, one);
      FlattenShift(0, |IndependentRuns(ctx, ds[..n], value)|, |IndependentRuns(ctx, ds[..n], value)|, one);
    }
  }

  // ---- The first error ----

  // A run that fails after its descriptor is admitted stops at the first item that is not
  // clean, having kept the trees of the accepted items before it.
  lemma {:induction false} TraversalStopsAtFirstError<T>(ctx: Context<T>, d: DescriptorMap, items: seq<Json>) returns (k: nat)
    requires Admitted(ctx, d) && !AllClean(ctx, d, items)
    ensures k < |items| && AllClean(ctx, d, items[..k]) && !ItemClean(ctx, d, items[k])
    ensures var desc, constraint := ctx.descriptors[d.id], ConstraintFor(ctx, d);
            var one := TraverseItem(ctx, d, desc, constraint, items[k]);
            && one.error.Some?
            && TraverseItems(ctx, d, desc, constraint, items) ==
               Yield(Concat(Accepted(ctx, d, items[..k]), one.forest), one.error)
    decreases |items|
  {
    var n := |items| - 1;
    var init := items[..n];
    ItemsMeetSpec(ctx, d, init);
    ItemMeetsSpec(ctx, d, items[n]);
    assert forall item :: item in items <==> item in init || item == items[n];
    if AllClean(ctx, d, init) {
      k := n;
    } else {
      k := TraversalStopsAtFirstError(ctx, d, init);
      assert items[..k] == init[..k];
    }
  }

  // The entry at `i` is refused with `e` and all before it are processed without error.
  ghost predicate ReportedAt<T>(ctx: Context<T>, ds: seq<DescriptorMap>, value: Json, e: SubmissionError, i: nat) {
    i < |ds| && AllEntriesClean(ctx, ds[..i], value) && Reported(ctx, ds[i], value, e)
  }

  // Some entry is.
  ghost predicate EntryReported<T>(ctx: Context<T>, ds: seq<DescriptorMap>, value: Json, e: SubmissionError) {
    exists i: nat :: ReportedAt(ctx, ds, value, e, i)
  }

  lemma ReportedAtPrefix<T>(ctx: Context<T>, ds: seq<DescriptorMap>, value: Json, n: nat, e: SubmissionError, i: nat)
    requires i < n <= |ds|
    ensures ReportedAt(ctx, ds[..n], value, e, i) <==> ReportedAt(ctx, ds, value, e, i)
  {
    assert ds[..n][..i] == ds[..i] && ds[..n][i] == ds[i];
  }

  lemma EntryReportedSnoc<T>(ctx: Context<T>, ds: seq<DescriptorMap>, value: Json, n: nat, e: SubmissionError)
    requires |ds| == n + 1
    ensures EntryReported(ctx, ds, value, e) <==> EntryReported(ctx, ds[..n], value, e) || ReportedAt(ctx, ds, value, e, n)
  {
    forall i: nat | i < n {
      ReportedAtPrefix(ctx, ds, value, n, e, i);
    }
  }

  // A submission that cannot be processed is refused with the error of its first bad entry.
  lemma {:induction false} FirstBadEntryIsReported<T>(ctx: Context<T>, ds: seq<DescriptorMap>, value: Json, e: SubmissionError)
    ensures TraverseAll(ctx, ds, value).error == Some(e) <==> EntryReported(ctx, ds, value, e)
    decreases |ds|
  {
    if ds != [] {
      var n := |ds| - 1;
      FirstBadEntryIsReported(ctx, ds[..n], value, e);
      AllMeetSpec(ctx, ds[..n], value);
      ErrorIsReported(ctx, ds[n], value, e);
      EntryReportedSnoc(ctx, ds, value, n, e);
    }
  }

  // ---- Where inputs come from ----

  // An input of this id, format and value comes from an accepted item of `d` or from one
  // nested in it.
  ghost predicate Sourced<T>(ctx: Context<T>, d: DescriptorMap, items: seq<Json>, id: string,
                             format: ClaimFormatDesignation, decoded: T)
    decreases d
  {
    exists i :: 0 <= i < |items| && SourcedBy(ctx, d, items[i], id, format, decoded)
  }

  ghost predicate SourcedBy<T>(ctx: Context<T>, d: DescriptorMap, item: Json, id: string,
                               format: ClaimFormatDesignation, decoded: T)
    decreases d, 0
  {
    && Acceptable(ctx, d, item)
    && var answer := Decoded(ctx, d, item).value;
       || (id == d.id && format == d.format && decoded == answer.0)
       || (d.pathNested.Some?
           && Sourced(ctx, Nested(d), ctx.ev.query(Nested(d).path, answer.1.value), id, format, decoded))
  }

  ghost predicate InForest<T>(f: Forest<T>, id: string, format: ClaimFormatDesignation, decoded: T) {
    f.Snoc? &&
    (|| InForest(f.init, id, format, decoded)
     || InForest(f.last.children, id, format, decoded)
     || (f.last.id == id && f.last.format == format && f.last.value == decoded))
  }

  lemma SourcedSnoc<T>(ctx: Context<T>, d: DescriptorMap, items: seq<Json>, n: nat, id: string,
                       format: ClaimFormatDesignation, decoded: T)
    requires |items| == n + 1
    ensures Sourced(ctx, d, items, id, format, decoded) <==>
            Sourced(ctx, d, items[..n], id, format, decoded) || SourcedBy(ctx, d, items[n], id, format, decoded)
  {
    if Sourced(ctx, d, items, id, format, decoded) {
      var i :| 0 <= i < |items| && SourcedBy(ctx, d, items[i], id, format, decoded);
      assert i < n ==> items[..n][i] == items[i];
    }
    if Sourced(ctx, d, items[..n], id, format, decoded) {
      var i :| 0 <= i < n && SourcedBy(ctx, d, items[..n][i], id, format, decoded);
      assert items[i] == items[..n][i];
    }
  }

  // Soundness and completeness of selection: the forest holds an input exactly when some
  // accepted item, here or nested, is its source.
  lemma {:induction false} SelectionIffSourced<T>(ctx: Context<T>, d: DescriptorMap, items: seq<Json>, id: string,
                                                  format: ClaimFormatDesignation, decoded: T)
    ensures InForest(Accepted(ctx, d, items), id, format, decoded) <==> Sourced(ctx, d, items, id, format, decoded)
    decreases d, |items|
  {
    if items != [] {
      var n := |items| - 1;
      SelectionIffSourced(ctx, d, items[..n], id, format, decoded);
      SourcedSnoc(ctx, d, items, n, id, format, decoded);
      if Acceptable(ctx, d, items[n]) && d.pathNested.Some? {
        var json := Decoded(ctx, d, items[n]).value.1.value;
        SelectionIffSourced(ctx, Nested(d), ctx.ev.query(Nested(d).path, json), id, format, decoded);
      }
    }
  }

  lemma {:induction false} InForestConcat<T>(a: Forest<T>, b: Forest<T>, id: string, format: ClaimFormatDesignation, decoded: T)
    ensures InForest(Concat(a, b), id, format, decoded) <==>
            InForest(a, id, format, decoded) || InForest(b, id, format, decoded)
    decreases b
  {
    if b.Snoc? {
      InForestConcat(a, b.init, id, format, decoded);
    }
  }

  ghost predicate Carries<T>(input: DecodedInput<T>, id: string, format: ClaimFormatDesignation, decoded: T) {
    input.descriptorId == id && input.format == format && input.value == decoded
  }

  ghost predicate SomeCarries<T>(inputs: seq<DecodedInput<T>>, id: string, format: ClaimFormatDesignation, decoded: T) {
    exists i :: 0 <= i < |inputs| && Carries(inputs[i], id, format, decoded)
  }

  lemma SomeCarriesConcat<T>(a: seq<DecodedInput<T>>, b: seq<DecodedInput<T>>, id: string,
                             format: ClaimFormatDesignation, decoded: T)
    ensures SomeCarries(a + b, id, format, decoded) <==>
            SomeCarries(a, id, format, decoded) || SomeCarries(b, id, format, decoded)
  {
    if i :| 0 <= i < |a| && Carries(a[i], id, format, decoded) {
      assert (a + b)[i] == a[i];
    }
    if i :| 0 <= i < |b| && Carries(b[i], id, format, decoded) {
      assert (a + b)[|a| + i] == b[i];
    }
  }

  lemma {:induction false} ListIffForest<T>(base: nat, f: Forest<T>, id: string, format: ClaimFormatDesignation, decoded: T)
    ensures SomeCarries(Flatten(base, f), id, format, decoded) <==> InForest(f, id, format, decoded)
    decreases f
  {
    if f.Snoc? {
      var mid, t := base + Size(f.init), f.last;
      ListIffForest(base, f.init, id, format, decoded);
      ListIffForest(mid, t.children, id, format, decoded);
      SomeCarriesConcat(Flatten(base, f.init), FlattenTree(mid, t), id, format, decoded);
      SomeCarriesConcat(Flatten(mid, t.children), [Entry(mid, t)], id, format, decoded);
      assert Carries([Entry(mid, t)][0], id, format, decoded) <==> t.id == id && t.format == format && t.value == decoded;
    }
  }

  // On success the list holds an input exactly when an accepted item of some entry, or one
  // nested in it, is its source: nothing else is listed and nothing accepted is missing.
  lemma {:induction false} InputsIffSourced<T>(ctx: Context<T>, ds: seq<DescriptorMap>, value: Json, id: string,
                                               format: ClaimFormatDesignation, decoded: T)
    requires TraverseAll(ctx, ds, value).error.None?
    ensures SomeCarries(Flatten(0, TraverseAll(ctx, ds, value).forest), id, format, decoded) <==>
            exists d :: d in ds && Sourced(ctx, d, ctx.ev.query(d.path, value), id, format, decoded)
    decreases |ds|
  {
    ListIffForest(0, TraverseAll(ctx, ds, value).forest, id, format, decoded);
    if ds != [] {
      var n := |ds| - 1;
      var init, d := ds[..n], ds[n];
      InputsIffSourced(ctx, init, value, id, format, decoded);
      ListIffForest(0, TraverseAll(ctx, init, value).forest, id, format, decoded);
      TraversalMeetsSpec(ctx, d, value);
      SelectionIffSourced(ctx, d, ctx.ev.query(d.path, value), id, format, decoded);
      InForestConcat(TraverseAll(ctx, init, value).forest, Traverse(ctx, d, value).forest, id, format, decoded);
      assert forall e :: e in ds <==> e in init || e == d;
    }
  }
}
