// What a descriptor map selects, said without a traversal: which items are accepted, which
// values are processed without error, and the forest of inputs that results.
module SelectionSpec {
  import opened Wrappers
  import opened JsonValues
  import opened ClaimFormats
  import opened InputDescriptors
  import opened InputForests
  import opened DescriptorMaps

  // The descriptor is defined and its formats, or else the definition's, allow this format.
  predicate Admitted<T>(ctx: Context<T>, d: DescriptorMap) {
    && d.id in ctx.descriptors
    && var formats := ctx.descriptors[d.id].format;
       d.format in formats
       || (formats == map[] && (d.format in ctx.definition.format || ctx.definition.format == map[]))
  }

  function ConstraintFor<T>(ctx: Context<T>, d: DescriptorMap): Option<ClaimFormatPayload>
    requires Admitted(ctx, d)
  {
    var formats := ctx.descriptors[d.id].format;
    if d.format in formats then Some(formats[d.format])
    else if d.format in ctx.definition.format then Some(ctx.definition.format[d.format])
    else None
  }

  function Decoded<T>(ctx: Context<T>, d: DescriptorMap, item: Json): Result<(T, Option<Json>), ClaimDecodingError>
    requires Admitted(ctx, d)
  {
    ctx.decoder(item, d.format, ConstraintFor(ctx, d))
  }

  // Every field that does not say it is optional has a value that passes its filter.
  ghost predicate Satisfies<T>(ctx: Context<T>, d: DescriptorMap, json: Option<Json>)
    requires Admitted(ctx, d)
  {
    var fields := ctx.descriptors[d.id].constraints.fields;
    fields == [] ||
    (json.Some? && forall f :: f in fields && f.optional != Some(true) ==> HasPassingValue(ctx.ev, f, json.value))
  }

  function Nested(d: DescriptorMap): DescriptorMap
    requires d.pathNested.Some?
  {
    d.pathNested.value
  }

  // The item decodes, satisfies the constraints and, where nesting is asked for, holds an
  // acceptable nested item.
  ghost predicate Acceptable<T>(ctx: Context<T>, d: DescriptorMap, item: Json)
    decreases d, 0
  {
    && Admitted(ctx, d)
    && Decoded(ctx, d, item).Ok?
    && var json := Decoded(ctx, d, item).value.1;
       && Satisfies(ctx, d, json)
       && (d.pathNested.Some? ==>
             json.Some? && SomeAcceptable(ctx, Nested(d), ctx.ev.query(Nested(d).path, json.value)))
  }

  ghost predicate SomeAcceptable<T>(ctx: Context<T>, d: DescriptorMap, items: seq<Json>)
    decreases d, 1
  {
    exists i :: 0 <= i < |items| && Acceptable(ctx, d, items[i])
  }

  // The value is processed without error.
  ghost predicate Clean<T>(ctx: Context<T>, d: DescriptorMap, value: Json)
    decreases d, 1
  {
    && Admitted(ctx, d)
    && forall item :: item in ctx.ev.query(d.path, value) ==> ItemClean(ctx, d, item)
  }

  ghost predicate ItemClean<T>(ctx: Context<T>, d: DescriptorMap, item: Json)
    requires Admitted(ctx, d)
    decreases d, 0
  {
    && Decoded(ctx, d, item).Ok?
    && var json := Decoded(ctx, d, item).value.1;
       && (ctx.descriptors[d.id].constraints.fields != [] ==> json.Some?)
       && (Satisfies(ctx, d, json) && d.pathNested.Some? ==> json.Some? && Clean(ctx, Nested(d), json.value))
  }

  ghost function TreeOf<T>(ctx: Context<T>, d: DescriptorMap, item: Json): Tree<T>
    requires Acceptable(ctx, d, item)
    decreases d, 0
  {
    var (decoded, json) := Decoded(ctx, d, item).value;
    Node(d.id, d.format, decoded,
         if d.pathNested.None? then Empty else Accepted(ctx, Nested(d), ctx.ev.query(Nested(d).path, json.value)))
  }

  // The trees of the acceptable items, in order.
  ghost function Accepted<T>(ctx: Context<T>, d: DescriptorMap, items: seq<Json>): Forest<T>
    decreases d, 1, |items|
  {
    if items == [] then Empty
    else
      var n := |items| - 1;
      var before := Accepted(ctx, d, items[..n]);
      if Acceptable(ctx, d, items[n]) then Snoc(before, TreeOf(ctx, d, items[n])) else before
  }

  // ---- The traversal meets the specification ----

  lemma LookupMeaning<T>(ctx: Context<T>, d: DescriptorMap)
    ensures Admitted(ctx, d) <==>
            FindDescriptor(ctx, d).Ok? && FindFormatConstraint(ctx, d, FindDescriptor(ctx, d).value).Ok?
    ensures Admitted(ctx, d) ==>
              FindFormatConstraint(ctx, d, ctx.descriptors[d.id]) == Ok(ConstraintFor(ctx, d))
  {
  }

  lemma DecodeAndMatchMeaning<T>(ctx: Context<T>, d: DescriptorMap, item: Json)
    requires Admitted(ctx, d)
    ensures var r := DecodeAndMatch(ctx, d, ctx.descriptors[d.id], ConstraintFor(ctx, d), item);
            var answer := Decoded(ctx, d, item);
            && (r.Ok? <==> answer.Ok? && (ctx.descriptors[d.id].constraints.fields != [] ==> answer.value.1.Some?))
            && (r.Ok? ==> (r.value.Some? <==> Satisfies(ctx, d, answer.value.1)))
            && (r.Ok? && r.value.Some? ==> r.value.value == answer.value)
  {
    var answer := Decoded(ctx, d, item);
    if answer.Ok? && answer.value.1.Some? {
      MatchesIff(ctx.ev, ctx.descriptors[d.id].constraints, answer.value.1.value);
    }
  }

  lemma {:induction false} AcceptedIsEmpty<T>(ctx: Context<T>, d: DescriptorMap, items: seq<Json>)
    ensures Accepted(ctx, d, items) == Empty <==> !SomeAcceptable(ctx, d, items)
    decreases |items|
  {
    if items != [] {
      var n := |items| - 1;
      AcceptedIsEmpty(ctx, d, items[..n]);
      assert forall i :: 0 <= i < n ==> items[..n][i] == items[i];
    }
  }

  // A run ends without error exactly when the value is clean, and then has appended the
  // layout of the accepted items' trees.
  lemma {:induction false} TraversalMeetsSpec<T>(ctx: Context<T>, d: DescriptorMap, value: Json)
    ensures Traverse(ctx, d, value).error.None? <==> Clean(ctx, d, value)
    ensures Clean(ctx, d, value) ==> Traverse(ctx, d, value).forest == Accepted(ctx, d, ctx.ev.query(d.path, value))
    decreases d, 2
  {
    LookupMeaning(ctx, d);
    if Admitted(ctx, d) {
      ItemsMeetSpec(ctx, d, ctx.ev.query(d.path, value));
    }
  }

  ghost predicate AllClean<T>(ctx: Context<T>, d: DescriptorMap, items: seq<Json>)
    requires Admitted(ctx, d)
  {
    forall item :: item in items ==> ItemClean(ctx, d, item)
  }

  lemma {:induction false} ItemsMeetSpec<T>(ctx: Context<T>, d: DescriptorMap, items: seq<Json>)
    requires Admitted(ctx, d)
    ensures var y := TraverseItems(ctx, d, ctx.descriptors[d.id], ConstraintFor(ctx, d), items);
            && (y.error.None? <==> AllClean(ctx, d, items))
            && (AllClean(ctx, d, items) ==> y.forest == Accepted(ctx, d, items))
    decreases d, 1, |items|
  {
    if items != [] {
      var n := |items| - 1;
      ItemsMeetSpec(ctx, d, items[..n]);
      ItemMeetsSpec(ctx, d, items[n]);
      assert forall item :: item in items <==> item in items[..n] || item == items[n];
      if AllClean(ctx, d, items) {
        assert Concat(Accepted(ctx, d, items[..n]), Empty) == Accepted(ctx, d, items[..n]);
      }
    }
  }

  lemma {:induction false} ItemMeetsSpec<T>(ctx: Context<T>, d: DescriptorMap, item: Json)
    requires Admitted(ctx, d)
    ensures var y := TraverseItem(ctx, d, ctx.descriptors[d.id], ConstraintFor(ctx, d), item);
            && (y.error.None? <==> ItemClean(ctx, d, item))
            && (ItemClean(ctx, d, item) ==>
                  y.forest == if Acceptable(ctx, d, item) then Snoc(Empty, TreeOf(ctx, d, item)) else Empty)
    decreases d, 0
  {
    DecodeAndMatchMeaning(ctx, d, item);
    var answer := Decoded(ctx, d, item);
    if answer.Ok? && answer.value.1.Some? && d.pathNested.Some? {
      var json := answer.value.1.value;
      TraversalMeetsSpec(ctx, Nested(d), json);
      AcceptedIsEmpty(ctx, Nested(d), ctx.ev.query(Nested(d).path, json));
    }
  }

  // ---- Which error a run ends with ----

  // Processing the value is refused with `e`: the descriptor is not defined, its format not
  // allowed, or `e` is that of the first item that is not clean.
  ghost predicate Reported<T>(ctx: Context<T>, d: DescriptorMap, value: Json, e: SubmissionError)
    decreases d, 2
  {
    if d.id !in ctx.descriptors then e == UndefinedInputDescriptor(d.id)
    else if !Admitted(ctx, d) then e == FormatMismatch(d.format)
    else FirstReported(ctx, d, ctx.ev.query(d.path, value), e)
  }

  ghost predicate FirstReported<T>(ctx: Context<T>, d: DescriptorMap, items: seq<Json>, e: SubmissionError)
    requires Admitted(ctx, d)
    decreases d, 1
  {
    exists i :: 0 <= i < |items| && AllClean(ctx, d, items[..i]) && ItemReported(ctx, d, items[i], e)
  }

  // The item does not decode, lacks the JSON that its constraints or nesting need, or has
  // nested in it what is refused with `e`.
  ghost predicate ItemReported<T>(ctx: Context<T>, d: DescriptorMap, item: Json, e: SubmissionError)
    requires Admitted(ctx, d)
    decreases d, 0
  {
    match Decoded(ctx, d, item)
    case Err(x) => e == Decoding(x)
    case Ok((_, None)) =>
      (ctx.descriptors[d.id].constraints.fields != [] || d.pathNested.Some?) && e == NestingUnsupported(d.format)
    case Ok((_, Some(json))) =>
      Satisfies(ctx, d, Some(json)) && d.pathNested.Some? && Reported(ctx, Nested(d), json, e)
  }

  // A run that ends with an error ends with the one reported so, and where one is reported
  // so the run does end with it.
  lemma {:induction false} ErrorIsReported<T>(ctx: Context<T>, d: DescriptorMap, value: Json, e: SubmissionError)
    ensures Traverse(ctx, d, value).error == Some(e) <==> Reported(ctx, d, value, e)
    decreases d, 2
  {
    LookupMeaning(ctx, d);
    if Admitted(ctx, d) {
      FirstErrorIsReported(ctx, d, ctx.ev.query(d.path, value), e);
    }
  }

  lemma {:induction false} FirstErrorIsReported<T>(ctx: Context<T>, d: DescriptorMap, items: seq<Json>, e: SubmissionError)
    requires Admitted(ctx, d)
    ensures TraverseItems(ctx, d, ctx.descriptors[d.id], ConstraintFor(ctx, d), items).error == Some(e) <==>
            FirstReported(ctx, d, items, e)
    decreases d, 1, |items|
  {
    if items != [] {
      var n := |items| - 1;
      FirstErrorIsReported(ctx, d, items[..n], e);
      ItemsMeetSpec(ctx, d, items[..n]);
      ItemErrorIsReported(ctx, d, items[n], e);
      FirstReportedSnoc(ctx, d, items, n, e);
    }
  }

  lemma FirstReportedSnoc<T>(ctx: Context<T>, d: DescriptorMap, items: seq<Json>, n: nat, e: SubmissionError)
    requires Admitted(ctx, d) && |items| == n + 1
    ensures FirstReported(ctx, d, items, e) <==>
            || FirstReported(ctx, d, items[..n], e)
            || (AllClean(ctx, d, items[..n]) && ItemReported(ctx, d, items[n], e))
  {
    if i :| 0 <= i < |items| && AllClean(ctx, d, items[..i]) && ItemReported(ctx, d, items[i], e) {
      if i < n {
        assert items[..n][..i] == items[..i] && items[..n][i] == items[i];
      }
    }
    if i :| 0 <= i < n && AllClean(ctx, d, items[..n][..i]) && ItemReported(ctx, d, items[..n][i], e) {
      assert items[..n][..i] == items[..i] && items[..n][i] == items[i];
    }
  }

  lemma {:induction false} ItemErrorIsReported<T>(ctx: Context<T>, d: DescriptorMap, item: Json, e: SubmissionError)
    requires Admitted(ctx, d)
    ensures TraverseItem(ctx, d, ctx.descriptors[d.id], ConstraintFor(ctx, d), item).error == Some(e) <==>
            ItemReported(ctx, d, item, e)
    decreases d, 0
  {
    DecodeAndMatchMeaning(ctx, d, item);
    var answer := Decoded(ctx, d, item);
    if answer.Ok? && answer.value.1.Some? && d.pathNested.Some? {
      ErrorIsReported(ctx, Nested(d), answer.value.1.value, e);
    }
  }

  // ---- What every traversal yields, with or without error ----

  // The trees mirror the nesting of the descriptor map: one key under `nested` where a
  // nested map exists, none otherwise.
  ghost predicate Mirrors<T>(d: DescriptorMap, f: Forest<T>)
    decreases d, f
  {
    f.Snoc? ==>
      && Mirrors(d, f.init)
      && f.last.id == d.id && f.last.format == d.format
      && match d.pathNested
         case None => f.last.children == Empty
         case Some(nested) => f.last.children != Empty && Mirrors(nested, f.last.children)
  }

  lemma {:induction false} MirrorsConcat<T>(d: DescriptorMap, a: Forest<T>, b: Forest<T>)
    requires Mirrors(d, a) && Mirrors(d, b)
    ensures Mirrors(d, Concat(a, b))
    decreases b
  {
    if b.Snoc? {
      MirrorsConcat(d, a, b.init);
    }
  }

  lemma {:induction false} TraversalMirrors<T>(ctx: Context<T>, d: DescriptorMap, value: Json)
    requires Traverse(ctx, d, value).error.None?
    ensures Mirrors(d, Traverse(ctx, d, value).forest)
    decreases d, 1
  {
    var desc := FindDescriptor(ctx, d).value;
    ItemsMirror(ctx, d, desc, FindFormatConstraint(ctx, d, desc).value, ctx.ev.query(d.path, value));
  }

  lemma {:induction false} ItemsMirror<T>(ctx: Context<T>, d: DescriptorMap, desc: InputDescriptor,
                                          constraint: Option<ClaimFormatPayload>, items: seq<Json>)
    requires TraverseItems(ctx, d, desc, constraint, items).error.None?
    ensures Mirrors(d, TraverseItems(ctx, d, desc, constraint, items).forest)
    decreases d, 0, |items|
  {
    if items != [] {
      var n := |items| - 1;
      ItemsMirror(ctx, d, desc, constraint, items[..n]);
      var one := TraverseItem(ctx, d, desc, constraint, items[n]);
      var matched := DecodeAndMatch(ctx, d, desc, constraint, items[n]);
      if d.pathNested.Some? && matched.value.Some? {
        TraversalMirrors(ctx, Nested(d), matched.value.value.1.value);
      }
      MirrorsConcat(d, TraverseItems(ctx, d, desc, constraint, items[..n]).forest, one.forest);
    }
  }

  lemma {:induction false} MirrorsRootIds<T>(d: DescriptorMap, f: Forest<T>)
    requires Mirrors(d, f)
    ensures forall k :: 0 <= k < |RootIds(f)| ==> RootIds(f)[k] == d.id
    decreases f
  {
    if f.Snoc? {
      MirrorsRootIds(d, f.init);
    }
  }

  lemma {:induction false} MirrorsUniform<T>(d: DescriptorMap, f: Forest<T>)
    requires Mirrors(d, f)
    ensures Uniform(f)
    decreases f
  {
    if f.Snoc? {
      MirrorsUniform(d, f.init);
      if d.pathNested.Some? {
        MirrorsUniform(Nested(d), f.last.children);
        MirrorsRootIds(Nested(d), f.last.children);
      }
    }
  }

  // The nested index of an input has the nested descriptor's id as its one key, holding the
  // positions of all its children, or no key at all.
  lemma NestedIndexHasOneKey<T>(d: DescriptorMap, base: nat, t: Tree<T>)
    requires Mirrors(d, Snoc(Empty, t))
    ensures Entry(base, t).nested ==
            match d.pathNested
            case None => map[]
            case Some(nested) => map[nested.id := Roots(base, t.children)]
    ensures d.pathNested.Some? ==> Roots(base, t.children) != []
  {
    if d.pathNested.Some? {
      var ids := RootIds(t.children);
      MirrorsRootIds(Nested(d), t.children);
      assert |ids| > 0;
      GroupedUniform(ids, Roots(base, t.children), Nested(d).id);
    }
  }
}
