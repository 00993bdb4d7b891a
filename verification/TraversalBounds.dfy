// How much work a descriptor map can cause: inputs appended, decoder calls, indices returned.
module TraversalBounds {
  import opened Wrappers
  import opened JsonValues
  import opened ClaimFormats
  import opened InputDescriptors
  import opened PresentationDefinitions
  import opened InputForests
  import opened DescriptorMaps

  function Depth(d: DescriptorMap): nat {
    if d.pathNested.None? then 1 else 1 + Depth(d.pathNested.value)
  }

  function Power(k: nat, n: nat): nat {
    if n == 0 then 1 else k * Power(k, n - 1)
  }

  // k + k^2 + ... + k^n
  function PowerSum(k: nat, n: nat): nat {
    if n == 0 then 0 else PowerSum(k, n - 1) + Power(k, n)
  }

  // The value a run applies the nested map to for this item, if it gets that far.
  function NestedValue<T>(ctx: Context<T>, d: DescriptorMap, desc: InputDescriptor,
                          constraint: Option<ClaimFormatPayload>, item: Json): (r: Option<Json>)
    ensures r.Some? ==> d.pathNested.Some?
  {
    match DecodeAndMatch(ctx, d, desc, constraint, item)
    case Ok(Some((_, json))) => if d.pathNested.Some? then json else None
    case _ => None
  }

  // A run selects at most k items from this value, and from every value it applies a nested
  // map to. Paths and values it does not meet are free.
  ghost predicate SelectsAtMost<T>(ctx: Context<T>, d: DescriptorMap, value: Json, k: nat)
    decreases d, 1
  {
    match FindDescriptor(ctx, d)
    case Err(_) => true
    case Ok(desc) =>
      match FindFormatConstraint(ctx, d, desc)
      case Err(_) => true
      case Ok(constraint) =>
        var items := ctx.ev.query(d.path, value);
        |items| <= k && forall item :: item in items ==> ItemSelectsAtMost(ctx, d, desc, constraint, item, k)
  }

  ghost predicate ItemSelectsAtMost<T>(ctx: Context<T>, d: DescriptorMap, desc: InputDescriptor,
                                       constraint: Option<ClaimFormatPayload>, item: Json, k: nat)
    decreases d, 0
  {
    match NestedValue(ctx, d, desc, constraint, item)
    case Some(json) => SelectsAtMost(ctx, d.pathNested.value, json, k)
    case None => true
  }

  function Max(a: nat, b: nat): nat {
    if a < b then b else a
  }

  // The largest selection of the run.
  function Widest<T>(ctx: Context<T>, d: DescriptorMap, value: Json): nat
    decreases d, 1
  {
    match FindDescriptor(ctx, d)
    case Err(_) => 0
    case Ok(desc) =>
      match FindFormatConstraint(ctx, d, desc)
      case Err(_) => 0
      case Ok(constraint) =>
        var items := ctx.ev.query(d.path, value);
        Max(|items|, WidestItems(ctx, d, desc, constraint, items))
  }

  function WidestItems<T>(ctx: Context<T>, d: DescriptorMap, desc: InputDescriptor,
                          constraint: Option<ClaimFormatPayload>, items: seq<Json>): nat
    decreases d, 0, |items|
  {
    if items == [] then 0
    else
      var n := |items| - 1;
      Max(WidestItems(ctx, d, desc, constraint, items[..n]),
          match NestedValue(ctx, d, desc, constraint, items[n])
          case Some(json) => Widest(ctx, d.pathNested.value, json)
          case None => 0)
  }

  // Every run has such a bound: its largest selection is the least of them.
  lemma {:induction false} WidestIsLeastBound<T>(ctx: Context<T>, d: DescriptorMap, value: Json, k: nat)
    ensures SelectsAtMost(ctx, d, value, k) <==> Widest(ctx, d, value) <= k
    decreases d, 1
  {
    var found := FindDescriptor(ctx, d);
    if found.Ok? && FindFormatConstraint(ctx, d, found.value).Ok? {
      WidestItemsIsLeastBound(ctx, d, found.value, FindFormatConstraint(ctx, d, found.value).value,
                              ctx.ev.query(d.path, value), k);
    }
  }

  lemma {:induction false} WidestItemsIsLeastBound<T>(ctx: Context<T>, d: DescriptorMap, desc: InputDescriptor,
                                                      constraint: Option<ClaimFormatPayload>, items: seq<Json>, k: nat)
    ensures (forall item :: item in items ==> ItemSelectsAtMost(ctx, d, desc, constraint, item, k)) <==>
            WidestItems(ctx, d, desc, constraint, items) <= k
    decreases d, 0, |items|
  {
    if items != [] {
      var n := |items| - 1;
      WidestItemsIsLeastBound(ctx, d, desc, constraint, items[..n], k);
      assert forall item :: item in items <==> item in items[..n] || item == items[n];
      var nested := NestedValue(ctx, d, desc, constraint, items[n]);
      if nested.Some? {
        WidestIsLeastBound(ctx, d.pathNested.value, nested.value, k);
        assert WidestItems(ctx, d, desc, constraint, items) ==
               Max(WidestItems(ctx, d, desc, constraint, items[..n]), Widest(ctx, d.pathNested.value, nested.value));
      }
      assert items[n] in items;
      assert ItemSelectsAtMost(ctx, d, desc, constraint, items[n], k) <==>
             nested.Some? ==> SelectsAtMost(ctx, d.pathNested.value, nested.value, k);
    }
  }

  lemma {:induction false} PowerSumUnfold(k: nat, n: nat)
    requires n > 0
    ensures PowerSum(k, n) == k * (1 + PowerSum(k, n - 1))
  {
    if n > 1 {
      PowerSumUnfold(k, n - 1);
      Distribute(k, 1 + PowerSum(k, n - 2), Power(k, n - 1));
    } else {
      assert Power(k, 1) == k * Power(k, 0);
    }
  }

  lemma Distribute(k: nat, a: nat, b: nat)
    ensures k * (a + b) == k * a + k * b
    ensures (a + b) * k == a * k + b * k
  {
  }

  lemma Monotone(a: nat, b: nat, c: nat)
    requires a <= b
    ensures a * c <= b * c
  {
  }

  // Every input appended has cost a decoder call of its own, whether or not the run ends in an error.
  lemma {:induction false} InputsWithinCalls<T>(ctx: Context<T>, d: DescriptorMap, value: Json)
    ensures Size(Traverse(ctx, d, value).forest) <= DecodeCalls(ctx, d, value)
    decreases d, 1
  {
    var found := FindDescriptor(ctx, d);
    if found.Ok? && FindFormatConstraint(ctx, d, found.value).Ok? {
      ItemsWithinCalls(ctx, d, found.value, FindFormatConstraint(ctx, d, found.value).value, ctx.ev.query(d.path, value));
    }
  }

  lemma {:induction false} ItemsWithinCalls<T>(ctx: Context<T>, d: DescriptorMap, desc: InputDescriptor,
                                               constraint: Option<ClaimFormatPayload>, items: seq<Json>)
    ensures Size(TraverseItems(ctx, d, desc, constraint, items).forest) <= DecodeCallsItems(ctx, d, desc, constraint, items)
    decreases d, 0, |items|
  {
    if items != [] {
      var n := |items| - 1;
      ItemsWithinCalls(ctx, d, desc, constraint, items[..n]);
      var one := TraverseItem(ctx, d, desc, constraint, items[n]);
      SizeConcat(TraverseItems(ctx, d, desc, constraint, items[..n]).forest, one.forest);
      match DecodeAndMatch(ctx, d, desc, constraint, items[n])
      case Ok(Some((_, Some(json)))) =>
        if d.pathNested.Some? {
          InputsWithinCalls(ctx, d.pathNested.value, json);
        }
      case _ =>
    }
  }

  lemma {:induction false} CallsBounded<T>(ctx: Context<T>, d: DescriptorMap, value: Json, k: nat)
    requires SelectsAtMost(ctx, d, value, k)
    ensures DecodeCalls(ctx, d, value) <= PowerSum(k, Depth(d))
    decreases d, 1
  {
    var items := ctx.ev.query(d.path, value);
    PowerSumUnfold(k, Depth(d));
    var found := FindDescriptor(ctx, d);
    if found.Ok? && FindFormatConstraint(ctx, d, found.value).Ok? {
      ItemCallsBounded(ctx, d, found.value, FindFormatConstraint(ctx, d, found.value).value, items, k);
      Monotone(|items|, k, 1 + PowerSum(k, Depth(d) - 1));
    }
  }

  lemma {:induction false} ItemCallsBounded<T>(ctx: Context<T>, d: DescriptorMap, desc: InputDescriptor,
                                               constraint: Option<ClaimFormatPayload>, items: seq<Json>, k: nat)
    requires forall item :: item in items ==> ItemSelectsAtMost(ctx, d, desc, constraint, item, k)
    ensures DecodeCallsItems(ctx, d, desc, constraint, items) <= |items| * (1 + PowerSum(k, Depth(d) - 1))
    decreases d, 0, |items|
  {
    if items != [] {
      var n := |items| - 1;
      Distribute(1 + PowerSum(k, Depth(d) - 1), n, 1);
      ItemCallsBounded(ctx, d, desc, constraint, items[..n], k);
      assert items[n] in items;
      match DecodeAndMatch(ctx, d, desc, constraint, items[n])
      case Ok(Some((_, Some(json)))) =>
        if d.pathNested.Some? {
          CallsBounded(ctx, d.pathNested.value, json, k);
        }
      case _ =>
    }
  }

  lemma {:induction false} RootsWithinItems<T>(ctx: Context<T>, d: DescriptorMap, desc: InputDescriptor,
                                               constraint: Option<ClaimFormatPayload>, items: seq<Json>, base: nat)
    requires TraverseItems(ctx, d, desc, constraint, items).error.None?
    ensures |Roots(base, TraverseItems(ctx, d, desc, constraint, items).forest)| <= |items|
    decreases |items|
  {
    if items != [] {
      var n := |items| - 1;
      RootsWithinItems(ctx, d, desc, constraint, items[..n], base);
      var before := TraverseItems(ctx, d, desc, constraint, items[..n]).forest;
      var one := TraverseItem(ctx, d, desc, constraint, items[n]).forest;
      RootsConcat(base, before, one);
      assert one == Empty || one == Snoc(Empty, one.last);
    }
  }

  // If a run selects at most k items at a time, a map nested n deep appends at most
  // k + k^2 + ... + k^n inputs, calls the decoder at most that often, and returns at most
  // k indices.
  lemma TraversalIsBounded<T>(ctx: Context<T>, d: DescriptorMap, value: Json, k: nat, base: nat)
    requires SelectsAtMost(ctx, d, value, k)
    ensures Size(Traverse(ctx, d, value).forest) <= DecodeCalls(ctx, d, value) <= PowerSum(k, Depth(d))
    ensures Outcome(base, Traverse(ctx, d, value)).Ok? ==> |Outcome(base, Traverse(ctx, d, value)).value| <= k
  {
    InputsWithinCalls(ctx, d, value);
    CallsBounded(ctx, d, value, k);
    if Traverse(ctx, d, value).error.None? {
      var desc := FindDescriptor(ctx, d).value;
      RootsWithinItems(ctx, d, desc, FindFormatConstraint(ctx, d, desc).value, ctx.ev.query(d.path, value), base);
    }
  }

  // ---- The bound is reached ----

  function Copies(k: nat, value: Json): seq<Json> {
    seq(k, i => value)
  }

  // One descriptor without constraints; any path selects the value itself, k times over, and
  // the decoder hands every item on.
  function Copying(k: nat): Context<Json> {
    Context(Evaluator((path, value) => Copies(k, value), (schema, value) => true),
            (item, format, constraint) => Ok((item, Some(item))),
            PresentationDefinition("d", [ANYTHING], None, map[]),
            map["a" := ANYTHING])
  }

  const ANYTHING := InputDescriptor("a", Constraints([]), map[], [])

  // A map nested n deep.
  function Deep(n: nat): DescriptorMap
    requires n > 0
  {
    DescriptorMap("a", Jwt, "$", if n == 1 then None else Some(Deep(n - 1)))
  }

  // For any k and n there is a run that selects k items at a time under a map nested n deep
  // and appends as many inputs as the bound allows.
  lemma {:induction false} BoundIsReached(k: nat, n: nat, value: Json)
    requires n > 0
    ensures Depth(Deep(n)) == n && SelectsAtMost(Copying(k), Deep(n), value, k)
    ensures Traverse(Copying(k), Deep(n), value).error.None?
    ensures Size(Traverse(Copying(k), Deep(n), value).forest) == PowerSum(k, n)
    decreases n
  {
    PowerSumUnfold(k, n);
    if n > 1 {
      BoundIsReached(k, n - 1, value);
      PowerSumUnfold(k, n - 1);
    }
    if k > 0 {
      CopyReachesBound(k, n, value);
      CopiesReachBound(k, n, value, k);
    }
  }

  lemma CopyReachesBound(k: nat, n: nat, value: Json)
    requires k > 0 && n > 0
    requires n > 1 ==>
               var below := Traverse(Copying(k), Deep(n - 1), value);
               below.error.None? && Size(below.forest) == PowerSum(k, n - 1) > 0
    ensures var one := TraverseItem(Copying(k), Deep(n), ANYTHING, None, value);
            one.error.None? && Size(one.forest) == 1 + PowerSum(k, n - 1)
  {
  }

  lemma {:induction false} CopiesReachBound(k: nat, n: nat, value: Json, m: nat)
    requires n > 0
    requires var one := TraverseItem(Copying(k), Deep(n), ANYTHING, None, value);
             one.error.None? && Size(one.forest) == 1 + PowerSum(k, n - 1)
    ensures var y := TraverseItems(Copying(k), Deep(n), ANYTHING, None, Copies(m, value));
            y.error.None? && Size(y.forest) == m * (1 + PowerSum(k, n - 1))
    decreases m
  {
    if m > 0 {
      CopiesReachBound(k, n, value, m - 1);
      assert Copies(m, value)[..m - 1] == Copies(m - 1, value);
      SizeConcat(TraverseItems(Copying(k), Deep(n), ANYTHING, None, Copies(m - 1, value)).forest,
                 TraverseItem(Copying(k), Deep(n), ANYTHING, None, value).forest);
      Distribute(1 + PowerSum(k, n - 1), m - 1, 1);
    }
  }
}
