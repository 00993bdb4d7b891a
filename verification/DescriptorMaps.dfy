// Walking a descriptor map over a JSON value and collecting the inputs it selects
// (src/core/presentation_submission.rs, `DescriptorMap`).
module DescriptorMaps {
  import opened Wrappers
  import opened JsonValues
  import opened ClaimFormats
  import opened InputDescriptors
  import opened PresentationDefinitions
  import opened DecodedInputs
  import opened InputForests

  datatype DescriptorMap = DescriptorMap(
    id: string,
    format: ClaimFormatDesignation,
    path: JsonPath,
    pathNested: Option<DescriptorMap>)

  datatype ClaimDecodingError = UnknownFormat(format: ClaimFormatDesignation) | Invalid(message: string)

  datatype SubmissionValidationError =
    | MissingRequiredInput(id: string)
    | SelectionTooSmall(group: GroupId, min: nat, found: nat)
    | SelectionTooLarge(group: GroupId, max: nat, found: nat)
    | SelectionSizeMismatch(group: GroupId, expected: nat, found: nat)

  datatype SubmissionError =
    | Decoding(decodingError: ClaimDecodingError)
    | NestingUnsupported(format: ClaimFormatDesignation)
    | UndefinedInputDescriptor(id: string)
    | FormatMismatch(format: ClaimFormatDesignation)
    | Validation(validationError: SubmissionValidationError)

  // The application's claims decoder: any function.
  type ClaimsDecoder<T> =
    (Json, ClaimFormatDesignation, Option<ClaimFormatPayload>) -> Result<(T, Option<Json>), ClaimDecodingError>

  // Everything a traversal reads and never changes.
  datatype Context<T> = Context(
    ev: Evaluator,
    decoder: ClaimsDecoder<T>,
    definition: PresentationDefinition,
    descriptors: map<string, InputDescriptor>)

  // ---- What a traversal does, as a function ----

  // The trees of inputs appended, in order, and the error that ended the traversal, if any.
  // Without an error the roots of `forest` are the inputs of the descriptor map itself.
  datatype Yield<T> = Yield(forest: Forest<T>, error: Option<SubmissionError>)

  function FindFormatConstraint<T>(ctx: Context<T>, d: DescriptorMap, desc: InputDescriptor)
    : Result<Option<ClaimFormatPayload>, SubmissionError>
  {
    if d.format in desc.format then Ok(Some(desc.format[d.format]))
    else if desc.format == map[] then
      if d.format in ctx.definition.format then Ok(Some(ctx.definition.format[d.format]))
      else if ctx.definition.format == map[] then Ok(None)
      else Err(FormatMismatch(d.format))
    else Err(FormatMismatch(d.format))
  }

  function FindDescriptor<T>(ctx: Context<T>, d: DescriptorMap): Result<InputDescriptor, SubmissionError> {
    if d.id in ctx.descriptors then Ok(ctx.descriptors[d.id]) else Err(UndefinedInputDescriptor(d.id))
  }

  function Traverse<T>(ctx: Context<T>, d: DescriptorMap, value: Json): Yield<T>
    decreases d, 2
  {
    match FindDescriptor(ctx, d)
    case Err(e) => Yield(Empty, Some(e))
    case Ok(desc) =>
      match FindFormatConstraint(ctx, d, desc)
      case Err(e) => Yield(Empty, Some(e))
      case Ok(constraint) => TraverseItems(ctx, d, desc, constraint, ctx.ev.query(d.path, value))
  }

  function TraverseItems<T>(ctx: Context<T>, d: DescriptorMap, desc: InputDescriptor,
                            constraint: Option<ClaimFormatPayload>, items: seq<Json>): Yield<T>
    decreases d, 1, |items|
  {
    if items == [] then Yield(Empty, None)
    else
      var n := |items| - 1;
      var before := TraverseItems(ctx, d, desc, constraint, items[..n]);
      if before.error.Some? then before
      else
        var one := TraverseItem(ctx, d, desc, constraint, items[n]);
        Yield(Concat(before.forest, one.forest), one.error)
  }

  // Decodes an item and checks it against the descriptor's constraints; `None` when it does not match.
  function DecodeAndMatch<T>(ctx: Context<T>, d: DescriptorMap, desc: InputDescriptor,
                             constraint: Option<ClaimFormatPayload>, item: Json)
    : Result<Option<(T, Option<Json>)>, SubmissionError>
  {
    match ctx.decoder(item, d.format, constraint)
    case Err(e) => Err(Decoding(e))
    case Ok((decoded, json)) =>
      if desc.constraints.IsEmpty() then Ok(Some((decoded, json)))
      else if json.None? then Err(NestingUnsupported(d.format))
      else if !Matches(ctx.ev, desc.constraints, json.value) then Ok(None)
      else Ok(Some((decoded, json)))
  }

  function TraverseItem<T>(ctx: Context<T>, d: DescriptorMap, desc: InputDescriptor,
                           constraint: Option<ClaimFormatPayload>, item: Json): Yield<T>
    decreases d, 0
  {
    match DecodeAndMatch(ctx, d, desc, constraint, item)
    case Err(e) => Yield(Empty, Some(e))
    case Ok(None) => Yield(Empty, None)
    case Ok(Some((decoded, json))) =>
      match d.pathNested
      case None => Yield(Snoc(Empty, Node(d.id, d.format, decoded, Empty)), None)
      case Some(nested) =>
        if json.None? then Yield(Empty, Some(NestingUnsupported(d.format)))
        else
          var below := Traverse(ctx, nested, json.value);
          if below.error.Some? || below.forest == Empty then below
          else Yield(Snoc(Empty, Node(d.id, d.format, decoded, below.forest)), None)
  }

  // Decoder calls made by the traversal.
  function DecodeCalls<T>(ctx: Context<T>, d: DescriptorMap, value: Json): nat
    decreases d, 2
  {
    match FindDescriptor(ctx, d)
    case Err(_) => 0
    case Ok(desc) =>
      match FindFormatConstraint(ctx, d, desc)
      case Err(_) => 0
      case Ok(constraint) => DecodeCallsItems(ctx, d, desc, constraint, ctx.ev.query(d.path, value))
  }

  function DecodeCallsItems<T>(ctx: Context<T>, d: DescriptorMap, desc: InputDescriptor,
                               constraint: Option<ClaimFormatPayload>, items: seq<Json>): nat
    decreases d, 1, |items|
  {
    if items == [] then 0
    else
      var n := |items| - 1;
      DecodeCallsItems(ctx, d, desc, constraint, items[..n])
      + if TraverseItems(ctx, d, desc, constraint, items[..n]).error.Some? then 0
        else 1 + NestedDecodeCalls(ctx, d, desc, constraint, items[n])
  }

  function NestedDecodeCalls<T>(ctx: Context<T>, d: DescriptorMap, desc: InputDescriptor,
                                constraint: Option<ClaimFormatPayload>, item: Json): nat
    decreases d, 0
  {
    match DecodeAndMatch(ctx, d, desc, constraint, item)
    case Ok(Some((_, Some(json)))) => if d.pathNested.None? then 0 else DecodeCalls(ctx, d.pathNested.value, json)
    case _ => 0
  }

  function Outcome(base: nat, y: Yield): Result<seq<nat>, SubmissionError> {
    if y.error.Some? then Err(y.error.value) else Ok(Roots(base, y.forest))
  }

  // An error ends the traversal: what follows the failing item changes nothing.
  lemma {:induction false} ErrorEndsTraversal<T>(ctx: Context<T>, d: DescriptorMap, desc: InputDescriptor,
                                                 constraint: Option<ClaimFormatPayload>, items: seq<Json>, i: nat)
    requires i <= |items| && TraverseItems(ctx, d, desc, constraint, items[..i]).error.Some?
    ensures TraverseItems(ctx, d, desc, constraint, items) == TraverseItems(ctx, d, desc, constraint, items[..i])
    ensures DecodeCallsItems(ctx, d, desc, constraint, items) == DecodeCallsItems(ctx, d, desc, constraint, items[..i])
    decreases |items|
  {
    if i == |items| {
      assert items[..i] == items;
    } else {
      var init := items[..|items| - 1];
      assert init[..i] == items[..i];
      ErrorEndsTraversal(ctx, d, desc, constraint, init, i);
    }
  }

  // ---- The traversal over the shared list of inputs ----

  // A run that found `now` from `start` with `forest` appended.
  ghost predicate Appended<T>(start: seq<DecodedInput<T>>, now: seq<DecodedInput<T>>, forest: Forest<T>) {
    now == start + Flatten(|start|, forest)
  }

  lemma AppendedTwice<T>(start: seq<DecodedInput<T>>, mid: seq<DecodedInput<T>>, now: seq<DecodedInput<T>>,
                         a: Forest<T>, b: Forest<T>)
    requires Appended(start, mid, a) && Appended(mid, now, b)
    ensures Appended(start, now, Concat(a, b))
    ensures Roots(|start|, Concat(a, b)) == Roots(|start|, a) + Roots(|mid|, b)
  {
    var n, first, second := |start|, Flatten(|start|, a), Flatten(|mid|, b);
    LayoutConcat(n, a, |mid|, b);
    ConcatAssociates(start, first, second);
  }

  function ToSeq<A>(o: Option<A>): seq<A> {
    if o.Some? then [o.value] else []
  }

  // One item was handled as `TraverseItem` says.
  ghost predicate ItemHandled<T>(ctx: Context<T>, d: DescriptorMap, desc: InputDescriptor,
                                 constraint: Option<ClaimFormatPayload>, item: Json,
                                 start: seq<DecodedInput<T>>, now: seq<DecodedInput<T>>,
                                 r: Result<Option<nat>, SubmissionError>)
  {
    var one := TraverseItem(ctx, d, desc, constraint, item);
    && Appended(start, now, one.forest)
    && match r
       case Err(e) => one.error == Some(e)
       case Ok(index) => one.error == None && Roots(|start|, one.forest) == ToSeq(index)
  }

  // A prefix of the items was handled without error.
  ghost predicate PrefixHandled<T>(ctx: Context<T>, d: DescriptorMap, desc: InputDescriptor,
                                   constraint: Option<ClaimFormatPayload>, prefix: seq<Json>,
                                   start: seq<DecodedInput<T>>, now: seq<DecodedInput<T>>, result: seq<nat>)
  {
    var y := TraverseItems(ctx, d, desc, constraint, prefix);
    && y.error == None
    && Appended(start, now, y.forest)
    && result == Roots(|start|, y.forest)
  }

  lemma PrefixGrows<T>(ctx: Context<T>, d: DescriptorMap, desc: InputDescriptor, constraint: Option<ClaimFormatPayload>,
                       items: seq<Json>, i: nat, start: seq<DecodedInput<T>>, mid: seq<DecodedInput<T>>,
                       now: seq<DecodedInput<T>>, result: seq<nat>, r: Result<Option<nat>, SubmissionError>)
    requires i < |items|
    requires PrefixHandled(ctx, d, desc, constraint, items[..i], start, mid, result)
    requires ItemHandled(ctx, d, desc, constraint, items[i], mid, now, r)
    ensures DecodeCallsItems(ctx, d, desc, constraint, items[..i + 1]) ==
            DecodeCallsItems(ctx, d, desc, constraint, items[..i]) + 1
            + NestedDecodeCalls(ctx, d, desc, constraint, items[i])
    ensures r.Ok? ==> PrefixHandled(ctx, d, desc, constraint, items[..i + 1], start, now, result + ToSeq(r.value))
    ensures r.Err? ==>
              var y := TraverseItems(ctx, d, desc, constraint, items);
              && y.error == Some(r.error)
              && Appended(start, now, y.forest)
              && DecodeCallsItems(ctx, d, desc, constraint, items) ==
                 DecodeCallsItems(ctx, d, desc, constraint, items[..i + 1])
  {
    assert items[..i + 1][..i] == items[..i];
    AppendedTwice(start, mid, now, TraverseItems(ctx, d, desc, constraint, items[..i]).forest,
                  TraverseItem(ctx, d, desc, constraint, items[i]).forest);
    if r.Err? {
      ErrorEndsTraversal(ctx, d, desc, constraint, items, i + 1);
    }
  }

  // The children of the tree that an accepted item becomes.
  ghost function ChildrenOf<T>(ctx: Context<T>, d: DescriptorMap, json: Option<Json>): Forest<T> {
    if d.pathNested.Some? && json.Some? then Traverse(ctx, d.pathNested.value, json.value).forest else Empty
  }

  // Pushing the item's own input after its nested ones completes the item.
  lemma ItemPushed<T>(ctx: Context<T>, d: DescriptorMap, desc: InputDescriptor, constraint: Option<ClaimFormatPayload>,
                      item: Json, start: seq<DecodedInput<T>>, laidOut: seq<DecodedInput<T>>,
                      decoded: T, json: Option<Json>, nested: seq<nat>)
    requires DecodeAndMatch(ctx, d, desc, constraint, item) == Ok(Some((decoded, json)))
    requires d.pathNested.Some? ==>
               json.Some? && nested != [] && Traverse(ctx, d.pathNested.value, json.value).error.None?
    requires Appended(start, laidOut, ChildrenOf(ctx, d, json))
    requires nested == Roots(|start|, ChildrenOf(ctx, d, json))
    ensures forall k :: 0 <= k < |nested| ==> nested[k] < |laidOut|
    ensures var input := DecodedInput(d.id, d.format, decoded, Grouped(IdsAt(laidOut, nested), nested));
            ItemHandled(ctx, d, desc, constraint, item, start, laidOut + [input], Ok(Some(|laidOut|)))
  {
    var t := Node(d.id, d.format, decoded, ChildrenOf(ctx, d, json));
    assert t.children == Empty ==> Roots(|start|, t.children) == [];
    assert TraverseItem(ctx, d, desc, constraint, item) == Yield(Snoc(Empty, t), None);
    GroupedIsEntry(start, laidOut, t);
    RootsOfOne(|start|, t, |laidOut|);
  }

  // Grouping the roots just laid out by their ids gives the nested index of their parent.
  lemma GroupedIsEntry<T>(start: seq<DecodedInput<T>>, laidOut: seq<DecodedInput<T>>, t: Tree<T>)
    requires Appended(start, laidOut, t.children)
    ensures var roots := Roots(|start|, t.children);
            && (forall k :: 0 <= k < |roots| ==> roots[k] < |laidOut|)
            && Grouped(IdsAt(laidOut, roots), roots) == Entry(|start|, t).nested
            && Appended(start, laidOut + [Entry(|start|, t)], Snoc(Empty, t))
  {
    var base, roots := |start|, Roots(|start|, t.children);
    forall k | 0 <= k < |roots|
      ensures roots[k] < |laidOut| && laidOut[roots[k]].descriptorId == RootIds(t.children)[k]
    {
      IdsAtRoots(base, t.children, k);
    }
    assert IdsAt(laidOut, roots) == RootIds(t.children);
    ConcatAssociates(start, Flatten(base, t.children), [Entry(base, t)]);
    assert Flatten(base, Snoc(Empty, t)) == FlattenTree(base, t);
  }

  method FindInputs<T>(d: DescriptorMap, definition: PresentationDefinition, value: Json,
                       ev: Evaluator, decoder: ClaimsDecoder<T>, inputs: InputList<T>)
    returns (r: Result<seq<nat>, SubmissionError>)
    modifies inputs
    ensures var y := Traverse(Context(ev, decoder, definition, InputDescriptorsMap(definition)), d, value);
            && Appended(old(inputs.items), inputs.items, y.forest)
            && r == Outcome(|old(inputs.items)|, y)
  {
    var ctx := Context(ev, decoder, definition, InputDescriptorsMap(definition));
    ghost var calls;
    r, calls := FindInputsWith(ctx, d, value, inputs);
  }

  method FindInputsWith<T>(ctx: Context<T>, d: DescriptorMap, value: Json, inputs: InputList<T>)
    returns (r: Result<seq<nat>, SubmissionError>, ghost calls: nat)
    modifies inputs
    ensures var y := Traverse(ctx, d, value);
            && Appended(old(inputs.items), inputs.items, y.forest)
            && r == Outcome(|old(inputs.items)|, y)
    ensures calls == DecodeCalls(ctx, d, value)
    decreases d, 1
  {
    var result := [];
    calls := 0;
    var found := FindDescriptor(ctx, d);
    if found.Err? {
      return Err(found.error), calls;
    }
    var desc := found.value;
    var allowed := FindFormatConstraint(ctx, d, desc);
    if allowed.Err? {
      return Err(allowed.error), calls;
    }
    var constraint := allowed.value;
    var items := ctx.ev.query(d.path, value);

    for i := 0 to |items|
      invariant PrefixHandled(ctx, d, desc, constraint, items[..i], old(inputs.items), inputs.items, result)
      invariant calls == DecodeCallsItems(ctx, d, desc, constraint, items[..i])
    {
      var selected;
      ghost var more;
      ghost var mid := inputs.items;
      selected, more := FindItem(ctx, d, desc, constraint, items[i], inputs);
      PrefixGrows(ctx, d, desc, constraint, items, i, old(inputs.items), mid, inputs.items, result, selected);
      calls := calls + more;
      if selected.Err? {
        return Err(selected.error), calls;
      }
      if selected.value.None? {
        assert result + ToSeq(selected.value) == result;
        continue;
      }
      result := result + [selected.value.value];
    }
    assert items[..|items|] == items;
    return Ok(result), calls;
  }

  // One selected item: nothing is pushed when it does not match or nothing nested in it does.
  method FindItem<T>(ctx: Context<T>, d: DescriptorMap, desc: InputDescriptor, constraint: Option<ClaimFormatPayload>,
                     item: Json, inputs: InputList<T>)
    returns (r: Result<Option<nat>, SubmissionError>, ghost calls: nat)
    modifies inputs
    ensures ItemHandled(ctx, d, desc, constraint, item, old(inputs.items), inputs.items, r)
    ensures calls == 1 + NestedDecodeCalls(ctx, d, desc, constraint, item)
    decreases d, 0
  {
    calls := 1;
    var answer := DecodeAndMatch(ctx, d, desc, constraint, item);
    if answer.Err? {
      return Err(answer.error), calls;
    }
    if answer.value.None? {
      return Ok(None), calls;
    }
    var (decoded, json) := answer.value.value;

    var nested := [];
    if d.pathNested.Some? {
      if json.None? {
        return Err(NestingUnsupported(d.format)), calls;
      }
      ghost var more;
      var below;
      below, more := FindInputsWith(ctx, d.pathNested.value, json.value, inputs);
      calls := calls + more;
      if below.Err? {
        return Err(below.error), calls;
      }
      nested := below.value;
      if nested == [] {
        return Ok(None), calls;
      }
    }

    ItemPushed(ctx, d, desc, constraint, item, old(inputs.items), inputs.items, decoded, json, nested);
    var groups := GroupByInputDescriptor(inputs.items, nested);
    var index := |inputs.items|;
    inputs.Push(DecodedInput(d.id, d.format, decoded, groups));
    return Ok(Some(index)), calls;
  }
}
