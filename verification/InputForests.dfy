// The forest of inputs behind an input list, and how a list lays it out: children before
// their parent, siblings in order, links by position.
module InputForests {
  import opened Wrappers
  import opened ClaimFormats
  import opened DecodedInputs

  datatype Tree<T> = Node(
    id: string,
    format: ClaimFormatDesignation,
    value: T,
    children: Forest<T>)

  datatype Forest<T> = Empty | Snoc(init: Forest<T>, last: Tree<T>)

  function Concat<T>(a: Forest<T>, b: Forest<T>): Forest<T> {
    match b
    case Empty => a
    case Snoc(init, last) => Snoc(Concat(a, init), last)
  }

  function Size<T>(f: Forest<T>): nat {
    match f
    case Empty => 0
    case Snoc(init, last) => Size(init) + Size(last.children) + 1
  }

  // The ids of the roots, in order.
  function RootIds<T>(f: Forest<T>): seq<string> {
    match f
    case Empty => []
    case Snoc(init, last) => RootIds(init) + [last.id]
  }

  // The positions of the roots of `f`, laid out from position `base` on.
  function Roots<T>(base: nat, f: Forest<T>): (r: seq<nat>)
    ensures |r| == |RootIds(f)|
  {
    match f
    case Empty => []
    case Snoc(init, last) => Roots(base, init) + [base + Size(init) + Size(last.children)]
  }

  // The list entry of the root of `t`: its nested index groups its children's positions.
  function Entry<T>(base: nat, t: Tree<T>): DecodedInput<T> {
    DecodedInput(t.id, t.format, t.value, Grouped(RootIds(t.children), Roots(base, t.children)))
  }

  function FlattenTree<T>(base: nat, t: Tree<T>): (s: seq<DecodedInput<T>>)
    ensures |s| == Size(t.children) + 1
    decreases t
  {
    Flatten(base, t.children) + [Entry(base, t)]
  }

  function Flatten<T>(base: nat, f: Forest<T>): (s: seq<DecodedInput<T>>)
    ensures |s| == Size(f)
    decreases f
  {
    match f
    case Empty => []
    case Snoc(init, last) =>
      Flatten(base, init) + FlattenTree(base + Size(init), last)
  }

  // ---- Laying out one forest after another ----

  lemma {:induction false} SizeConcat<T>(a: Forest<T>, b: Forest<T>)
    ensures Size(Concat(a, b)) == Size(a) + Size(b)
  {
    if b.Snoc? {
      SizeConcat(a, b.init);
    }
  }

  lemma {:induction false} RootsConcat<T>(base: nat, a: Forest<T>, b: Forest<T>)
    ensures Roots(base, Concat(a, b)) == Roots(base, a) + Roots(base + Size(a), b)
  {
    if b.Snoc? {
      RootsConcat(base, a, b.init);
      SizeConcat(a, b.init);
    }
  }

  lemma ConcatAssociates<A>(a: seq<A>, b: seq<A>, c: seq<A>)
    ensures (a + b) + c == a + (b + c)
  {
  }

  lemma {:induction false} FlattenConcat<T>(base: nat, a: Forest<T>, b: Forest<T>)
    ensures Flatten(base, Concat(a, b)) == Flatten(base, a) + Flatten(base + Size(a), b)
  {
    if b.Snoc? {
      var mid := base + Size(a) + Size(b.init);
      FlattenConcat(base, a, b.init);
      SizeConcat(a, b.init);
      ConcatAssociates(Flatten(base, a), Flatten(base + Size(a), b.init), FlattenTree(mid, b.last));
    }
  }

  // The same with the position `mid` where the second forest starts named.
  lemma LayoutConcat<T>(base: nat, a: Forest<T>, mid: nat, b: Forest<T>)
    requires mid == base + Size(a)
    ensures Flatten(base, Concat(a, b)) == Flatten(base, a) + Flatten(mid, b)
    ensures Roots(base, Concat(a, b)) == Roots(base, a) + Roots(mid, b)
  {
    FlattenConcat(base, a, b);
    RootsConcat(base, a, b);
  }

  lemma RootsOfOne<T>(base: nat, t: Tree<T>, end: nat)
    requires end == base + Size(t.children)
    ensures Roots(base, Snoc(Empty, t)) == [end]
  {
  }

  // Root positions lie inside the layout and increase.
  lemma {:induction false} RootsInRange<T>(base: nat, f: Forest<T>)
    ensures forall r :: r in Roots(base, f) ==> base <= r < base + Size(f)
    ensures Increasing(Roots(base, f))
  {
    if f.Snoc? {
      RootsInRange(base, f.init);
      assert forall i :: 0 <= i < |Roots(base, f.init)| ==> Roots(base, f.init)[i] in Roots(base, f.init);
    }
  }

  // The inputs at the root positions carry the roots' ids.
  lemma {:induction false} IdsAtRoots<T>(base: nat, f: Forest<T>, k: nat)
    requires k < |Roots(base, f)|
    ensures base <= Roots(base, f)[k] < base + Size(f)
    ensures Flatten(base, f)[Roots(base, f)[k] - base].descriptorId == RootIds(f)[k]
  {
    if k < |Roots(base, f.init)| {
      IdsAtRoots(base, f.init, k);
    }
  }

  // ---- A layout depends on where it starts only by a shift of its links ----

  function ShiftAll(k: nat, indices: seq<nat>): seq<nat> {
    seq(|indices|, i requires 0 <= i < |indices| => indices[i] + k)
  }

  function ShiftInput<T>(k: nat, input: DecodedInput<T>): DecodedInput<T> {
    input.(nested := map id | id in input.nested :: ShiftAll(k, input.nested[id]))
  }

  function ShiftInputs<T>(k: nat, inputs: seq<DecodedInput<T>>): seq<DecodedInput<T>> {
    seq(|inputs|, i requires 0 <= i < |inputs| => ShiftInput(k, inputs[i]))
  }

  lemma {:induction false} RootsShift<T>(base: nat, k: nat, to: nat, f: Forest<T>)
    requires to == base + k
    ensures Roots(to, f) == ShiftAll(k, Roots(base, f))
  {
    if f.Snoc? {
      RootsShift(base, k, to, f.init);
    }
  }

  lemma {:induction false} IndicesOfShift(ids: seq<string>, indices: seq<nat>, k: nat, id: string)
    requires |ids| == |indices|
    ensures IndicesOf(ids, ShiftAll(k, indices), id) == ShiftAll(k, IndicesOf(ids, indices, id))
  {
    if ids != [] {
      var n := |ids| - 1;
      assert ShiftAll(k, indices)[..n] == ShiftAll(k, indices[..n]);
      IndicesOfShift(ids[..n], indices[..n], k, id);
    }
  }

  lemma EntryShift<T>(base: nat, k: nat, to: nat, t: Tree<T>)
    requires to == base + k
    ensures Entry(to, t) == ShiftInput(k, Entry(base, t))
  {
    var ids, roots := RootIds(t.children), Roots(base, t.children);
    RootsShift(base, k, to, t.children);
    forall id | id in ids
      ensures Grouped(ids, ShiftAll(k, roots))[id] == ShiftAll(k, Grouped(ids, roots)[id])
    {
      IndicesOfShift(ids, roots, k, id);
    }
    assert Entry(to, t).nested == ShiftInput(k, Entry(base, t)).nested;
  }

  lemma ShiftInputsConcat<T>(k: nat, a: seq<DecodedInput<T>>, b: seq<DecodedInput<T>>)
    ensures ShiftInputs(k, a + b) == ShiftInputs(k, a) + ShiftInputs(k, b)
  {
  }

  // Laid out from `to` instead of `base`, a forest is the same but for a shift of its links.
  lemma {:induction false} FlattenShift<T>(base: nat, k: nat, to: nat, f: Forest<T>)
    requires to == base + k
    ensures Flatten(to, f) == ShiftInputs(k, Flatten(base, f))
    decreases f
  {
    if f.Snoc? {
      var mid, mid' := base + Size(f.init), to + Size(f.init);
      FlattenShift(base, k, to, f.init);
      TreeShift(mid, k, mid', f.last);
      ShiftInputsConcat(k, Flatten(base, f.init), FlattenTree(mid, f.last));
    }
  }

  lemma {:induction false} TreeShift<T>(base: nat, k: nat, to: nat, t: Tree<T>)
    requires to == base + k
    ensures FlattenTree(to, t) == ShiftInputs(k, FlattenTree(base, t))
    decreases t
  {
    FlattenShift(base, k, to, t.children);
    EntryShift(base, k, to, t);
    ShiftInputsConcat(k, Flatten(base, t.children), [Entry(base, t)]);
    assert ShiftInputs(k, [Entry(base, t)]) == [Entry(to, t)];
  }

  // ---- Links: every input has at most one parent, which comes later in the list ----

  ghost predicate ListedUnder<T>(input: DecodedInput<T>, id: string, c: nat) {
    id in input.nested && c in input.nested[id]
  }

  ghost predicate Lists<T>(input: DecodedInput<T>, c: nat) {
    exists id :: ListedUnder(input, id, c)
  }

  // In `seg`, laid out from `base`, the input at `p` lists position `c` among its nested ones.
  ghost predicate Links<T>(base: nat, seg: seq<DecodedInput<T>>, p: nat, c: nat) {
    base <= p < base + |seg| && Lists(seg[p - base], c)
  }

  // The position of the parent of the input at `c`; `up` is the parent of the roots.
  function ParentOf<T>(base: nat, f: Forest<T>, up: Option<nat>, c: nat): Option<nat>
    requires base <= c < base + Size(f)
    decreases f
  {
    var mid, end := base + Size(f.init), base + Size(f);
    if c < mid then ParentOf(base, f.init, up, c)
    else if c < end - 1 then ParentOf(mid, f.last.children, Some(end - 1), c)
    else up
  }

  lemma {:induction false} ParentOfMeaning<T>(base: nat, f: Forest<T>, up: Option<nat>, c: nat)
    requires base <= c < base + Size(f)
    ensures c in Roots(base, f) ==> ParentOf(base, f, up, c) == up
    ensures c !in Roots(base, f) ==>
              ParentOf(base, f, up, c).Some? && c < ParentOf(base, f, up, c).value < base + Size(f)
    decreases f
  {
    var mid, end := base + Size(f.init), base + Size(f);
    RootsInRange(base, f.init);
    if c < mid {
      ParentOfMeaning(base, f.init, up, c);
    } else if c < end - 1 {
      ParentOfMeaning(mid, f.last.children, Some(end - 1), c);
    }
  }

  lemma EntryLinks<T>(base: nat, t: Tree<T>, c: nat)
    ensures Lists(Entry(base, t), c) <==> c in Roots(base, t.children)
  {
    var ids, roots := RootIds(t.children), Roots(base, t.children);
    RootsInRange(base, t.children);
    if id :| ListedUnder(Entry(base, t), id, c) {
      IndicesOfMeaning(ids, roots, id);
    }
    if c in roots {
      var k :| 0 <= k < |roots| && roots[k] == c;
      IndicesOfMeaning(ids, roots, ids[k]);
      assert ListedUnder(Entry(base, t), ids[k], c);
    }
  }

  lemma LinksInParts<T>(base: nat, a: seq<DecodedInput<T>>, b: seq<DecodedInput<T>>, p: nat, c: nat)
    ensures Links(base, a + b, p, c) <==> Links(base, a, p, c) || Links(base + |a|, b, p, c)
  {
  }

  // The links of a layout are exactly the parent relation of its forest.
  lemma {:induction false} LinksAreParents<T>(base: nat, f: Forest<T>, up: Option<nat>, p: nat, c: nat)
    requires base <= p < base + Size(f)
    requires up.Some? ==> up.value >= base + Size(f)
    ensures Links(base, Flatten(base, f), p, c) <==>
            base <= c < base + Size(f) && ParentOf(base, f, up, c) == Some(p)
    decreases f
  {
    var mid, end, t := base + Size(f.init), base + Size(f), f.last;
    LinksInParts(base, Flatten(base, f.init), FlattenTree(mid, t), p, c);
    if p < mid {
      LinksAreParents(base, f.init, up, p, c);
    } else {
      TreeLinksAreParents(mid, t, p, c);
    }
    if base <= c < mid {
      ParentOfMeaning(base, f.init, up, c);
    } else if mid <= c < end - 1 {
      ParentOfMeaning(mid, t.children, Some(end - 1), c);
    }
  }

  lemma {:induction false} TreeLinksAreParents<T>(base: nat, t: Tree<T>, p: nat, c: nat)
    requires base <= p <= base + Size(t.children)
    ensures Links(base, FlattenTree(base, t), p, c) <==>
            base <= c < base + Size(t.children)
            && ParentOf(base, t.children, Some(base + Size(t.children)), c) == Some(p)
    decreases t
  {
    var end := base + Size(t.children);
    LinksInParts(base, Flatten(base, t.children), [Entry(base, t)], p, c);
    if p < end {
      LinksAreParents(base, t.children, Some(end), p, c);
    } else {
      EntryLinks(base, t, c);
      RootsInRange(base, t.children);
    }
    if base <= c < end {
      ParentOfMeaning(base, t.children, Some(end), c);
    }
  }

  lemma LinkGoesBack<T>(base: nat, f: Forest<T>, p: nat, c: nat)
    requires Links(base, Flatten(base, f), p, c)
    ensures base <= c < p && c < base + Size(f) && ParentOf(base, f, None, c) == Some(p)
  {
    LinksAreParents(base, f, None, p, c);
    ParentOfMeaning(base, f, None, c);
  }

  // A list laid out from a forest is itself a forest: links point backwards, no input is
  // listed by two others, and the inputs nobody lists are exactly the roots.
  lemma LayoutIsForest<T>(base: nat, f: Forest<T>)
    ensures var seg := Flatten(base, f);
            && (forall p: nat, c: nat :: Links(base, seg, p, c) ==> base <= c < p)
            && (forall p: nat, q: nat, c: nat :: Links(base, seg, p, c) && Links(base, seg, q, c) ==> p == q)
            && (forall c: nat :: c in Roots(base, f) <==>
                  base <= c < base + |seg| && !exists p: nat :: Links(base, seg, p, c))
  {
    var seg := Flatten(base, f);
    forall p: nat, c: nat | Links(base, seg, p, c)
      ensures base <= c < p && c < base + Size(f) && ParentOf(base, f, None, c) == Some(p)
    {
      LinkGoesBack(base, f, p, c);
    }
    RootsInRange(base, f);
    forall c: nat | base <= c < base + Size(f)
      ensures c in Roots(base, f) <==> !exists p: nat :: Links(base, seg, p, c)
    {
      ParentOfMeaning(base, f, None, c);
      if c !in Roots(base, f) {
        LinksAreParents(base, f, None, ParentOf(base, f, None, c).value, c);
      }
    }
  }

  // ---- Reading the forest back out of a list ----

  ghost predicate PointsBackwards<T>(items: seq<DecodedInput<T>>) {
    forall i: nat, c: nat :: i < |items| && Lists(items[i], c) ==> c < i
  }

  lemma LayoutPointsBackwards<T>(f: Forest<T>)
    ensures PointsBackwards(Flatten(0, f))
  {
    var items := Flatten(0, f);
    forall i: nat, c: nat | i < |items| && Lists(items[i], c)
      ensures c < i
    {
      assert items[i - 0] == items[i];
      LinkGoesBack(0, f, i, c);
    }
  }

  ghost predicate Below(indices: seq<nat>, limit: nat) {
    forall k :: 0 <= k < |indices| ==> indices[k] < limit
  }

  // The nested indices of an input that groups all of them under one id, or has none.
  ghost function NestedIndices<T>(input: DecodedInput<T>): (r: seq<nat>)
    ensures forall k :: 0 <= k < |r| ==> Lists(input, r[k])
  {
    if id :| id in input.nested then
      var r := input.nested[id];
      assert forall k :: 0 <= k < |r| ==> ListedUnder(input, id, r[k]);
      r
    else []
  }

  ghost function ReadTree<T>(items: seq<DecodedInput<T>>, i: nat): Tree<T>
    requires PointsBackwards(items) && i < |items|
    decreases i + 1, 0
  {
    var input := items[i];
    Node(input.descriptorId, input.format, input.value, ReadForest(items, i, NestedIndices(input)))
  }

  // The forest under `indices`, all of which are below `limit`.
  ghost function ReadForest<T>(items: seq<DecodedInput<T>>, limit: nat, indices: seq<nat>): Forest<T>
    requires PointsBackwards(items) && limit <= |items| && Below(indices, limit)
    decreases limit, |indices|
  {
    if indices == [] then Empty
    else
      var n := |indices| - 1;
      Snoc(ReadForest(items, limit, indices[..n]), ReadTree(items, indices[n]))
  }

  // All the children of any one node carry the same id.
  ghost predicate Uniform<T>(f: Forest<T>) {
    f.Snoc? ==>
      && Uniform(f.init)
      && Uniform(f.last.children)
      && forall k :: 0 <= k < |RootIds(f.last.children)| ==> RootIds(f.last.children)[k] == RootIds(f.last.children)[0]
  }

  lemma {:induction false} IndicesOfUniform(ids: seq<string>, indices: seq<nat>, id: string)
    requires |ids| == |indices|
    requires forall k :: 0 <= k < |ids| ==> ids[k] == id
    ensures IndicesOf(ids, indices, id) == indices
  {
    if ids != [] {
      var n := |ids| - 1;
      IndicesOfUniform(ids[..n], indices[..n], id);
      assert indices == indices[..n] + [indices[n]];
    }
  }

  lemma GroupedUniform(ids: seq<string>, indices: seq<nat>, id: string)
    requires |ids| == |indices| && ids != []
    requires forall k :: 0 <= k < |ids| ==> ids[k] == id
    ensures Grouped(ids, indices) == map[id := indices]
  {
    assert ids[0] == id;
    IndicesOfUniform(ids, indices, id);
  }

  lemma UniformEntry<T>(base: nat, t: Tree<T>)
    requires Uniform(Snoc(Empty, t))
    ensures NestedIndices(Entry(base, t)) == Roots(base, t.children)
  {
    var ids := RootIds(t.children);
    if ids != [] {
      GroupedUniform(ids, Roots(base, t.children), ids[0]);
      assert ids[0] in Entry(base, t).nested;
    }
  }

  lemma {:induction false} ReadForestAnyLimit<T>(items: seq<DecodedInput<T>>, a: nat, b: nat, indices: seq<nat>)
    requires PointsBackwards(items) && a <= |items| && b <= |items|
    requires Below(indices, a) && Below(indices, b)
    ensures ReadForest(items, a, indices) == ReadForest(items, b, indices)
    decreases |indices|
  {
    if indices != [] {
      ReadForestAnyLimit(items, a, b, indices[..|indices| - 1]);
    }
  }

  // `part` stands in `items` from position `base` on.
  ghost predicate StandsAt<A>(items: seq<A>, base: nat, part: seq<A>) {
    base + |part| <= |items| && items[base..base + |part|] == part
  }

  lemma StandsAtParts<A>(items: seq<A>, base: nat, a: seq<A>, mid: nat, b: seq<A>)
    requires StandsAt(items, base, a + b) && mid == base + |a|
    ensures StandsAt(items, base, a) && StandsAt(items, mid, b)
  {
    var whole := items[base..base + |a + b|];
    assert whole[..|a|] == a && whole[|a|..] == b;
  }

  lemma StandsAtOne<A>(items: seq<A>, base: nat, x: A)
    requires StandsAt(items, base, [x])
    ensures base < |items| && items[base] == x
  {
    assert items[base] == items[base..base + 1][0];
  }

  lemma ReadForestSnoc<T>(items: seq<DecodedInput<T>>, limit: nat, indices: seq<nat>, i: nat)
    requires PointsBackwards(items) && i < limit <= |items| && Below(indices, limit)
    ensures Below(indices + [i], limit)
    ensures ReadForest(items, limit, indices + [i]) == Snoc(ReadForest(items, limit, indices), ReadTree(items, i))
  {
    assert (indices + [i])[..|indices|] == indices;
  }

  lemma ReadRoots<T>(items: seq<DecodedInput<T>>, base: nat, f: Forest<T>, end: nat)
    requires PointsBackwards(items)
    requires f.Snoc? && end == base + Size(f.init) + Size(f.last.children)
    requires Below(Roots(base, f.init), |items|) && end < |items|
    requires ReadForest(items, |items|, Roots(base, f.init)) == f.init && ReadTree(items, end) == f.last
    ensures Below(Roots(base, f), |items|)
    ensures ReadForest(items, |items|, Roots(base, f)) == f
  {
    assert Roots(base, f) == Roots(base, f.init) + [end];
    ReadForestSnoc(items, |items|, Roots(base, f.init), end);
  }

  // Following the links of a list from the root positions of a forest laid out in it gives
  // that forest back, whatever else the list holds before and after.
  lemma {:induction false} ReadBack<T>(items: seq<DecodedInput<T>>, base: nat, f: Forest<T>)
    requires StandsAt(items, base, Flatten(base, f))
    requires PointsBackwards(items) && Uniform(f)
    ensures Below(Roots(base, f), |items|)
    ensures ReadForest(items, |items|, Roots(base, f)) == f
    decreases f
  {
    if f.Snoc? {
      var mid := base + Size(f.init);
      var end := mid + Size(f.last.children);
      StandsAtParts(items, base, Flatten(base, f.init), mid, FlattenTree(mid, f.last));
      ReadBack(items, base, f.init);
      ReadTreeBack(items, mid, f.last, end);
      ReadRoots(items, base, f, end);
    }
  }

  lemma {:induction false} ReadTreeBack<T>(items: seq<DecodedInput<T>>, base: nat, t: Tree<T>, end: nat)
    requires StandsAt(items, base, FlattenTree(base, t)) && end == base + Size(t.children)
    requires PointsBackwards(items) && Uniform(Snoc(Empty, t))
    ensures end < |items| && ReadTree(items, end) == t
    decreases t
  {
    StandsAtParts(items, base, Flatten(base, t.children), end, [Entry(base, t)]);
    StandsAtOne(items, end, Entry(base, t));
    ReadBack(items, base, t.children);
    ReadEntry(items, base, t, end);
  }

  lemma ReadEntry<T>(items: seq<DecodedInput<T>>, base: nat, t: Tree<T>, end: nat)
    requires end == base + Size(t.children) && end < |items| && items[end] == Entry(base, t)
    requires PointsBackwards(items) && Uniform(Snoc(Empty, t))
    requires Below(Roots(base, t.children), |items|)
    requires ReadForest(items, |items|, Roots(base, t.children)) == t.children
    ensures ReadTree(items, end) == t
  {
    UniformEntry(base, t);
    RootsBelow(base, t.children, end);
    ReadNode(items, end, t, Roots(base, t.children));
  }

  lemma RootsBelow<T>(base: nat, f: Forest<T>, end: nat)
    requires end == base + Size(f)
    ensures Below(Roots(base, f), end)
  {
    RootsInRange(base, f);
    assert forall k :: 0 <= k < |Roots(base, f)| ==> Roots(base, f)[k] in Roots(base, f);
  }

  lemma ReadNode<T>(items: seq<DecodedInput<T>>, i: nat, t: Tree<T>, indices: seq<nat>)
    requires PointsBackwards(items) && i < |items|
    requires items[i].descriptorId == t.id && items[i].format == t.format && items[i].value == t.value
    requires NestedIndices(items[i]) == indices && Below(indices, i) && Below(indices, |items|)
    requires ReadForest(items, |items|, indices) == t.children
    ensures ReadTree(items, i) == t
  {
    ReadForestAnyLimit(items, i, |items|, indices);
  }
}
