// Submission requirements (src/core/presentation_definition.rs, `SubmissionRequirement`)
// and the validation of matching inputs (src/core/presentation_submission.rs, `MatchingInputs`).
module SubmissionRequirements {
  import opened Wrappers
  import opened InputDescriptors
  import opened PresentationDefinitions
  import opened DecodedInputs
  import opened DescriptorMaps

  // The inputs and their positions grouped by descriptor id.
  datatype MatchingInputs<T> = MatchingInputs(
    inputs: seq<DecodedInput<T>>,
    byDescriptor: map<string, seq<nat>>)

  // A `from` requirement, with the bounds of a `pick`.
  datatype Leaf = Leaf(group: GroupId, pick: Option<SubmissionRequirementPick>)

  // The `from` leaves of a requirement tree, left to right.
  function Leaves(r: SubmissionRequirement): seq<Leaf>
    decreases r
  {
    match r
    case All(From(group)) => [Leaf(group, None)]
    case All(FromNested(rs)) => LeavesOf(rs)
    case Pick(p) =>
      match p.submissionRequirement
      case From(group) => [Leaf(group, Some(p))]
      case FromNested(rs) => LeavesOf(rs)
  }

  function LeavesOf(rs: seq<SubmissionRequirement>): seq<Leaf>
    decreases rs
  {
    if rs == [] then []
    else
      var n := |rs| - 1;
      LeavesOf(rs[..n]) + Leaves(rs[n])
  }

  function GroupIds(definition: PresentationDefinition, group: GroupId): set<string> {
    set d | d in definition.inputDescriptors && group in d.groups :: d.id
  }

  // How many of `names` are in `ids`.
  function CountIn(ids: set<string>, names: seq<string>): nat {
    if names == [] then 0
    else
      var n := |names| - 1;
      CountIn(ids, names[..n]) + if names[n] in ids then 1 else 0
  }

  predicate WithinPick(p: SubmissionRequirementPick, found: nat) {
    && (p.min.Some? ==> found >= p.min.value)
    && (p.max.Some? ==> found <= p.max.value)
    && (p.count.Some? ==> found == p.count.value)
  }

  predicate LeafSatisfied<T>(leaf: Leaf, definition: PresentationDefinition, m: MatchingInputs<T>) {
    var ids := GroupIds(definition, leaf.group);
    match leaf.pick
    case None => forall id :: id in ids ==> id in m.byDescriptor
    case Some(p) => WithinPick(p, CountIn(ids, IdsOf(m.inputs)))
  }

  // ---- What a group asks for, said of the descriptors and the inputs alone ----

  // Some descriptor with this id lists the group, at whatever position.
  ghost predicate InGroup(definition: PresentationDefinition, group: GroupId, id: string) {
    exists i, k :: 0 <= i < |definition.inputDescriptors| && 0 <= k < |definition.inputDescriptors[i].groups|
                   && definition.inputDescriptors[i].id == id && definition.inputDescriptors[i].groups[k] == group
  }

  // How many inputs are of descriptors in the group.
  ghost function NumberInGroup<T>(definition: PresentationDefinition, group: GroupId, inputs: seq<DecodedInput<T>>): nat {
    |set j: nat | j < |inputs| && InGroup(definition, group, inputs[j].descriptorId)|
  }

  // Without a pick every descriptor that lists the group has been submitted; with one the
  // number of inputs of the group is within all its bounds.
  ghost predicate GroupAccepts<T>(group: GroupId, definition: PresentationDefinition, m: MatchingInputs<T>,
                                  pick: Option<SubmissionRequirementPick>)
  {
    match pick
    case None =>
      forall i, k :: 0 <= i < |definition.inputDescriptors| && 0 <= k < |definition.inputDescriptors[i].groups|
                     && definition.inputDescriptors[i].groups[k] == group ==>
        definition.inputDescriptors[i].id in m.byDescriptor
    case Some(p) =>
      var found := NumberInGroup(definition, group, m.inputs);
      && (p.min.Some? ==> p.min.value <= found)
      && (p.max.Some? ==> found <= p.max.value)
      && (p.count.Some? ==> found == p.count.value)
  }

  lemma GroupIdsMeaning(definition: PresentationDefinition, group: GroupId, id: string)
    ensures id in GroupIds(definition, group) <==> InGroup(definition, group, id)
  {
    if d :| d in definition.inputDescriptors && group in d.groups && d.id == id {
      var i :| 0 <= i < |definition.inputDescriptors| && definition.inputDescriptors[i] == d;
      var k :| 0 <= k < |d.groups| && d.groups[k] == group;
      assert definition.inputDescriptors[i].groups[k] == group;
    }
    if i, k :| 0 <= i < |definition.inputDescriptors| && 0 <= k < |definition.inputDescriptors[i].groups|
               && definition.inputDescriptors[i].id == id && definition.inputDescriptors[i].groups[k] == group {
      assert definition.inputDescriptors[i] in definition.inputDescriptors;
    }
  }

  lemma {:induction false} CountInMeaning(ids: set<string>, names: seq<string>)
    ensures CountIn(ids, names) == |set j: nat | j < |names| && names[j] in ids|
    decreases |names|
  {
    var counted := set j: nat | j < |names| && names[j] in ids;
    if names == [] {
      assert counted == {};
    } else {
      var n := |names| - 1;
      CountInMeaning(ids, names[..n]);
      var before := set j: nat | j < n && names[..n][j] in ids;
      assert counted == if names[n] in ids then before + {n} else before;
    }
  }

  lemma NumberCounted<T>(definition: PresentationDefinition, group: GroupId, inputs: seq<DecodedInput<T>>)
    ensures CountIn(GroupIds(definition, group), IdsOf(inputs)) == NumberInGroup(definition, group, inputs)
  {
    var ids, names := GroupIds(definition, group), IdsOf(inputs);
    CountInMeaning(ids, names);
    forall j: nat | j < |inputs|
      ensures names[j] in ids <==> InGroup(definition, group, inputs[j].descriptorId)
    {
      GroupIdsMeaning(definition, group, inputs[j].descriptorId);
    }
    assert (set j: nat | j < |names| && names[j] in ids)
        == (set j: nat | j < |inputs| && InGroup(definition, group, inputs[j].descriptorId));
  }

  lemma LeafMeaning<T>(leaf: Leaf, definition: PresentationDefinition, m: MatchingInputs<T>)
    ensures LeafSatisfied(leaf, definition, m) <==> GroupAccepts(leaf.group, definition, m, leaf.pick)
  {
    match leaf.pick
    case Some(_) => NumberCounted(definition, leaf.group, m.inputs);
    case None =>
      forall i, k | 0 <= i < |definition.inputDescriptors| && 0 <= k < |definition.inputDescriptors[i].groups|
                    && definition.inputDescriptors[i].groups[k] == leaf.group
        ensures definition.inputDescriptors[i].id in GroupIds(definition, leaf.group)
      {
        GroupIdsMeaning(definition, leaf.group, definition.inputDescriptors[i].id);
      }
      forall id | id in GroupIds(definition, leaf.group)
        ensures InGroup(definition, leaf.group, id)
      {
        GroupIdsMeaning(definition, leaf.group, id);
      }
  }

  // The errors a leaf can be rejected with. A missing input is any one of those missing:
  // the source looks through a hash set.
  ghost predicate LeafError<T>(leaf: Leaf, definition: PresentationDefinition, m: MatchingInputs<T>, e: SubmissionValidationError) {
    var ids := GroupIds(definition, leaf.group);
    match leaf.pick
    case None => e.MissingRequiredInput? && e.id in ids && e.id !in m.byDescriptor
    case Some(p) =>
      var found := CountIn(ids, IdsOf(m.inputs));
      if p.min.Some? && found < p.min.value then e == SelectionTooSmall(leaf.group, p.min.value, found)
      else if p.max.Some? && found > p.max.value then e == SelectionTooLarge(leaf.group, p.max.value, found)
      else p.count.Some? && found != p.count.value && e == SelectionSizeMismatch(leaf.group, p.count.value, found)
  }

  ghost predicate AllSatisfied<T>(leaves: seq<Leaf>, definition: PresentationDefinition, m: MatchingInputs<T>) {
    forall i :: 0 <= i < |leaves| ==> LeafSatisfied(leaves[i], definition, m)
  }

  // `e` is an error of the first leaf that is not satisfied.
  ghost predicate FirstLeafError<T>(leaves: seq<Leaf>, definition: PresentationDefinition, m: MatchingInputs<T>,
                                    e: SubmissionValidationError)
  {
    exists i :: 0 <= i < |leaves| && AllSatisfied(leaves[..i], definition, m) && LeafError(leaves[i], definition, m, e)
  }

  ghost predicate Reports<T>(r: Result<(), SubmissionValidationError>, leaves: seq<Leaf>,
                             definition: PresentationDefinition, m: MatchingInputs<T>)
  {
    match r
    case Ok(_) => AllSatisfied(leaves, definition, m)
    case Err(e) => !AllSatisfied(leaves, definition, m) && FirstLeafError(leaves, definition, m, e)
  }

  method ValidateGroup<T>(group: GroupId, definition: PresentationDefinition, m: MatchingInputs<T>,
                          pick: Option<SubmissionRequirementPick>)
    returns (r: Result<(), SubmissionValidationError>)
    ensures Reports(r, [Leaf(group, pick)], definition, m)
    ensures r.Ok? <==> GroupAccepts(group, definition, m, pick)
    ensures r.Err? ==>
              match r.error
              case MissingRequiredInput(id) => pick.None? && InGroup(definition, group, id) && id !in m.byDescriptor
              case SelectionTooSmall(g, bound, found) =>
                pick.Some? && pick.value.min == Some(bound) && g == group
                && found == NumberInGroup(definition, group, m.inputs) < bound
              case SelectionTooLarge(g, bound, found) =>
                pick.Some? && pick.value.max == Some(bound) && g == group
                && found == NumberInGroup(definition, group, m.inputs) > bound
              case SelectionSizeMismatch(g, expected, found) =>
                pick.Some? && pick.value.count == Some(expected) && g == group
                && found == NumberInGroup(definition, group, m.inputs) != expected
  {
    LeafMeaning(Leaf(group, pick), definition, m);
    NumberCounted(definition, group, m.inputs);
    ghost var leaf := Leaf(group, pick);
    assert AllSatisfied([leaf][..0], definition, m);
    assert AllSatisfied([leaf], definition, m) <==> LeafSatisfied([leaf][0], definition, m);
    var grouped := GroupIds(definition, group);
    match pick
    case Some(p) =>
      var groupCount := CountIn(grouped, IdsOf(m.inputs));
      if p.min.Some? && groupCount < p.min.value {
        return Err(SelectionTooSmall(group, p.min.value, groupCount));
      }
      if p.max.Some? && groupCount > p.max.value {
        return Err(SelectionTooLarge(group, p.max.value, groupCount));
      }
      if p.count.Some? && groupCount != p.count.value {
        return Err(SelectionSizeMismatch(group, p.count.value, groupCount));
      }
      return Ok(());
    case None =>
      var left := grouped;
      while left != {}
        invariant left <= grouped
        invariant forall id :: id in grouped - left ==> id in m.byDescriptor
        decreases |left|
      {
        var id :| id in left;
        if id !in m.byDescriptor {
          GroupIdsMeaning(definition, group, id);
          return Err(MissingRequiredInput(id));
        }
        left := left - {id};
      }
      return Ok(());
  }

  lemma AllSatisfiedParts<T>(a: seq<Leaf>, b: seq<Leaf>, definition: PresentationDefinition, m: MatchingInputs<T>)
    ensures AllSatisfied(a + b, definition, m) <==> AllSatisfied(a, definition, m) && AllSatisfied(b, definition, m)
  {
    assert forall i :: 0 <= i < |a| ==> (a + b)[i] == a[i];
    assert forall i :: 0 <= i < |b| ==> (a + b)[|a| + i] == b[i];
  }

  lemma FirstLeafErrorParts<T>(a: seq<Leaf>, b: seq<Leaf>, c: seq<Leaf>, definition: PresentationDefinition,
                               m: MatchingInputs<T>, e: SubmissionValidationError)
    requires AllSatisfied(a, definition, m) && FirstLeafError(b, definition, m, e)
    ensures FirstLeafError(a + b + c, definition, m, e)
  {
    var i :| 0 <= i < |b| && AllSatisfied(b[..i], definition, m) && LeafError(b[i], definition, m, e);
    var whole := a + b + c;
    assert whole[..|a| + i] == a + b[..i];
    AllSatisfiedParts(a, b[..i], definition, m);
    assert whole[|a| + i] == b[i];
  }

  lemma {:induction false} LeavesOfPrefix(rs: seq<SubmissionRequirement>, i: nat) returns (rest: seq<Leaf>)
    requires i <= |rs|
    ensures LeavesOf(rs) == LeavesOf(rs[..i]) + rest
    decreases |rs|
  {
    if i == |rs| {
      assert rs[..i] == rs;
      rest := [];
    } else {
      var n := |rs| - 1;
      assert rs[..n][..i] == rs[..i];
      var inner := LeavesOfPrefix(rs[..n], i);
      rest := inner + Leaves(rs[n]);
    }
  }

  // Validation accepts exactly when every `from` leaf of the tree is satisfied, at any depth
  // of nesting, and otherwise reports the first one that is not.
  method Validate<T>(requirement: SubmissionRequirement, definition: PresentationDefinition, m: MatchingInputs<T>)
    returns (r: Result<(), SubmissionValidationError>)
    ensures Reports(r, Leaves(requirement), definition, m)
    decreases requirement
  {
    match requirement
    case All(base) =>
      match base {
        case From(group) => r := ValidateGroup(group, definition, m, None);
        case FromNested(nested) => r := ValidateEach(nested, definition, m);
      }
    case Pick(pick) =>
      match pick.submissionRequirement {
        case From(group) => r := ValidateGroup(group, definition, m, Some(pick));
        case FromNested(nested) => r := ValidateEach(nested, definition, m);
      }
  }

  method ValidateEach<T>(requirements: seq<SubmissionRequirement>, definition: PresentationDefinition, m: MatchingInputs<T>)
    returns (r: Result<(), SubmissionValidationError>)
    ensures Reports(r, LeavesOf(requirements), definition, m)
    decreases requirements
  {
    for i := 0 to |requirements|
      invariant AllSatisfied(LeavesOf(requirements[..i]), definition, m)
    {
      r := Validate(requirements[i], definition, m);
      ghost var before, here := LeavesOf(requirements[..i]), Leaves(requirements[i]);
      assert requirements[..i + 1][..i] == requirements[..i];
      AllSatisfiedParts(before, here, definition, m);
      if r.Err? {
        ghost var rest := LeavesOfPrefix(requirements, i + 1);
        FirstLeafErrorParts(before, here, rest, definition, m, r.error);
        AllSatisfiedParts(before + here, rest, definition, m);
        return;
      }
    }
    assert requirements[..|requirements|] == requirements;
    return Ok(());
  }

  ghost predicate DefinitionSatisfied<T>(definition: PresentationDefinition, m: MatchingInputs<T>) {
    match definition.submissionRequirements
    case Some(requirements) => AllSatisfied(LeavesOf(requirements), definition, m)
    case None => forall d :: d in definition.inputDescriptors ==> d.id in m.byDescriptor && m.byDescriptor[d.id] != []
  }

  // `MatchingInputs::validate`. Without submission requirements the first descriptor, in
  // the definition's order, that has no input is the one reported.
  method ValidateMatching<T>(m: MatchingInputs<T>, definition: PresentationDefinition)
    returns (r: Result<(), SubmissionValidationError>)
    ensures r.Ok? <==> DefinitionSatisfied(definition, m)
    ensures r.Err? && definition.submissionRequirements.Some? ==>
              FirstLeafError(LeavesOf(definition.submissionRequirements.value), definition, m, r.error)
    ensures r.Err? && definition.submissionRequirements.None? ==>
              exists i :: 0 <= i < |definition.inputDescriptors|
                          && r.error == MissingRequiredInput(definition.inputDescriptors[i].id)
                          && HasNoInput(m, definition.inputDescriptors[i].id)
                          && forall j :: 0 <= j < i ==> !HasNoInput(m, definition.inputDescriptors[j].id)
  {
    match definition.submissionRequirements
    case Some(requirements) =>
      r := ValidateEach(requirements, definition, m);
    case None =>
      for i := 0 to |definition.inputDescriptors|
        invariant forall j :: 0 <= j < i ==> !HasNoInput(m, definition.inputDescriptors[j].id)
      {
        var id := definition.inputDescriptors[i].id;
        if HasNoInput(m, id) {
          return Err(MissingRequiredInput(id));
        }
      }
      return Ok(());
  }

  predicate HasNoInput<T>(m: MatchingInputs<T>, id: string) {
    id !in m.byDescriptor || m.byDescriptor[id] == []
  }

  // ---- Requirement trees and their leaves ----

  // Only the set of leaves matters: order, repetition and nesting do not.
  lemma OnlyLeavesMatter<T>(a: seq<SubmissionRequirement>, b: seq<SubmissionRequirement>,
                            definition: PresentationDefinition, m: MatchingInputs<T>)
    requires forall leaf :: leaf in LeavesOf(a) <==> leaf in LeavesOf(b)
    ensures AllSatisfied(LeavesOf(a), definition, m) <==> AllSatisfied(LeavesOf(b), definition, m)
  {
    var x, y := LeavesOf(a), LeavesOf(b);
    assert forall i :: 0 <= i < |x| ==> x[i] in y;
    assert forall i :: 0 <= i < |y| ==> y[i] in x;
  }

  lemma {:induction false} LeavesOfEach<T>(rs: seq<SubmissionRequirement>, definition: PresentationDefinition, m: MatchingInputs<T>)
    ensures AllSatisfied(LeavesOf(rs), definition, m) <==>
            forall r :: r in rs ==> AllSatisfied(Leaves(r), definition, m)
    decreases |rs|
  {
    if rs != [] {
      var n := |rs| - 1;
      LeavesOfEach(rs[..n], definition, m);
      AllSatisfiedParts(LeavesOf(rs[..n]), Leaves(rs[n]), definition, m);
      assert LeavesOf(rs) == LeavesOf(rs[..n]) + Leaves(rs[n]);
      assert forall r :: r in rs <==> r in rs[..n] || r == rs[n];
    }
  }

  // A pick over nested requirements asks for every one of them, whatever its own
  // `count`, `min` and `max` say.
  lemma PickOverNestedNeedsAll<T>(p: SubmissionRequirementPick, definition: PresentationDefinition, m: MatchingInputs<T>)
    requires p.submissionRequirement.FromNested?
    ensures AllSatisfied(Leaves(Pick(p)), definition, m) <==>
            forall r :: r in p.submissionRequirement.requirements ==> AllSatisfied(Leaves(r), definition, m)
  {
    LeavesOfEach(p.submissionRequirement.requirements, definition, m);
  }

  // ---- Nested requirements as the standard has them ----

  // The rules of the standard: `all` asks for every nested requirement, `pick` for as many
  // as its bounds say. Groups are judged as the code judges them.
  ghost predicate MeetsRules<T>(r: SubmissionRequirement, definition: PresentationDefinition, m: MatchingInputs<T>)
    decreases r
  {
    match r
    case All(From(group)) => LeafSatisfied(Leaf(group, None), definition, m)
    case All(FromNested(rs)) => NumberMet(rs, definition, m) == |rs|
    case Pick(p) =>
      match p.submissionRequirement
      case From(group) => LeafSatisfied(Leaf(group, Some(p)), definition, m)
      case FromNested(rs) => WithinPick(p, NumberMet(rs, definition, m))
  }

  // How many of the requirements are met.
  ghost function NumberMet<T>(rs: seq<SubmissionRequirement>, definition: PresentationDefinition, m: MatchingInputs<T>)
    : (n: nat)
    ensures n <= |rs|
    decreases rs
  {
    if rs == [] then 0
    else
      var n := |rs| - 1;
      NumberMet(rs[..n], definition, m) + if MeetsRules(rs[n], definition, m) then 1 else 0
  }

  // Code and standard agree on this requirement.
  ghost predicate RulesKept<T>(r: SubmissionRequirement, definition: PresentationDefinition, m: MatchingInputs<T>) {
    AllSatisfied(Leaves(r), definition, m) <==> MeetsRules(r, definition, m)
  }

  lemma {:induction false} AllMetIffAllSatisfied<T>(rs: seq<SubmissionRequirement>, definition: PresentationDefinition,
                                                    m: MatchingInputs<T>)
    requires forall r :: r in rs ==> RulesKept(r, definition, m)
    ensures AllSatisfied(LeavesOf(rs), definition, m) <==> NumberMet(rs, definition, m) == |rs|
    decreases |rs|
  {
    if rs != [] {
      var n := |rs| - 1;
      AllMetIffAllSatisfied(rs[..n], definition, m);
      AllSatisfiedParts(LeavesOf(rs[..n]), Leaves(rs[n]), definition, m);
      assert LeavesOf(rs) == LeavesOf(rs[..n]) + Leaves(rs[n]);
      assert rs[n] in rs;
    }
  }

  // Over nested requirements on which they agree, code and standard agree on a pick exactly
  // when the number met is within its bounds just if it is the number of all.
  lemma NestedPickAgreesIff<T>(p: SubmissionRequirementPick, definition: PresentationDefinition, m: MatchingInputs<T>)
    requires p.submissionRequirement.FromNested?
    requires forall r :: r in p.submissionRequirement.requirements ==> RulesKept(r, definition, m)
    ensures var rs := p.submissionRequirement.requirements;
            RulesKept(Pick(p), definition, m) <==>
            (WithinPick(p, NumberMet(rs, definition, m)) <==> NumberMet(rs, definition, m) == |rs|)
  {
    AllMetIffAllSatisfied(p.submissionRequirement.requirements, definition, m);
  }

  // The bounds allow all n and no fewer.
  ghost predicate MeansAll(p: SubmissionRequirementPick, n: nat) {
    forall k: nat :: k <= n ==> (WithinPick(p, k) <==> k == n)
  }

  // It is enough to try n and its predecessor.
  lemma MeansAllIff(p: SubmissionRequirementPick, n: nat)
    ensures MeansAll(p, n) <==> WithinPick(p, n) && (n > 0 ==> !WithinPick(p, n - 1))
  {
  }

  // Every pick over nested requirements, at any depth, means all of them.
  ghost predicate PicksMeanAll(r: SubmissionRequirement)
    decreases r
  {
    match r
    case All(From(_)) => true
    case All(FromNested(rs)) => forall x :: x in rs ==> PicksMeanAll(x)
    case Pick(p) =>
      match p.submissionRequirement
      case From(_) => true
      case FromNested(rs) => MeansAll(p, |rs|) && forall x :: x in rs ==> PicksMeanAll(x)
  }

  // Where every nested pick means all, code and standard agree on any tree, whatever the
  // definition and the inputs are.
  lemma {:induction false} RulesKeptWherePicksMeanAll<T>(r: SubmissionRequirement, definition: PresentationDefinition,
                                                         m: MatchingInputs<T>)
    requires PicksMeanAll(r)
    ensures RulesKept(r, definition, m)
    decreases r
  {
    match r
    case All(base) =>
      match base {
        case From(_) => OneLeaf(Leaves(r)[0], definition, m);
        case FromNested(rs) =>
          forall x | x in rs {
            RulesKeptWherePicksMeanAll(x, definition, m);
          }
          AllMetIffAllSatisfied(rs, definition, m);
      }
    case Pick(p) =>
      match p.submissionRequirement {
        case From(_) => OneLeaf(Leaves(r)[0], definition, m);
        case FromNested(rs) =>
          forall x | x in rs {
            RulesKeptWherePicksMeanAll(x, definition, m);
          }
          NestedPickAgreesIff(p, definition, m);
      }
  }

  lemma OneLeaf<T>(leaf: Leaf, definition: PresentationDefinition, m: MatchingInputs<T>)
    ensures AllSatisfied([leaf], definition, m) <==> LeafSatisfied(leaf, definition, m)
  {
    assert [leaf][0] == leaf;
  }

  // k requirements of an empty group, always met, and n - k of a group without inputs.
  function MetAndUnmet(k: nat, n: nat): seq<SubmissionRequirement>
    requires k <= n
  {
    seq(n, i => if i < k then All(From("empty")) else All(From("missing")))
  }

  const SOME_MISSING :=
    PresentationDefinition("d", [InputDescriptor("a", Constraints([]), map[], ["missing"])], None, map[])

  const NOTHING_FOUND: MatchingInputs<()> := MatchingInputs([], map[])

  lemma {:induction false} NumberMetOf(k: nat, n: nat)
    requires k <= n
    ensures NumberMet(MetAndUnmet(k, n), SOME_MISSING, NOTHING_FOUND) == k
    decreases n
  {
    if n > 0 {
      var before := if k < n then k else k - 1;
      NumberMetOf(before, n - 1);
      assert MetAndUnmet(k, n)[..n - 1] == MetAndUnmet(before, n - 1);
      assert "a" in GroupIds(SOME_MISSING, "missing") by {
        assert SOME_MISSING.inputDescriptors[0] in SOME_MISSING.inputDescriptors;
      }
    }
  }

  // Nothing weaker will do: bounds that do not mean all n are broken by some n nested
  // requirements, on a definition with one descriptor and no input at all.
  lemma OtherPicksAreBroken(p: SubmissionRequirementPick, n: nat) returns (rs: seq<SubmissionRequirement>)
    requires !MeansAll(p, n)
    ensures |rs| == n
    ensures !RulesKept(Pick(p.(submissionRequirement := FromNested(rs))), SOME_MISSING, NOTHING_FOUND)
  {
    var k: nat :| k <= n && !(WithinPick(p, k) <==> k == n);
    rs := MetAndUnmet(k, n);
    var pick := p.(submissionRequirement := FromNested(rs));
    forall r | r in rs
      ensures RulesKept(r, SOME_MISSING, NOTHING_FOUND)
    {
      RulesKeptWherePicksMeanAll(r, SOME_MISSING, NOTHING_FOUND);
    }
    NumberMetOf(k, n);
    NestedPickAgreesIff(pick, SOME_MISSING, NOTHING_FOUND);
  }

  // A pick of one of two groups, of which the first is met: the standard accepts, the code
  // refuses.
  lemma PickOneOfTwoIsRefused()
    ensures var pick := Pick(SubmissionRequirementPick(FromNested(MetAndUnmet(1, 2)), Some(1), None, None));
            MeetsRules(pick, SOME_MISSING, NOTHING_FOUND) && !AllSatisfied(Leaves(pick), SOME_MISSING, NOTHING_FOUND)
  {
    var p := SubmissionRequirementPick(FromNested(MetAndUnmet(1, 2)), Some(1), None, None);
    NumberMetOf(1, 2);
    forall r | r in MetAndUnmet(1, 2)
      ensures RulesKept(r, SOME_MISSING, NOTHING_FOUND)
    {
      RulesKeptWherePicksMeanAll(r, SOME_MISSING, NOTHING_FOUND);
    }
    NestedPickAgreesIff(p, SOME_MISSING, NOTHING_FOUND);
  }
}
