// Presentation definitions (src/core/presentation_definition.rs).
module PresentationDefinitions {
  import opened Wrappers
  import opened JsonValues
  import opened ClaimFormats
  import opened InputDescriptors

  datatype SubmissionRequirementBase =
    | From(group: GroupId)
    | FromNested(requirements: seq<SubmissionRequirement>)

  datatype SubmissionRequirement =
    | All(base: SubmissionRequirementBase)
    | Pick(pick: SubmissionRequirementPick)

  datatype SubmissionRequirementPick = SubmissionRequirementPick(
    submissionRequirement: SubmissionRequirementBase,
    count: Option<nat>,
    min: Option<nat>,
    max: Option<nat>)

  datatype PresentationDefinition = PresentationDefinition(
    id: string,
    inputDescriptors: seq<InputDescriptor>,
    submissionRequirements: Option<seq<SubmissionRequirement>>,
    format: ClaimFormatMap)

  // Collecting pairs into a hash map: a later descriptor replaces an earlier one of the same id.
  function DescriptorsById(descriptors: seq<InputDescriptor>): map<string, InputDescriptor> {
    if descriptors == [] then map[]
    else
      var last := descriptors[|descriptors| - 1];
      DescriptorsById(descriptors[..|descriptors| - 1])[last.id := last]
  }

  function InputDescriptorsMap(definition: PresentationDefinition): map<string, InputDescriptor> {
    DescriptorsById(definition.inputDescriptors)
  }

  predicate FieldSatisfied(ev: Evaluator, field: ConstraintsField, credential: Json) {
    match field.filter
    case Some(schema) =>
      var candidates := RawFields(ev, field.path, credential);
      exists i :: 0 <= i < |candidates| && ev.validates(schema, candidates[i])
    case None => true
  }

  predicate IsCredentialMatch(ev: Evaluator, definition: PresentationDefinition, credential: Json) {
    forall d :: d in definition.inputDescriptors ==>
      forall field :: field in d.constraints.fields && field.IsRequired() ==> FieldSatisfied(ev, field, credential)
  }

  // `d` is the last descriptor of its id.
  ghost predicate IsLast(descriptors: seq<InputDescriptor>, d: InputDescriptor) {
    exists i :: 0 <= i < |descriptors| && descriptors[i] == d
                && forall j :: i < j < |descriptors| ==> descriptors[j].id != d.id
  }

  // The map holds, for every id that occurs, the last descriptor that has it.
  lemma {:induction false} LastDescriptorWins(descriptors: seq<InputDescriptor>, id: string)
    ensures id in DescriptorsById(descriptors) <==> exists i :: 0 <= i < |descriptors| && descriptors[i].id == id
    ensures id in DescriptorsById(descriptors) ==>
              DescriptorsById(descriptors)[id].id == id && IsLast(descriptors, DescriptorsById(descriptors)[id])
  {
    if descriptors != [] {
      var n := |descriptors| - 1;
      var init := descriptors[..n];
      LastDescriptorWins(init, id);
      if descriptors[n].id != id && id in DescriptorsById(init) {
        var d := DescriptorsById(init)[id];
        var i :| 0 <= i < n && init[i] == d && forall j :: i < j < n ==> init[j].id != d.id;
        assert descriptors[i] == d;
        assert forall j :: i < j < n ==> descriptors[j] == init[j];
      }
      if descriptors[n].id == id {
        assert descriptors[n] == DescriptorsById(descriptors)[id];
      } else if i :| 0 <= i < |descriptors| && descriptors[i].id == id {
        assert init[i] == descriptors[i];
      }
    }
  }

  // ---- The two ways of matching a credential ----

  ghost predicate MatchesEveryDescriptor(ev: Evaluator, definition: PresentationDefinition, credential: Json) {
    forall d :: d in definition.inputDescriptors ==> Matches(ev, d.constraints, credential)
  }

  // Every field that is neither filtered nor optional selects at least one value.
  ghost predicate UnfilteredFieldsPresent(ev: Evaluator, definition: PresentationDefinition, credential: Json) {
    forall d :: d in definition.inputDescriptors ==>
      forall field :: field in d.constraints.fields && field.optional != Some(true) && field.filter.None? ==>
        Selects(ev, field, credential)
  }

  lemma FieldSatisfiedIff(ev: Evaluator, field: ConstraintsField, credential: Json)
    ensures FieldSatisfied(ev, field, credential) <==> (field.filter.Some? ==> HasPassingValue(ev, field, credential))
  {
    var raw := RawFields(ev, field.path, credential);
    if field.filter.Some? {
      if i :| 0 <= i < |raw| && ev.validates(field.filter.value, raw[i]) {
        RawFieldsMeaning(ev, field.path, credential, raw[i]);
        var p :| p in field.path && raw[i] in ev.query(p, credential);
        assert Passes(ev, field, credential, p, raw[i]);
      }
      if p, x :| Passes(ev, field, credential, p, x) {
        RawFieldsMeaning(ev, field.path, credential, x);
        var i :| 0 <= i < |raw| && raw[i] == x;
      }
    }
  }

  // A credential matches a definition exactly when every filtered field that does not say it
  // is optional, of any descriptor, has a value that its filter validates.
  lemma CredentialMatchIff(ev: Evaluator, definition: PresentationDefinition, credential: Json)
    ensures IsCredentialMatch(ev, definition, credential) <==>
            forall d, field :: d in definition.inputDescriptors && field in d.constraints.fields
                               && field.optional != Some(true) && field.filter.Some? ==>
              HasPassingValue(ev, field, credential)
  {
    forall d, field | d in definition.inputDescriptors && field in d.constraints.fields {
      FieldSatisfiedIff(ev, field, credential);
    }
  }

  // Matching the constraints of every descriptor is matching the definition and, besides,
  // finding a value for every field that is neither filtered nor optional, which
  // `is_credential_match` lets pass unseen.
  lemma ConstraintMatchVersusCredentialMatch(ev: Evaluator, definition: PresentationDefinition, credential: Json)
    ensures MatchesEveryDescriptor(ev, definition, credential) <==>
            IsCredentialMatch(ev, definition, credential) && UnfilteredFieldsPresent(ev, definition, credential)
  {
    CredentialMatchIff(ev, definition, credential);
    forall d | d in definition.inputDescriptors {
      MatchesIff(ev, d.constraints, credential);
    }
    forall d, field | d in definition.inputDescriptors && field in d.constraints.fields && field.filter.None?
      ensures HasPassingValue(ev, field, credential) <==> Selects(ev, field, credential)
    {
      UnfilteredPasses(ev, field, credential);
    }
  }

  lemma UnfilteredPasses(ev: Evaluator, field: ConstraintsField, credential: Json)
    requires field.filter.None?
    ensures HasPassingValue(ev, field, credential) <==> Selects(ev, field, credential)
  {
    if p :| p in field.path && ev.query(p, credential) != [] {
      assert Passes(ev, field, credential, p, ev.query(p, credential)[0]);
    }
  }
}
