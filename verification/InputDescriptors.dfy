// Input descriptors and their constraints (src/core/input_descriptor.rs).
module InputDescriptors {
  import opened Wrappers
  import opened JsonValues
  import opened ClaimFormats

  type GroupId = string

  // The text of a JSONPath; what it selects is given by `Evaluator.query`.
  type JsonPath = string

  // JSONPath evaluation and JSON Schema validation are library code: any two functions.
  datatype Evaluator = Evaluator(
    query: (JsonPath, Json) -> seq<Json>,
    validates: (Json, Json) -> bool)

  datatype Predicate = Required | Preferred

  datatype ConstraintsField = ConstraintsField(
    path: seq<JsonPath>,
    optional: Option<bool>,
    filter: Option<Json>,
    predicateFeature: Option<Predicate>,
    name: Option<string>,
    purpose: Option<string>,
    intentToRetain: bool)
  {
    predicate IsOptional() {
      optional.Some? && optional.value
    }

    predicate IsRequired() {
      !IsOptional()
    }
  }

  datatype Constraints = Constraints(fields: seq<ConstraintsField>) {
    predicate IsEmpty() {
      fields == []
    }
  }

  datatype InputDescriptor = InputDescriptor(
    id: string,
    constraints: Constraints,
    format: ClaimFormatMap,
    groups: seq<GroupId>)

  datatype FieldQueryResult = IsPredicate(truth: bool) | IsValue(value: Json)

  datatype RequestedField = RequestedField(
    name: Option<string>,
    required: bool,
    retained: bool,
    purpose: Option<string>,
    inputDescriptorId: string,
    rawFields: seq<Json>)

  predicate PassesFilter(ev: Evaluator, field: ConstraintsField, candidate: Json) {
    field.filter.Some? ==> ev.validates(field.filter.value, candidate)
  }

  function QueryCandidates(ev: Evaluator, field: ConstraintsField, candidates: seq<Json>): Option<FieldQueryResult> {
    if candidates == [] then None
    else if !PassesFilter(ev, field, candidates[0]) then QueryCandidates(ev, field, candidates[1..])
    else if field.predicateFeature.Some? then Some(IsPredicate(true))
    else Some(IsValue(candidates[0]))
  }

  function QueryPaths(ev: Evaluator, field: ConstraintsField, paths: seq<JsonPath>, value: Json): Option<FieldQueryResult> {
    if paths == [] then None
    else
      var found := QueryCandidates(ev, field, ev.query(paths[0], value));
      if found.Some? then found else QueryPaths(ev, field, paths[1..], value)
  }

  // Field query: the first path, and in it the first candidate, that passes the filter.
  function Query(ev: Evaluator, field: ConstraintsField, value: Json): Option<FieldQueryResult> {
    QueryPaths(ev, field, field.path, value)
  }

  predicate MatchesFields(ev: Evaluator, fields: seq<ConstraintsField>, value: Json) {
    if fields == [] then true
    else if Query(ev, fields[0], value).None? && fields[0].IsRequired() then false
    else MatchesFields(ev, fields[1..], value)
  }

  predicate Matches(ev: Evaluator, constraints: Constraints, value: Json) {
    MatchesFields(ev, constraints.fields, value)
  }

  function RawFields(ev: Evaluator, paths: seq<JsonPath>, value: Json): seq<Json> {
    if paths == [] then [] else ev.query(paths[0], value) + RawFields(ev, paths[1..], value)
  }

  function RequestedFieldOf(ev: Evaluator, field: ConstraintsField, descriptorId: string, value: Json): RequestedField {
    RequestedField(field.name, field.IsRequired(), field.intentToRetain, field.purpose, descriptorId,
                   RawFields(ev, field.path, value))
  }

  // ---- Field query against the candidates a requested field reports ----

  lemma {:induction false} QueryCandidatesAppend(ev: Evaluator, field: ConstraintsField, a: seq<Json>, b: seq<Json>)
    ensures QueryCandidates(ev, field, a + b) ==
            if QueryCandidates(ev, field, a).Some? then QueryCandidates(ev, field, a) else QueryCandidates(ev, field, b)
  {
    if a == [] {
      assert a + b == b;
    } else {
      assert (a + b)[1..] == a[1..] + b;
      QueryCandidatesAppend(ev, field, a[1..], b);
    }
  }

  lemma {:induction false} QueryPathsIsOneScan(ev: Evaluator, field: ConstraintsField, paths: seq<JsonPath>, value: Json)
    ensures QueryPaths(ev, field, paths, value) == QueryCandidates(ev, field, RawFields(ev, paths, value))
  {
    if paths != [] {
      QueryPathsIsOneScan(ev, field, paths[1..], value);
      QueryCandidatesAppend(ev, field, ev.query(paths[0], value), RawFields(ev, paths[1..], value));
    }
  }

  // `k` is the position of the first candidate that passes the filter.
  ghost predicate FirstPassing(ev: Evaluator, field: ConstraintsField, candidates: seq<Json>, k: nat) {
    && k < |candidates|
    && PassesFilter(ev, field, candidates[k])
    && forall j :: 0 <= j < k ==> !PassesFilter(ev, field, candidates[j])
  }

  lemma {:induction false} QueryCandidatesFindsFirst(ev: Evaluator, field: ConstraintsField, candidates: seq<Json>) returns (k: nat)
    ensures QueryCandidates(ev, field, candidates).Some? ==>
              && FirstPassing(ev, field, candidates, k)
              && QueryCandidates(ev, field, candidates) ==
                 Some(if field.predicateFeature.Some? then IsPredicate(true) else IsValue(candidates[k]))
    ensures QueryCandidates(ev, field, candidates).None? ==>
              forall j :: 0 <= j < |candidates| ==> !PassesFilter(ev, field, candidates[j])
  {
    k := 0;
    if candidates != [] && !PassesFilter(ev, field, candidates[0]) {
      var rest := candidates[1..];
      k := QueryCandidatesFindsFirst(ev, field, rest);
      assert forall j :: 0 < j < |candidates| ==> candidates[j] == rest[j - 1];
      k := k + 1;
    }
  }

  // A field query answers with the first filter-passing element of the raw fields that
  // `requested_fields` reports for the same field and value, and answers nothing
  // exactly when no reported element passes.
  lemma QueryAgreesWithRequestedFields(ev: Evaluator, field: ConstraintsField, descriptorId: string, value: Json)
    returns (k: nat)
    ensures var raw := RequestedFieldOf(ev, field, descriptorId, value).rawFields;
            && (Query(ev, field, value).None? <==>
                forall j :: 0 <= j < |raw| ==> !PassesFilter(ev, field, raw[j]))
            && (Query(ev, field, value).Some? ==>
                && FirstPassing(ev, field, raw, k)
                && Query(ev, field, value) ==
                   Some(if field.predicateFeature.Some? then IsPredicate(true) else IsValue(raw[k])))
  {
    var raw := RawFields(ev, field.path, value);
    QueryPathsIsOneScan(ev, field, field.path, value);
    k := QueryCandidatesFindsFirst(ev, field, raw);
  }

  // ---- What a field asks for, said of its paths and filter alone ----

  // The field has this path, which selects `x`, and the filter, if there is one, validates it.
  predicate Passes(ev: Evaluator, field: ConstraintsField, value: Json, p: JsonPath, x: Json) {
    p in field.path && x in ev.query(p, value) && (field.filter.Some? ==> ev.validates(field.filter.value, x))
  }

  ghost predicate HasPassingValue(ev: Evaluator, field: ConstraintsField, value: Json) {
    exists p, x :: Passes(ev, field, value, p, x)
  }

  // Some path selects a value at all.
  ghost predicate Selects(ev: Evaluator, field: ConstraintsField, value: Json) {
    exists p :: p in field.path && ev.query(p, value) != []
  }

  lemma {:induction false} RawFieldsMeaning(ev: Evaluator, paths: seq<JsonPath>, value: Json, x: Json)
    ensures x in RawFields(ev, paths, value) <==> exists p :: p in paths && x in ev.query(p, value)
  {
    if paths != [] {
      RawFieldsMeaning(ev, paths[1..], value, x);
      assert forall p :: p in paths <==> p == paths[0] || p in paths[1..];
    }
  }

  // What `requested_fields` reports for a field: it is required unless it says it is
  // optional, and its raw fields are all the values its paths select.
  lemma RequestedFieldReports(ev: Evaluator, field: ConstraintsField, descriptorId: string, value: Json)
    ensures var reported := RequestedFieldOf(ev, field, descriptorId, value);
            && (reported.required <==> field.optional != Some(true))
            && reported.name == field.name && reported.purpose == field.purpose
            && (reported.retained <==> field.intentToRetain) && reported.inputDescriptorId == descriptorId
            && (forall x :: x in reported.rawFields <==> exists p :: p in field.path && x in ev.query(p, value))
            && (reported.rawFields != [] <==> Selects(ev, field, value))
  {
    var raw := RawFields(ev, field.path, value);
    forall x {
      RawFieldsMeaning(ev, field.path, value, x);
    }
    if raw != [] {
      assert raw[0] in raw;
    }
    if p :| p in field.path && ev.query(p, value) != [] {
      assert ev.query(p, value)[0] in raw;
    }
  }

  // The value at position `j` of what path `i` selects is the first, in the order of the
  // paths and of what each selects, that the filter lets pass.
  ghost predicate IsFirstPassing(ev: Evaluator, field: ConstraintsField, paths: seq<JsonPath>, value: Json, i: nat, j: nat) {
    && i < |paths| && j < |ev.query(paths[i], value)|
    && (field.filter.Some? ==> ev.validates(field.filter.value, ev.query(paths[i], value)[j]))
    && NonePasses(ev, field, ev.query(paths[i], value)[..j])
    && forall h :: 0 <= h < i ==> NonePasses(ev, field, ev.query(paths[h], value))
  }

  ghost predicate NonePasses(ev: Evaluator, field: ConstraintsField, candidates: seq<Json>) {
    forall x :: x in candidates ==> field.filter.Some? && !ev.validates(field.filter.value, x)
  }

  lemma {:induction false} QueryPathsFindsFirst(ev: Evaluator, field: ConstraintsField, paths: seq<JsonPath>, value: Json)
    returns (i: nat, j: nat)
    ensures QueryPaths(ev, field, paths, value).Some? ==>
              && IsFirstPassing(ev, field, paths, value, i, j)
              && QueryPaths(ev, field, paths, value) ==
                 Some(if field.predicateFeature.Some? then IsPredicate(true) else IsValue(ev.query(paths[i], value)[j]))
    ensures QueryPaths(ev, field, paths, value).None? ==>
              forall h :: 0 <= h < |paths| ==> NonePasses(ev, field, ev.query(paths[h], value))
  {
    i, j := 0, 0;
    if paths != [] {
      var here := ev.query(paths[0], value);
      var k := QueryCandidatesFindsFirst(ev, field, here);
      if QueryCandidates(ev, field, here).Some? {
        j := k;
      } else {
        i, j := QueryPathsFindsFirst(ev, field, paths[1..], value);
        assert forall h :: 0 < h < |paths| ==> paths[h] == paths[1..][h - 1];
        i := i + 1;
      }
    }
  }

  // A field query answers with the first value, in the order of the paths and of what each
  // selects, that the filter lets pass, and with nothing when there is none.
  lemma QueryFindsFirst(ev: Evaluator, field: ConstraintsField, value: Json) returns (i: nat, j: nat)
    ensures Query(ev, field, value).Some? <==> HasPassingValue(ev, field, value)
    ensures Query(ev, field, value).Some? ==>
              && IsFirstPassing(ev, field, field.path, value, i, j)
              && Query(ev, field, value) ==
                 Some(if field.predicateFeature.Some? then IsPredicate(true) else IsValue(ev.query(field.path[i], value)[j]))
  {
    i, j := QueryPathsFindsFirst(ev, field, field.path, value);
    if Query(ev, field, value).Some? {
      assert Passes(ev, field, value, field.path[i], ev.query(field.path[i], value)[j]);
    }
  }

  // A value matches exactly when every field that does not say it is optional has a path that
  // selects a value its filter validates: an optional field never decides, even when all of
  // its candidates fail the filter.
  lemma MatchesIff(ev: Evaluator, constraints: Constraints, value: Json)
    ensures Matches(ev, constraints, value) <==>
            forall f :: f in constraints.fields && f.optional != Some(true) ==> HasPassingValue(ev, f, value)
  {
    MatchesFieldsIff(ev, constraints.fields, value);
  }

  lemma {:induction false} MatchesFieldsIff(ev: Evaluator, fields: seq<ConstraintsField>, value: Json)
    ensures MatchesFields(ev, fields, value) <==>
            forall f :: f in fields && f.optional != Some(true) ==> HasPassingValue(ev, f, value)
  {
    if fields != [] {
      var i, j := QueryFindsFirst(ev, fields[0], value);
      MatchesFieldsIff(ev, fields[1..], value);
      assert forall f :: f in fields <==> f == fields[0] || f in fields[1..];
    }
  }

  // The rule the source documents: an optional field may be absent, but where it is present
  // its value must pass the filter like that of any other field.
  ghost predicate MeetsDocumentedRule(ev: Evaluator, field: ConstraintsField, value: Json) {
    if Selects(ev, field, value) then HasPassingValue(ev, field, value) else field.optional == Some(true)
  }

  // The code meets that rule exactly where no optional field is present with failing values
  // only: those it lets pass.
  lemma DocumentedRuleVersusMatches(ev: Evaluator, constraints: Constraints, value: Json)
    ensures (forall f :: f in constraints.fields ==> MeetsDocumentedRule(ev, f, value)) <==>
            && Matches(ev, constraints, value)
            && forall f :: f in constraints.fields && f.optional == Some(true) && Selects(ev, f, value) ==>
                 HasPassingValue(ev, f, value)
  {
    MatchesIff(ev, constraints, value);
    forall f | f in constraints.fields && HasPassingValue(ev, f, value)
      ensures Selects(ev, f, value)
    {
    }
  }

  // An optional field whose only value fails its filter, the schema `false` that no value
  // meets, and yet the value matches.
  lemma OptionalFieldPassesUnfiltered(value: Json)
    ensures var ev := Evaluator((path, v) => [v], (schema, v) => schema != Bool(false));
            var field := ConstraintsField(["$"], Some(true), Some(Bool(false)), None, None, None, false);
            Matches(ev, Constraints([field]), value) && !MeetsDocumentedRule(ev, field, value)
  {
    var ev := Evaluator((path, v) => [v], (schema, v) => schema != Bool(false));
    var field := ConstraintsField(["$"], Some(true), Some(Bool(false)), None, None, None, false);
    assert "$" in field.path && ev.query("$", value) == [value];
  }
}
