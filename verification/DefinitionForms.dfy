// The JSON form of presentation definitions, as their serde attributes have it written and read
// (src/core/presentation_definition.rs, src/core/input_descriptor.rs).
module DefinitionForms {
  import opened Wrappers
  import opened JsonValues
  import opened ClaimFormats
  import opened InputDescriptors
  import opened PresentationDefinitions

  // Conversions of the parts are library code: any functions.
  datatype Parts = Parts(
    fieldToJson: ConstraintsField -> Json,
    fieldFromJson: Json -> Option<ConstraintsField>,
    requirementToJson: SubmissionRequirement -> Json,
    requirementFromJson: Json -> Option<SubmissionRequirement>,
    formatsToJson: ClaimFormatMap -> Json,
    formatsFromJson: Json -> Option<ClaimFormatMap>)

  function ListToJson<A>(to: A -> Json, items: seq<A>): Json {
    Array(seq(|items|, i requires 0 <= i < |items| => to(items[i])))
  }

  function ListFromJson<A>(from: Json -> Option<A>, v: Json): Option<seq<A>> {
    if v.Array? && forall i :: 0 <= i < |v.items| ==> from(v.items[i]).Some?
    then Some(seq(|v.items|, i requires 0 <= i < |v.items| => from(v.items[i]).value))
    else None
  }

  // `#[serde(default)]`: an entry that may be left out.
  function Defaulted<A>(o: map<string, Json>, key: string, from: Json -> Option<A>, default: A): Option<A> {
    if key in o then from(o[key]) else Some(default)
  }

  // An optional entry may also be null.
  function OptionFromJson<A>(from: Json -> Option<A>, v: Json): Option<Option<A>> {
    if v == Null then Some(None)
    else
      match from(v)
      case Some(a) => Some(Some(a))
      case None => None
  }

  // `fields` is left out when empty, and yet required when read.
  function ConstraintsToJson(p: Parts, c: Constraints): Json {
    Object(if c.IsEmpty() then map[] else map["fields" := ListToJson(p.fieldToJson, c.fields)])
  }

  function ConstraintsFromJson(p: Parts, v: Json): Option<Constraints> {
    match Member(v, "fields")
    case None => None
    case Some(list) =>
      match ListFromJson(p.fieldFromJson, list)
      case Some(fields) => Some(Constraints(fields))
      case None => None
  }

  function WithFormats(p: Parts, o: map<string, Json>, formats: ClaimFormatMap): map<string, Json> {
    if formats == map[] then o else o["format" := p.formatsToJson(formats)]
  }

  function DescriptorToJson(p: Parts, d: InputDescriptor): Json {
    var o := WithFormats(p, map["id" := Str(d.id), "constraints" := ConstraintsToJson(p, d.constraints)], d.format);
    Object(if d.groups == [] then o else o["group" := StrArray(d.groups)])
  }

  function DescriptorFromJson(p: Parts, v: Json): Option<InputDescriptor> {
    if !v.Object? || "id" !in v.fields || !v.fields["id"].Str? then None
    else
      match (Defaulted(v.fields, "constraints", c => ConstraintsFromJson(p, c), Constraints([])),
             Defaulted(v.fields, "format", p.formatsFromJson, map[]),
             Defaulted(v.fields, "group", g => StringsFromJson(g), []))
      case (Some(constraints), Some(formats), Some(groups)) =>
        Some(InputDescriptor(v.fields["id"].text, constraints, formats, groups))
      case _ => None
  }

  function DescriptorsToJson(p: Parts, ds: seq<InputDescriptor>): Json {
    ListToJson(d => DescriptorToJson(p, d), ds)
  }

  function DescriptorsFromJson(p: Parts, v: Json): Option<seq<InputDescriptor>> {
    ListFromJson(d => DescriptorFromJson(p, d), v)
  }

  function RequirementsFromJson(p: Parts, v: Json): Option<Option<seq<SubmissionRequirement>>> {
    OptionFromJson(rs => ListFromJson(p.requirementFromJson, rs), v)
  }

  function DefinitionToJson(p: Parts, d: PresentationDefinition): Json {
    var o := WithFormats(p, map["id" := Str(d.id), "input_descriptors" := DescriptorsToJson(p, d.inputDescriptors)], d.format);
    Object(match d.submissionRequirements
           case Some(rs) => o["submission_requirements" := ListToJson(p.requirementToJson, rs)]
           case None => o)
  }

  function DefinitionFromJson(p: Parts, v: Json): Option<PresentationDefinition> {
    if !v.Object? || "id" !in v.fields || !v.fields["id"].Str? || "input_descriptors" !in v.fields then None
    else
      match (DescriptorsFromJson(p, v.fields["input_descriptors"]),
             Defaulted(v.fields, "submission_requirements", rs => RequirementsFromJson(p, rs), None),
             Defaulted(v.fields, "format", p.formatsFromJson, map[]))
      case (Some(descriptors), Some(requirements), Some(formats)) =>
        Some(PresentationDefinition(v.fields["id"].text, descriptors, requirements, formats))
      case _ => None
  }

  // ---- What reads back ----

  // Formats that their own JSON form gives back. The untagged payloads of others may come
  // back as another variant.
  predicate Canonical(p: Parts, formats: ClaimFormatMap) {
    p.formatsFromJson(p.formatsToJson(formats)) == Some(formats)
  }

  // Inside a definition, no formats are not written at all.
  predicate FormatsReadBack(p: Parts, formats: ClaimFormatMap) {
    formats != map[] ==> Canonical(p, formats)
  }

  ghost predicate ListReadsBack<A>(to: A -> Json, from: Json -> Option<A>, items: seq<A>) {
    forall i :: 0 <= i < |items| ==> from(to(items[i])) == Some(items[i])
  }

  // There is a field, and each field reads back.
  ghost predicate ConstraintsReadBack(p: Parts, c: Constraints) {
    !c.IsEmpty() && ListReadsBack(p.fieldToJson, p.fieldFromJson, c.fields)
  }

  ghost predicate DefinitionReadsBack(p: Parts, d: PresentationDefinition) {
    && FormatsReadBack(p, d.format)
    && (forall x :: x in d.inputDescriptors ==> ConstraintsReadBack(p, x.constraints) && FormatsReadBack(p, x.format))
    && (d.submissionRequirements.Some? ==>
          ListReadsBack(p.requirementToJson, p.requirementFromJson, d.submissionRequirements.value))
  }

  lemma ListReadsBackIff<A>(to: A -> Json, from: Json -> Option<A>, items: seq<A>)
    ensures ListFromJson(from, ListToJson(to, items)) == Some(items) <==> ListReadsBack(to, from, items)
    ensures ListFromJson(from, ListToJson(to, items)).None? <==> exists i :: 0 <= i < |items| && from(to(items[i])).None?
  {
    var list := ListToJson(to, items);
    assert forall i :: 0 <= i < |items| ==> list.items[i] == to(items[i]);
    var read := ListFromJson(from, list);
    if read.Some? {
      assert forall i :: 0 <= i < |items| ==> read.value[i] == from(to(items[i])).value;
      assert read.value == items <==> ListReadsBack(to, from, items);
    }
  }

  lemma ConstraintsReadBackIff(p: Parts, c: Constraints)
    ensures ConstraintsFromJson(p, ConstraintsToJson(p, c)) == Some(c) <==> ConstraintsReadBack(p, c)
    ensures c.IsEmpty() ==> ConstraintsFromJson(p, ConstraintsToJson(p, c)) == None
  {
    ListReadsBackIff(p.fieldToJson, p.fieldFromJson, c.fields);
  }

  lemma DescriptorReadsBackIff(p: Parts, d: InputDescriptor)
    ensures DescriptorFromJson(p, DescriptorToJson(p, d)) == Some(d) <==>
            ConstraintsReadBack(p, d.constraints) && FormatsReadBack(p, d.format)
    ensures d.constraints.IsEmpty() ==> DescriptorFromJson(p, DescriptorToJson(p, d)) == None
  {
    ConstraintsReadBackIff(p, d.constraints);
    StringsRoundTrip(d.groups);
  }

  lemma DescriptorsReadBackIff(p: Parts, ds: seq<InputDescriptor>)
    ensures DescriptorsFromJson(p, DescriptorsToJson(p, ds)) == Some(ds) <==>
            forall x :: x in ds ==> ConstraintsReadBack(p, x.constraints) && FormatsReadBack(p, x.format)
    ensures (exists x :: x in ds && x.constraints.IsEmpty()) ==> DescriptorsFromJson(p, DescriptorsToJson(p, ds)) == None
  {
    forall x | x in ds {
      DescriptorReadsBackIff(p, x);
    }
    ListReadsBackIff(d => DescriptorToJson(p, d), d => DescriptorFromJson(p, d), ds);
  }

  lemma RequirementsReadBackIff(p: Parts, rs: seq<SubmissionRequirement>)
    ensures RequirementsFromJson(p, ListToJson(p.requirementToJson, rs)) == Some(Some(rs)) <==>
            ListReadsBack(p.requirementToJson, p.requirementFromJson, rs)
  {
    ListReadsBackIff(p.requirementToJson, p.requirementFromJson, rs);
  }

  // A definition is read back from its own JSON form exactly when every descriptor has a
  // constraint field and the fields, formats and requirements read back themselves. One
  // descriptor without constraint fields, and the definition is not read at all.
  lemma DefinitionReadsBackIff(p: Parts, d: PresentationDefinition)
    ensures DefinitionFromJson(p, DefinitionToJson(p, d)) == Some(d) <==> DefinitionReadsBack(p, d)
    ensures (exists x :: x in d.inputDescriptors && x.constraints.IsEmpty()) ==>
              DefinitionFromJson(p, DefinitionToJson(p, d)) == None
  {
    DescriptorsReadBackIff(p, d.inputDescriptors);
    if d.submissionRequirements.Some? {
      RequirementsReadBackIff(p, d.submissionRequirements.value);
    }
  }

  // What may be left out when reading: of a descriptor all but the id, of a definition all but
  // the id and the list of descriptors; null requirements are none.
  lemma DescriptorDefaults(p: Parts, v: Json, d: InputDescriptor)
    requires v.Object? && "constraints" !in v.fields && "format" !in v.fields && "group" !in v.fields
    ensures DescriptorFromJson(p, v) == Some(d) <==>
            Member(v, "id") == Some(Str(d.id)) && d == InputDescriptor(d.id, Constraints([]), map[], [])
  {
  }

  lemma DefinitionDefaults(p: Parts, v: Json, d: PresentationDefinition)
    requires v.Object? && "format" !in v.fields && Member(v, "submission_requirements") in {None, Some(Null)}
    ensures DefinitionFromJson(p, v) == Some(d) <==>
            && Member(v, "id") == Some(Str(d.id))
            && Member(v, "input_descriptors").Some?
            && DescriptorsFromJson(p, v.fields["input_descriptors"]) == Some(d.inputDescriptors)
            && d.submissionRequirements == None && d.format == map[]
  {
  }
}
