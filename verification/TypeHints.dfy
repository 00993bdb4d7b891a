// Credential type hints read out of a constraint field's filter
// (src/core/input_descriptor.rs, `credential_types_hint`).
module TypeHints {
  import opened Wrappers
  import opened JsonValues
  import opened InputDescriptors

  type CredentialType = string

  // `str::trim_start_matches` and `str::trim_end_matches` with one character: what is left
  // when all of it is taken off one end.
  function TrimStart(s: string, c: char): (r: string)
    ensures |r| <= |s| && r == s[|s| - |r|..]
    ensures forall i :: 0 <= i < |s| - |r| ==> s[i] == c
    ensures !StartsWith(r, c)
  {
    if s != [] && s[0] == c then TrimStart(s[1..], c) else s
  }

  function TrimEnd(s: string, c: char): (r: string)
    ensures r <= s
    ensures forall i :: |r| <= i < |s| ==> s[i] == c
    ensures !EndsWith(r, c)
  {
    if s != [] && s[|s| - 1] == c then TrimEnd(s[..|s| - 1], c) else s
  }

  predicate StartsWith(s: string, c: char) {
    s != [] && s[0] == c
  }

  predicate EndsWith(s: string, c: char) {
    s != [] && s[|s| - 1] == c
  }

  // `str::split` with one character: never empty, and `""` splits into `[""]`.
  function Split(s: string, sep: char): (parts: seq<string>)
    ensures parts != []
  {
    if s == [] then [""]
    else
      var rest := Split(s[1..], sep);
      if s[0] == sep then [""] + rest else [[s[0]] + rest[0]] + rest[1..]
  }

  function Join(parts: seq<string>, sep: char): string
    requires parts != []
  {
    if |parts| == 1 then parts[0] else parts[0] + [sep] + Join(parts[1..], sep)
  }

  // The pattern without anchors and outer parentheses.
  function Body(pattern: string): string {
    var trimmed := TrimEnd(TrimStart(pattern, '^'), '$');
    TrimEnd(TrimStart(trimmed, '('), ')')
  }

  function PatternHint(pattern: string): seq<CredentialType> {
    Split(Body(pattern), '|')
  }

  // The alternation pattern `^(n1|...|nk)$`.
  function AlternationPattern(names: seq<string>): string
    requires names != []
  {
    "^(" + Join(names, '|') + ")$"
  }

  predicate PathMentionsType(path: JsonPath) {
    exists i :: 0 <= i < |path| && "type" <= path[i..]
  }

  function AllStrings(values: seq<Json>): seq<string> {
    if values == [] then []
    else (if values[0].Str? then [values[0].text] else []) + AllStrings(values[1..])
  }

  function StringMember(value: Option<Json>, key: string): Option<string> {
    if value.Some? && Member(value.value, key).Some? then AsStr(Member(value.value, key).value) else None
  }

  function ToList(s: Option<string>): seq<string> {
    if s.Some? then [s.value] else []
  }

  function Contains(filter: Option<Json>): Option<Json> {
    if filter.Some? then Member(filter.value, "contains") else None
  }

  function EnumHint(contains: Option<Json>): seq<string> {
    var values := if contains.Some? then Member(contains.value, "enum") else None;
    if values.Some? && values.value.Array? then AllStrings(values.value.items) else []
  }

  // What the filter names, in the order in which it is read: `const`, `contains.const`,
  // `contains.enum`, `pattern`.
  function NamedByFilter(filter: Option<Json>): seq<CredentialType> {
    var pattern := StringMember(filter, "pattern");
    ToList(StringMember(filter, "const"))
    + ToList(StringMember(Contains(filter), "const"))
    + EnumHint(Contains(filter))
    + (if pattern.Some? then PatternHint(pattern.value) else [])
  }

  predicate MentionsType(field: ConstraintsField) {
    exists p :: p in field.path && PathMentionsType(p)
  }

  function TypesHint(field: ConstraintsField): seq<CredentialType> {
    if MentionsType(field) then NamedByFilter(field.filter) else []
  }

  method CredentialTypesHint(field: ConstraintsField) returns (parsed: seq<CredentialType>)
    ensures parsed == TypesHint(field)
    ensures forall t :: t in parsed <==> MentionsType(field) && field.filter.Some? && Names(field.filter.value, t)
  {
    parsed := [];
    if MentionsType(field) {
      var filter := field.filter;
      var constant := StringMember(filter, "const");
      if constant.Some? {
        parsed := parsed + [constant.value];
      }
      assert parsed == ToList(constant);
      var nested := StringMember(Contains(filter), "const");
      if nested.Some? {
        parsed := parsed + [nested.value];
      }
      assert parsed == ToList(constant) + ToList(nested);
      parsed := parsed + EnumHint(Contains(filter));
      var pattern := StringMember(filter, "pattern");
      if pattern.Some? {
        parsed := parsed + PatternHint(pattern.value);
      }
    }
    forall t {
      HintedIffNamed(field.filter, t);
    }
  }

  // ---- What is hinted ----

  // At `i` stands `t`, free of the separator and as long as it can be.
  ghost predicate PieceAt(s: string, sep: char, i: nat, t: string) {
    && i + |t| <= |s| && s[i..i + |t|] == t && sep !in t
    && (i > 0 ==> s[i - 1] == sep)
    && (i + |t| < |s| ==> s[i + |t|] == sep)
  }

  ghost predicate IsPiece(s: string, sep: char, t: string) {
    exists i: nat :: PieceAt(s, sep, i, t)
  }

  // The filter names the type: as a constant, here or inside `contains`, in the enumeration
  // there, or as an alternative of its pattern.
  ghost predicate Names(filter: Json, t: CredentialType) {
    var contains := Member(filter, "contains");
    || Member(filter, "const") == Some(Str(t))
    || (contains.Some? && Member(contains.value, "const") == Some(Str(t)))
    || (contains.Some? && InEnum(Member(contains.value, "enum"), t))
    || IsAlternative(Member(filter, "pattern"), t)
  }

  ghost predicate InEnum(values: Option<Json>, t: string) {
    values.Some? && values.value.Array? && Str(t) in values.value.items
  }

  ghost predicate IsAlternative(pattern: Option<Json>, t: string) {
    pattern.Some? && pattern.value.Str? && IsPiece(Body(pattern.value.text), '|', t)
  }

  lemma PieceShift(s: string, sep: char, i: nat, t: string)
    requires s != [] && i > 0
    ensures PieceAt(s, sep, i, t) <==> PieceAt(s[1..], sep, i - 1, t) && (i == 1 ==> s[0] == sep)
  {
    if i + |t| <= |s| {
      assert s[i..i + |t|] == s[1..][i - 1..i - 1 + |t|];
    }
  }

  ghost predicate IsLaterPiece(s: string, sep: char, t: string) {
    exists i: nat :: i > 0 && PieceAt(s, sep, i, t)
  }

  // The first part of a split is the piece at the start,
  lemma {:induction false} FirstPart(s: string, sep: char, t: string)
    ensures Split(s, sep)[0] == t <==> PieceAt(s, sep, 0, t)
  {
    if s != [] && s[0] != sep {
      if t == [] || t[0] != s[0] {
        assert 0 < |t| <= |s| ==> s[..|t|][0] == s[0];
      } else {
        FirstPart(s[1..], sep, t[1..]);
        assert t == [t[0]] + t[1..];
        assert |t| <= |s| ==> (s[..|t|] == t <==> s[1..][..|t| - 1] == t[1..]);
      }
    }
  }

  // the others are the pieces further on.
  lemma {:induction false} LaterParts(s: string, sep: char, t: string)
    ensures t in Split(s, sep)[1..] <==> IsLaterPiece(s, sep, t)
  {
    if s != [] {
      LaterParts(s[1..], sep, t);
      FirstPart(s[1..], sep, t);
      LaterPieceShift(s, sep, t);
      var rest := Split(s[1..], sep);
      assert rest == [rest[0]] + rest[1..];
    }
  }

  lemma LaterPieceShift(s: string, sep: char, t: string)
    requires s != []
    ensures IsLaterPiece(s, sep, t) <==>
            IsLaterPiece(s[1..], sep, t) || (s[0] == sep && PieceAt(s[1..], sep, 0, t))
  {
    forall i: nat | i > 0 {
      PieceShift(s, sep, i, t);
    }
    if i: nat :| i > 0 && PieceAt(s[1..], sep, i, t) {
      PieceShift(s, sep, i + 1, t);
      assert PieceAt(s, sep, i + 1, t);
    }
    if s[0] == sep && PieceAt(s[1..], sep, 0, t) {
      PieceShift(s, sep, 1, t);
      assert PieceAt(s, sep, 1, t);
    }
  }

  // A split yields exactly the pieces between separators.
  lemma SplitMeaning(s: string, sep: char, t: string)
    ensures t in Split(s, sep) <==> IsPiece(s, sep, t)
  {
    FirstPart(s, sep, t);
    LaterParts(s, sep, t);
    var parts := Split(s, sep);
    assert parts == [parts[0]] + parts[1..];
  }

  lemma {:induction false} AllStringsMeaning(values: seq<Json>, t: string)
    ensures t in AllStrings(values) <==> Str(t) in values
  {
    if values != [] {
      AllStringsMeaning(values[1..], t);
      assert values == [values[0]] + values[1..];
    }
  }

  lemma EnumMeaning(contains: Option<Json>, t: CredentialType)
    ensures t in EnumHint(contains) <==> contains.Some? && InEnum(Member(contains.value, "enum"), t)
  {
    var values := if contains.Some? then Member(contains.value, "enum") else None;
    if values.Some? && values.value.Array? {
      AllStringsMeaning(values.value.items, t);
    }
  }

  lemma ConstantMeaning(value: Option<Json>, key: string, t: string)
    ensures t in ToList(StringMember(value, key)) <==> value.Some? && Member(value.value, key) == Some(Str(t))
  {
  }

  lemma HintedIffNamed(filter: Option<Json>, t: CredentialType)
    ensures t in NamedByFilter(filter) <==> filter.Some? && Names(filter.value, t)
  {
    ConstantMeaning(filter, "const", t);
    ConstantMeaning(Contains(filter), "const", t);
    EnumMeaning(Contains(filter), t);
    var pattern := StringMember(filter, "pattern");
    if pattern.Some? {
      SplitMeaning(Body(pattern.value), '|', t);
    }
  }

  lemma PathMentionsTypeIff(path: JsonPath)
    ensures PathMentionsType(path) <==> exists before: string, after: string :: path == before + "type" + after
  {
    if i :| 0 <= i < |path| && "type" <= path[i..] {
      assert path == path[..i] + "type" + path[i + 4..];
    }
    if before: string, after: string :| path == before + "type" + after {
      assert path[|before|..] == "type" + after;
    }
  }

  // ---- Splitting inverts joining, and the other way round ----

  ghost predicate FreeOf(parts: seq<string>, sep: char) {
    forall i :: 0 <= i < |parts| ==> sep !in parts[i]
  }

  lemma {:induction false} SplitPrefix(head: string, tail: string, sep: char)
    requires sep !in head
    ensures Split(head + [sep] + tail, sep) == [head] + Split(tail, sep)
  {
    var s := head + [sep] + tail;
    if head == [] {
      assert s[1..] == tail;
    } else {
      assert s[1..] == head[1..] + [sep] + tail;
      SplitPrefix(head[1..], tail, sep);
      assert [s[0]] + head[1..] == head;
    }
  }

  lemma {:induction false} SplitWhole(s: string, sep: char)
    requires sep !in s
    ensures Split(s, sep) == [s]
  {
    if s != [] {
      SplitWhole(s[1..], sep);
      assert [s[0]] + s[1..] == s;
    }
  }

  lemma {:induction false} SplitInvertsJoin(parts: seq<string>, sep: char)
    requires parts != [] && FreeOf(parts, sep)
    ensures Split(Join(parts, sep), sep) == parts
  {
    if |parts| == 1 {
      SplitWhole(parts[0], sep);
    } else {
      SplitPrefix(parts[0], Join(parts[1..], sep), sep);
      SplitInvertsJoin(parts[1..], sep);
    }
  }

  lemma {:induction false} JoinInvertsSplit(s: string, sep: char)
    ensures Join(Split(s, sep), sep) == s
  {
    if s != [] {
      JoinInvertsSplit(s[1..], sep);
      var rest := Split(s[1..], sep);
      if s[0] == sep {
        assert ([""] + rest)[1..] == rest;
      } else {
        assert ([[s[0]] + rest[0]] + rest[1..])[1..] == rest[1..];
      }
    }
  }

  // What is left of `^(body)$` once anchors and parentheses are trimmed.
  lemma TrimPattern(body: string)
    ensures TrimEnd(TrimStart("^(" + body + ")$", '^'), '$') == "(" + body + ")"
  {
    var whole := "^(" + body + ")$";
    assert whole[1..] == "(" + body + ")$";
    assert TrimStart(whole, '^') == "(" + body + ")$";
    var unanchored := "(" + body + ")$";
    assert unanchored[..|unanchored| - 1] == "(" + body + ")";
  }

  lemma TrimParentheses(body: string)
    ensures TrimEnd(TrimStart("(" + body + ")", '('), ')') == body <==>
            !StartsWith(body, '(') && !EndsWith(body, ')')
  {
    var whole, open := "(" + body + ")", body + ")";
    assert whole[1..] == open;
    var left := TrimStart(open, '(');
    assert TrimStart(whole, '(') == left;
    var inner := TrimEnd(left, ')');
    assert inner != [] ==> inner[0] == left[0];
    if StartsWith(body, '(') {
      assert inner != body;
    } else {
      assert left == open;
      assert open[..|open| - 1] == body;
      assert inner == TrimEnd(body, ')');
    }
  }

  lemma {:induction false} JoinEnds(names: seq<string>, sep: char)
    requires names != []
    ensures Join(names, sep) == "" <==> names == [""]
    ensures names[0] != "" ==> Join(names, sep) != "" && Join(names, sep)[0] == names[0][0]
    ensures names[0] == "" && |names| > 1 ==> Join(names, sep)[0] == sep
    ensures var last := names[|names| - 1];
            && (last != "" ==> Join(names, sep) != "" && Join(names, sep)[|Join(names, sep)| - 1] == last[|last| - 1])
            && (last == "" && |names| > 1 ==> Join(names, sep)[|Join(names, sep)| - 1] == sep)
  {
    if |names| > 1 {
      JoinEnds(names[1..], sep);
      assert names[1..][|names[1..]| - 1] == names[|names| - 1];
    }
  }

  // The hint reads the names back out of an alternation pattern exactly when the first
  // name does not open with a parenthesis and the last does not close with one: those
  // would be trimmed away with the pattern's own parentheses.
  lemma PatternHintInvertsAlternation(names: seq<string>)
    requires names != [] && FreeOf(names, '|')
    ensures PatternHint(AlternationPattern(names)) == names <==>
            !StartsWith(names[0], '(') && !EndsWith(names[|names| - 1], ')')
  {
    var body := Join(names, '|');
    TrimPattern(body);
    TrimParentheses(body);
    JoinEnds(names, '|');
    var inner := TrimEnd(TrimStart("(" + body + ")", '('), ')');
    if inner == body {
      SplitInvertsJoin(names, '|');
    } else {
      JoinInvertsSplit(inner, '|');
    }
  }

  lemma {:induction false} AllStringsOfArray(texts: seq<string>)
    ensures AllStrings(StrArray(texts).items) == texts
  {
    if texts != [] {
      AllStringsOfArray(texts[1..]);
      assert StrArray(texts).items[1..] == StrArray(texts[1..]).items;
      assert texts == [texts[0]] + texts[1..];
    }
  }

  lemma ConstantFilter(name: CredentialType)
    ensures NamedByFilter(Some(Object(map["const" := Str(name)]))) == [name]
  {
    var filter := Some(Object(map["const" := Str(name)]));
    assert StringMember(filter, "const") == Some(name);
    assert StringMember(filter, "pattern") == None && Contains(filter) == None;
  }

  lemma {:induction false} ContainsFilter(contains: Json)
    ensures NamedByFilter(Some(Object(map["contains" := contains]))) ==
            ToList(StringMember(Some(contains), "const")) + EnumHint(Some(contains))
  {
    var filter := Some(Object(map["contains" := contains]));
    assert StringMember(filter, "const") == None && StringMember(filter, "pattern") == None;
    assert Contains(filter) == Some(contains);
  }

  lemma EnumFilter(names: seq<CredentialType>)
    ensures var contains := Object(map["enum" := StrArray(names)]);
            NamedByFilter(Some(Object(map["contains" := contains]))) == names
  {
    var contains := Object(map["enum" := StrArray(names)]);
    ContainsFilter(contains);
    AllStringsOfArray(names);
    assert StringMember(Some(contains), "const") == None;
    assert EnumHint(Some(contains)) == names;
  }

  lemma PatternFilter(pattern: string)
    ensures NamedByFilter(Some(Object(map["pattern" := Str(pattern)]))) == PatternHint(pattern)
  {
    var filter := Some(Object(map["pattern" := Str(pattern)]));
    assert StringMember(filter, "const") == None && StringMember(filter, "pattern") == Some(pattern);
    assert Contains(filter) == None;
  }

  // A filter of each of the four kinds hints exactly the types it was written for, in their
  // order; a pattern does so where it can be read back.
  lemma FiltersHintTheirTypes(names: seq<CredentialType>, filter: Json)
    requires names != []
    ensures filter == Object(map["const" := Str(names[0])]) ==> NamedByFilter(Some(filter)) == [names[0]]
    ensures filter == Object(map["contains" := Object(map["const" := Str(names[0])])]) ==>
              NamedByFilter(Some(filter)) == [names[0]]
    ensures filter == Object(map["contains" := Object(map["enum" := StrArray(names)])]) ==>
              NamedByFilter(Some(filter)) == names
    ensures filter == Object(map["pattern" := Str(AlternationPattern(names))]) && FreeOf(names, '|') ==>
              (NamedByFilter(Some(filter)) == names <==>
               !StartsWith(names[0], '(') && !EndsWith(names[|names| - 1], ')'))
  {
    if filter == Object(map["const" := Str(names[0])]) {
      ConstantFilter(names[0]);
    } else if filter == Object(map["contains" := Object(map["const" := Str(names[0])])]) {
      ContainsFilter(Object(map["const" := Str(names[0])]));
    } else if filter == Object(map["contains" := Object(map["enum" := StrArray(names)])]) {
      EnumFilter(names);
    } else if filter == Object(map["pattern" := Str(AlternationPattern(names))]) && FreeOf(names, '|') {
      PatternFilter(AlternationPattern(names));
      PatternHintInvertsAlternation(names);
    }
  }
}
