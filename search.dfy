/**
 * Free-text search of list endpoints: a query, optional field list, case
 * mode and match kind become an ORM `where` filter over the configured
 * searchable fields.
 */
module Search {
  import opened Common
  import opened Strings

  datatype Mode = Insensitive | Sensitive
  datatype SearchType = Contains | StartsWith | EndsWith | Equals | FullText
  datatype Operator = And | Or

  /** The validated search query of a request. */
  datatype SearchDto = SearchDto(
    query: Option<string>,
    fields: Option<seq<string>>,
    mode: Mode,
    searchType: SearchType)

  datatype SearchableField = SearchableField(field: string, weight: Option<int>, relation: Option<string>)

  datatype SearchConfig = SearchConfig(
    searchableFields: seq<SearchableField>,
    enableFullTextSearch: bool,
    defaultOperator: Option<Operator>)

  /** The innermost filter on one column. */
  datatype Leaf =
    | Match(searchType: SearchType, query: string, mode: Mode)   // {[searchType]: q, mode}
    | TextSearch(query: string)                                  // {search: q}
    | Similarity(gte: real, query: string)                       // {similarity: {gte, query}}

  /** One alternative of the filter: a column, or a column of a related record. */
  datatype Condition =
    | FieldCond(field: string, leaf: Leaf)
    | RelationCond(relation: string, field: string, leaf: Leaf)

  /** The `where` object: empty (matches everything), or conditions joined by AND or OR. */
  datatype Where = Everything | Combine(op: Operator, conditions: seq<Condition>)

  const DefaultSimilarity: real := 0.3

  /** A query is present when it is a non-empty string. */
  predicate HasQuery(dto: SearchDto)
  {
    dto.query.Some? && dto.query.value != ""
  }

  /** `isActive`: the query is present and not only whitespace. */
  predicate IsActive(dto: SearchDto)
  {
    HasQuery(dto) && Trim(dto.query.value) != ""
  }

  function ConfiguredFields(config: SearchConfig): (r: seq<string>)
    ensures |r| == |config.searchableFields|
    ensures forall i :: 0 <= i < |r| ==> r[i] == config.searchableFields[i].field
  {
    seq(|config.searchableFields|, i requires 0 <= i < |config.searchableFields| => config.searchableFields[i].field)
  }

  /** The request's field list whenever it is given, even empty; otherwise every configured field. */
  function EffectiveFields(dto: SearchDto, config: SearchConfig): seq<string>
  {
    if dto.fields.Some? then dto.fields.value else ConfiguredFields(config)
  }

  /** `buildFieldCondition`: a dotted field splits at its first '.' into relation and rest. */
  function BuildFieldCondition(dto: SearchDto, field: string, q: string): (c: Condition)
    ensures c.leaf == Match(dto.searchType, q, dto.mode)
    ensures c.FieldCond? <==> '.' !in field
    ensures c.FieldCond? ==> c.field == field
    ensures c.RelationCond? ==> '.' !in c.relation && c.relation + "." + c.field == field
  {
    if '.' in field then
      var parts := Split(field, '.');
      SplitFirst(field, '.');
      var i := IndexOf(field, '.');
      assert field == field[..i] + "." + field[i + 1..];
      RelationCond(parts[0], Join(parts[1..], '.'), Match(dto.searchType, q, dto.mode))
    else FieldCond(field, Match(dto.searchType, q, dto.mode))
  }

  function BuildRegularSearch(dto: SearchDto, q: string, fields: seq<string>, config: SearchConfig): (w: Where)
    ensures w.Combine?
    ensures w.op == (if config.defaultOperator.Some? then config.defaultOperator.value else Or)
    ensures |w.conditions| == |fields|
    ensures forall i :: 0 <= i < |fields| ==> w.conditions[i] == BuildFieldCondition(dto, fields[i], q)
  {
    var op := if config.defaultOperator.Some? then config.defaultOperator.value else Or;
    Combine(op, seq(|fields|, i requires 0 <= i < |fields| => BuildFieldCondition(dto, fields[i], q)))
  }

  function BuildFullTextSearch(q: string, config: SearchConfig): (w: Where)
    ensures w.Combine? && w.op == Or
    ensures |w.conditions| == |config.searchableFields|
    ensures forall i :: 0 <= i < |w.conditions| ==>
              w.conditions[i] == FieldCond(config.searchableFields[i].field, TextSearch(q))
  {
    Combine(Or, seq(|config.searchableFields|, i requires 0 <= i < |config.searchableFields| =>
                      FieldCond(config.searchableFields[i].field, TextSearch(q))))
  }

  function BuildWhere(dto: SearchDto, config: SearchConfig): Where
  {
    if !HasQuery(dto) || Trim(dto.query.value) == "" then Everything
    else
      var q := Trim(dto.query.value);
      if dto.searchType == FullText && config.enableFullTextSearch then BuildFullTextSearch(q, config)
      else BuildRegularSearch(dto, q, EffectiveFields(dto, config), config)
  }

  /** The filter is empty exactly when the search is inactive. */
  lemma BuildWhereEmptyIff(dto: SearchDto, config: SearchConfig)
    ensures BuildWhere(dto, config) == Everything <==> !IsActive(dto)
    ensures HasQuery(dto) && !IsActive(dto) ==> AllSpace(dto.query.value)
  {
    if HasQuery(dto) {
      TrimEmptyIff(dto.query.value);
    }
  }

  /**
   * An active regular search has one condition per effective field, in
   * order, each holding the trimmed query with the request's match kind and
   * mode; a dotted field is nested under its relation.
   */
  lemma RegularSearchShape(dto: SearchDto, config: SearchConfig)
    requires IsActive(dto)
    requires !(dto.searchType == FullText && config.enableFullTextSearch)
    ensures var w := BuildWhere(dto, config);
            var fields := EffectiveFields(dto, config);
            w.Combine? && |w.conditions| == |fields|
            && (forall i :: 0 <= i < |fields| ==>
                  w.conditions[i].leaf == Match(dto.searchType, Trim(dto.query.value), dto.mode)
                  && (w.conditions[i].FieldCond? ==> w.conditions[i].field == fields[i])
                  && (w.conditions[i].RelationCond? ==>
                        w.conditions[i].relation + "." + w.conditions[i].field == fields[i]))
  {
  }

  /** Full-text search ignores the request's field list and mode and ORs over every configured field. */
  lemma FullTextIgnoresRequestFields(dto: SearchDto, dto2: SearchDto, config: SearchConfig)
    requires IsActive(dto) && dto.searchType == FullText && config.enableFullTextSearch
    requires dto2.query == dto.query && dto2.searchType == FullText
    ensures BuildWhere(dto, config) == BuildWhere(dto2, config)
    ensures BuildWhere(dto, config).op == Or
    ensures |BuildWhere(dto, config).conditions| == |config.searchableFields|
  {
  }

  /** `searchTerms`: the non-empty whitespace-separated tokens of the trimmed query. */
  function SearchTerms(dto: SearchDto): (terms: seq<string>)
    ensures forall k :: 0 <= k < |terms| ==> terms[k] != [] && NoSpace(terms[k])
  {
    if !HasQuery(dto) then []
    else
      var parts := SplitSpaces(Trim(dto.query.value));
      var terms := NonEmpty(parts);
      ConcatNonEmpty(parts);
      terms
  }

  lemma {:induction false} ConcatSearchTerms(dto: SearchDto)
    requires HasQuery(dto)
    ensures Concat(SearchTerms(dto)) == RemoveSpaces(dto.query.value)
  {
    var q := dto.query.value;
    ConcatNonEmpty(SplitSpaces(Trim(q)));
    SplitSpacesConcat(Trim(q));
    RemoveSpacesTrim(q);
  }

  /** The terms, put together, are the query's non-space characters in order, and there are none exactly when the search is inactive. */
  lemma {:induction false} SearchTermsSpec(dto: SearchDto)
    requires HasQuery(dto)
    ensures Concat(SearchTerms(dto)) == RemoveSpaces(dto.query.value)
    ensures SearchTerms(dto) == [] <==> !IsActive(dto)
  {
    var q := dto.query.value;
    ConcatSearchTerms(dto);
    var t := Trim(q);
    if t == "" {
      assert SplitSpaces(t) == [""];
    } else {
      var i, j := TrimIsSlice(q);
      assert !IsSpace(t[0]);
      RemoveSpacesTrim(q);
      assert RemoveSpaces(t) == [t[0]] + RemoveSpaces(t[1..]);
    }
  }

  /** A query made of words separated by runs of whitespace, with any whitespace around it, yields exactly those words. */
  lemma SearchTermsOfWords(dto: SearchDto, pre: string, ws: seq<string>, gaps: seq<string>, post: string)
    requires |ws| >= 1 && |gaps| == |ws| - 1 && Words(ws) && Gaps(gaps) && AllSpace(pre) && AllSpace(post)
    requires dto.query == Some(pre + Spaced(ws, gaps) + post)
    ensures SearchTerms(dto) == ws
    ensures IsActive(dto)
  {
    SpacedEnds(ws, gaps);
    TrimPadded(pre, Spaced(ws, gaps), post);
    SplitSpacesSpaced(ws, gaps);
    NonEmptyOfWords(ws);
  }

  function BuildFuzzySearch(dto: SearchDto, config: SearchConfig, similarity: real := DefaultSimilarity): (w: Where)
    ensures w == Everything <==> !IsActive(dto)
    ensures w.Combine? ==>
              w.op == Or && |w.conditions| == |EffectiveFields(dto, config)|
              && forall i :: 0 <= i < |w.conditions| ==>
                   w.conditions[i] == FieldCond(EffectiveFields(dto, config)[i], Similarity(similarity, dto.query.value))
  {
    if !IsActive(dto) then Everything
    else
      var fields := EffectiveFields(dto, config);
      Combine(Or, seq(|fields|, i requires 0 <= i < |fields| => FieldCond(fields[i], Similarity(similarity, dto.query.value))))
  }
}
