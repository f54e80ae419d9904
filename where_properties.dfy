/** What the filter compiler produces for each shape of entry, and for whole
    filters: the clause texts, the values bound and the placeholders used. */
module WhereProperties {
  import opened PhpValue
  import opened SqlText
  import opened WhereBuilder

  // ---------------------------------------------------------------------
  // One entry

  /** A scalar value: exactly one `= :vN` clause, binding the value, and
      the counter advances by one. */
  lemma ScalarClause(key: string, v: Value, c: nat, prefix: string)
    requires key != OrKey && !v.Arr?
    ensures RenderEach(EmitEntry(Entry(key, v), c, prefix).clauses) == [Field(prefix, key) + " = " + Placeholder(c)]
    ensures EmitEntry(Entry(key, v), c, prefix).bound == [v]
  {
    ScalarEntry(Entry(key, v), c, prefix);
    RenderPair(Field(prefix, key) + " = ", c);
  }

  /** `$or`: the value compiled with joiner "or" from the same counter,
      wrapped in parentheses as one clause, with the same bindings. */
  lemma OrClause(v: Value, c: nat, prefix: string)
    ensures RenderEach(EmitEntry(Entry(OrKey, v), c, prefix).clauses)
         == ["(" + Render(WhereText(v, c, prefix, "or")) + ")"]
    ensures EmitEntry(Entry(OrKey, v), c, prefix).bound == Bound(v, c, prefix)
  {
    OrEntry(Entry(OrKey, v), c, prefix);
    RenderWrapped("(", WhereText(v, c, prefix, "or"), ")");
  }

  /** The values a `foreach` over `list` binds, in order: the list's values
      when it is an array, none otherwise. */
  predicate ListedInOrder(bound: seq<Value>, list: Value) {
    if list.Arr? then
      |bound| == |list.entries| && forall k :: 0 <= k < |bound| ==> bound[k] == list.entries[k].val
    else bound == []
  }

  lemma ElementsInOrder(list: Value)
    ensures ListedInOrder(Elements(list), list)
  {
    if list.Arr? {
      ValuesLength(list.entries);
      forall k | 0 <= k < |list.entries| ensures Elements(list)[k] == list.entries[k].val {
        ValuesAt(list.entries, k);
      }
    }
  }

  /** A non-empty `$in` without `$not`: one `in (...)` clause with the
      placeholders c, c + 1, ..., one per value of the list, each bound to
      that value, in list order. */
  lemma InClause(key: string, value: Value, c: nat, prefix: string)
    requires key != OrKey && value.Arr?
    requires !IsEmpty(Index(value, InKey)) && IsEmpty(Index(value, NotKey))
    ensures var r := EmitEntry(Entry(key, value), c, prefix);
            && RenderEach(r.clauses) == [Field(prefix, key) + " in (" + Join(PlaceholderTexts(c, |r.bound|), ", ") + ")"]
            && ListedInOrder(r.bound, Index(value, InKey).value)
  {
    var vals := Elements(Index(value, InKey).value);
    OperatorsEntry(Entry(key, value), c, prefix);
    RenderPlaceholders(Field(prefix, key) + " in (", c, |vals|);
    ElementsInOrder(Index(value, InKey).value);
    assert EmitEntry(Entry(key, value), c, prefix).bound == vals;
  }

  /** A non-empty `$not` holding a non-empty `$in`, without `$in` of its own:
      one `not in (...)` clause, placeholders as for `$in`. */
  lemma NotInClause(key: string, value: Value, c: nat, prefix: string)
    requires key != OrKey && value.Arr?
    requires IsEmpty(Index(value, InKey)) && !IsEmpty(Index(value, NotKey))
    requires !IsEmpty(Index(Index(value, NotKey).value, InKey))
    ensures var r := EmitEntry(Entry(key, value), c, prefix);
            && RenderEach(r.clauses) == [Field(prefix, key) + " not in (" + Join(PlaceholderTexts(c, |r.bound|), ", ") + ")"]
            && ListedInOrder(r.bound, Index(Index(value, NotKey).value, InKey).value)
  {
    var list := Index(Index(value, NotKey).value, InKey).value;
    var vals := Elements(list);
    OperatorsEntry(Entry(key, value), c, prefix);
    RenderPlaceholders(Field(prefix, key) + " not in (", c, |vals|);
    ElementsInOrder(list);
    assert EmitEntry(Entry(key, value), c, prefix).bound == vals;
  }

  /** Any other non-empty `$not`, without `$in`: one `!= :vN` clause bound to
      the `$not` value itself. */
  lemma NotEqualClause(key: string, value: Value, c: nat, prefix: string)
    requires key != OrKey && value.Arr?
    requires IsEmpty(Index(value, InKey)) && !IsEmpty(Index(value, NotKey))
    requires IsEmpty(Index(Index(value, NotKey).value, InKey))
    ensures RenderEach(EmitEntry(Entry(key, value), c, prefix).clauses) == [Field(prefix, key) + " != " + Placeholder(c)]
    ensures EmitEntry(Entry(key, value), c, prefix).bound == [Index(value, NotKey).value]
  {
    OperatorsEntry(Entry(key, value), c, prefix);
    RenderPair(Field(prefix, key) + " != ", c);
  }

  /** Both `$in` and `$not`: two clauses, the `in (...)` one first, and the
      `$not` test numbered after the `$in` values. */
  lemma InAndNotClauses(key: string, value: Value, c: nat, prefix: string)
    requires key != OrKey && value.Arr?
    requires !IsEmpty(Index(value, InKey)) && !IsEmpty(Index(value, NotKey))
    ensures var r := EmitEntry(Entry(key, value), c, prefix);
            var n := |Elements(Index(value, InKey).value)|;
            && |r.clauses| == 2
            && RenderEach(r.clauses)[0] == Field(prefix, key) + " in (" + Join(PlaceholderTexts(c, n), ", ") + ")"
            && r.clauses[1..] == EmitNot(key, value, c + n, prefix).clauses
            && r.bound == Elements(Index(value, InKey).value) + EmitNot(key, value, c + n, prefix).bound
  {
    var n := |Elements(Index(value, InKey).value)|;
    OperatorsEntry(Entry(key, value), c, prefix);
    RenderPlaceholders(Field(prefix, key) + " in (", c, n);
    var r := EmitEntry(Entry(key, value), c, prefix);
    var first := [Lit(Field(prefix, key) + " in (")] + PlaceholderList(c, n) + [Lit(")")];
    assert r.clauses[0] == first;
    RenderEachAt(r.clauses);
    assert RenderEach(r.clauses)[0] == Render(first);
    RenderEachAt([first]);
  }

  /** An array value with neither a non-empty `$in` nor a non-empty `$not`
      adds no clause and binds nothing. */
  lemma SilentClause(key: string, value: Value, c: nat, prefix: string)
    requires key != OrKey && value.Arr?
    requires IsEmpty(Index(value, InKey)) && IsEmpty(Index(value, NotKey))
    ensures EmitEntry(Entry(key, value), c, prefix) == Emitted([], [])
  {
    OperatorsEntry(Entry(key, value), c, prefix);
  }

  // ---------------------------------------------------------------------
  // Whole filters

  /** An empty filter, or null, gives the empty predicate and binds nothing:
      the bindings and the counter stay as they were. */
  lemma EmptyFilter(filter: Value, vars: Bindings, c: nat, prefix: string, joiner: string)
    requires filter == Null || filter == Arr([])
    ensures Render(WhereText(filter, c, prefix, joiner)) == ""
    ensures Bound(filter, c, prefix) == []
    ensures BindAll(vars, c, Bound(filter, c, prefix)) == vars
  {
  }

  /** Entries whose values are arrays with neither operator emit nothing. */
  lemma {:induction false} SilentEntries(es: seq<Entry>, c: nat, prefix: string)
    requires forall i :: 0 <= i < |es| ==>
               es[i].key != OrKey && es[i].val.Arr?
               && IsEmpty(Index(es[i].val, InKey)) && IsEmpty(Index(es[i].val, NotKey))
    ensures Emit(es, c, prefix) == Emitted([], [])
    decreases |es|
  {
    if es != [] {
      var init := es[..|es| - 1];
      SilentEntries(init, c, prefix);
      SilentClause(es[|es| - 1].key, es[|es| - 1].val, c, prefix);
    }
  }

  /** A PHP list of sub-filter maps, as a caller would write `$or`: the keys
      are 0, 1, 2, ... and each element is a map with no `$in` or `$not`
      key. */
  predicate SubfilterList(v: Value) {
    && v.Arr?
    && forall i :: 0 <= i < |v.entries| ==>
         && v.entries[i].key == NatToString(i)
         && v.entries[i].val.Arr?
         && forall j :: 0 <= j < |v.entries[i].val.entries| ==>
              v.entries[i].val.entries[j].key != InKey && v.entries[i].val.entries[j].key != NotKey
  }

  /** `$or` over a list of sub-filters is iterated as a filter itself: each
      element is a map without operators, so none adds a clause and the
      entry compiles to the empty parentheses "()" with no bindings. */
  lemma OrOfSubfilterList(v: Value, c: nat, prefix: string)
    requires SubfilterList(v)
    ensures EmitEntry(Entry(OrKey, v), c, prefix) == Emitted([[Lit("("), Lit(")")]], [])
    ensures RenderEach(EmitEntry(Entry(OrKey, v), c, prefix).clauses) == ["()"]
  {
    var es := v.entries;
    forall i | 0 <= i < |es|
      ensures es[i].key != OrKey && es[i].val.Arr?
      ensures IsEmpty(Index(es[i].val, InKey)) && IsEmpty(Index(es[i].val, NotKey))
    {
      assert es[i].key[0] != OrKey[0];
      FindSpec(es[i].val.entries, InKey);
      FindSpec(es[i].val.entries, NotKey);
    }
    SilentEntries(es, c, prefix);
    assert WhereText(v, c, prefix, "or") == [];
    OrEntry(Entry(OrKey, v), c, prefix);
    RenderWrapped("(", [], ")");
    assert [Lit("(")] + [] + [Lit(")")] == [Lit("("), Lit(")")];
    assert "(" + "" + ")" == "()";
  }

  /** The filter {"type": "post", "$or": [{"status": "published"},
      {"status": "draft"}]}, with its `$or` list as PHP builds it. */
  function MixedFilter(): Value {
    Arr([Entry("type", Str("post")),
         Entry(OrKey, Arr([Entry("0", Arr([Entry("status", Str("published"))])),
                           Entry("1", Arr([Entry("status", Str("draft"))]))]))])
  }

  /** A two-entry filter emits its first entry, then its second from the
      counter the first leaves. */
  lemma EmitPair(e0: Entry, e1: Entry, c: nat, prefix: string)
    ensures Emit([e0, e1], c, prefix)
         == Cat(EmitEntry(e0, c, prefix), EmitEntry(e1, c + |EmitEntry(e0, c, prefix).bound|, prefix))
  {
    var first := EmitEntry(e0, c, prefix);
    assert [e0, e1][..1] == [e0] && [e0][..0] == [];
    assert Emit([e0], c, prefix) == Cat(Emitted([], []), first);
    assert [] + first.clauses == first.clauses && [] + first.bound == first.bound;
  }

  /** A scalar equality followed by `$or` over a list of sub-filters: the
      equality, then the empty parentheses; only the scalar is bound. */
  lemma ScalarThenOrList(key: string, v: Value, list: Value, c: nat, prefix: string)
    requires key != OrKey && !v.Arr? && SubfilterList(list)
    ensures Emit([Entry(key, v), Entry(OrKey, list)], c, prefix)
         == Emitted([[Lit(Field(prefix, key) + " = "), Param(c)], [Lit("("), Lit(")")]], [v])
  {
    EmitPair(Entry(key, v), Entry(OrKey, list), c, prefix);
    ScalarEntry(Entry(key, v), c, prefix);
    OrOfSubfilterList(list, c + 1, prefix);
  }

  lemma ScalarThenOrListText(key: string, v: Value, list: Value, c: nat, prefix: string, joiner: string)
    requires key != OrKey && !v.Arr? && SubfilterList(list)
    ensures Render(WhereText(Arr([Entry(key, v), Entry(OrKey, list)]), c, prefix, joiner))
         == Field(prefix, key) + " = " + Placeholder(c) + (" " + joiner + " ") + "()"
    ensures Bound(Arr([Entry(key, v), Entry(OrKey, list)]), c, prefix) == [v]
  {
    ScalarThenOrList(key, v, list, c, prefix);
    var sep := " " + joiner + " ";
    var eq := [Lit(Field(prefix, key) + " = "), Param(c)];
    var parens := [Lit("("), Lit(")")];
    var texts := RenderEach([eq, parens]);
    RenderJoin([eq, parens], sep);
    LitParam(Field(prefix, key) + " = ", c);
    assert parens[1..] == [Lit(")")] && [Lit(")")][1..] == [];
    assert Render(parens) == "(" + (")" + "") == "()";
    assert texts[1..] == ["()"];
  }

  /** The list under `$or` in that filter is a list of sub-filters. */
  lemma MixedFilterList()
    ensures SubfilterList(Arr([Entry("0", Arr([Entry("status", Str("published"))])),
                               Entry("1", Arr([Entry("status", Str("draft"))]))]))
  {
    assert NatToString(0) == [Digit(0)] == "0";
    assert NatToString(1) == [Digit(1)] == "1";
  }

  lemma MixedFilterText()
    ensures Render(WhereText(MixedFilter(), 0, "jdoc", "and"))
         == Field("jdoc", "type") + " = " + Placeholder(0) + (" " + "and" + " ") + "()"
    ensures Bound(MixedFilter(), 0, "jdoc") == [Str("post")]
  {
    MixedFilterList();
    ScalarThenOrListText("type", Str("post"), MixedFilter().entries[1].val, 0, "jdoc", "and");
  }

  /** The predicate is `jdoc->>'type' = :v0 and ()` and only "post" is bound:
      the list under `$or` is iterated as a filter of its own, and its
      elements, maps without operators, add nothing. */
  lemma MixedFilterExample()
    ensures Render(WhereText(MixedFilter(), 0, "jdoc", "and")) == "jdoc->>'type' = :v0 and ()"
    ensures Bound(MixedFilter(), 0, "jdoc") == [Str("post")]
  {
    MixedFilterText();
    FirstPlaceholder();
    MixedFilterLiteral(Placeholder(0));
  }

  lemma MixedFilterLiteral(p: string)
    requires p == ":v0"
    ensures Field("jdoc", "type") + " = " + p + (" " + "and" + " ") + "()" == "jdoc->>'type' = :v0 and ()"
  {
  }

  /** Placeholder freshness: a call from counter `c` adds exactly the keys
      v{c} .. v{c + n - 1}, binds each to the value its placeholder stands
      for, keeps every other key, and the text refers to exactly those
      placeholders, each once, in order. */
  lemma Placeholders(filter: Value, vars: Bindings, c: nat, prefix: string, joiner: string)
    ensures var vals := Bound(filter, c, prefix);
            var r := BindAll(vars, c, vals);
            && r.Keys == vars.Keys + NamesFrom(c, |vals|)
            && (forall k :: c <= k < c + |vals| ==> r[Name(k)] == vals[k - c])
            && (forall x :: x in vars && x !in NamesFrom(c, |vals|) ==> r[x] == vars[x])
            && Params(WhereText(filter, c, prefix, joiner)) == Range(c, |vals|)
  {
    var vals := Bound(filter, c, prefix);
    BindAllKeys(vars, c, vals);
    forall k | c <= k < c + |vals| ensures BindAll(vars, c, vals)[Name(k)] == vals[k - c] {
      BindAllAt(vars, c, vals, k);
    }
    forall x | x in vars && x !in NamesFrom(c, |vals|) ensures BindAll(vars, c, vals)[x] == vars[x] {
      BindAllOther(vars, c, vals, x);
    }
    WhereParams(filter, c, prefix, joiner);
  }

  /** From an empty map and counter 0, as the listing and counting queries
      start: the keys are exactly v0 .. v{n-1} and no write overwrote an
      earlier one. */
  lemma FromScratch(filter: Value, prefix: string)
    ensures var vals := Bound(filter, 0, prefix);
            var r := BindAll(map[], 0, vals);
            r.Keys == NamesFrom(0, |vals|) && |r| == |vals|
  {
    var vals := Bound(filter, 0, prefix);
    BindAllKeys(map[], 0, vals);
    BindAllFresh(map[], 0, vals);
  }
}
