/** The filter compiler `build_where_from_array`: it turns a MongoDB-style
    filter into an SQL predicate over `prefix->>'key'` and fills the
    placeholder bindings, threading one counter through the recursion on
    `$or`.

    `Emit` and `EmitEntry` specify, as functions, which clauses a filter
    produces and which values it binds, in order; `BuildWhere` is the
    compiler as the source writes it, with loops that append to the clause
    list, write the bindings map and advance the counter, and it is proved
    to produce exactly what `Emit` specifies. */
module WhereBuilder {
  import opened PhpValue
  import opened SqlText

  const OrKey := "$or"
  const InKey := "$in"
  const NotKey := "$not"

  type Bindings = map<string, Value>

  /** The clauses one call emits, each as a fragment, and the values it
      binds, in binding order. */
  datatype Emitted = Emitted(clauses: seq<seq<Token>>, bound: seq<Value>)

  function Cat(a: Emitted, b: Emitted): Emitted {
    Emitted(a.clauses + b.clauses, a.bound + b.bound)
  }

  /** `{prefix}->>'key'`: the key is interpolated as it is. */
  function Field(prefix: string, key: string): string {
    prefix + "->>'" + key + "'"
  }

  // ---------------------------------------------------------------------
  // Termination measure: an `$or` entry weighs one more than its value, so
  // that the `(array)` cast of a scalar under `$or` is lighter than the
  // entry that holds it.

  function Size(v: Value): (n: nat)
    ensures 1 <= n
    decreases v
  {
    match v
    case Arr(es) => 1 + EntriesSize(es)
    case _ => 1
  }

  function Weight(e: Entry): (n: nat)
    ensures 1 <= n
    decreases e, 1
  {
    Size(e.val) + (if e.key == OrKey then 1 else 0)
  }

  function EntriesSize(es: seq<Entry>): nat
    decreases es
  {
    if es == [] then 0 else EntriesSize(es[..|es| - 1]) + Weight(es[|es| - 1])
  }

  lemma AsArrayLighter(v: Value)
    ensures EntriesSize(AsArray(v)) < Size(v) + 1
  {
    if !v.Arr? && !v.Null? {
      assert AsArray(v)[1..] == [];
    }
  }

  // ---------------------------------------------------------------------
  // Specification

  /** What the loop over `es` emits when the counter starts at `c`: what the
      entries before the last emit, then what the last one emits with the
      counter where they left it. */
  function Emit(es: seq<Entry>, c: nat, prefix: string): Emitted
    decreases EntriesSize(es), 1
  {
    if es == [] then Emitted([], [])
    else
      var init := Emit(es[..|es| - 1], c, prefix);
      Cat(init, EmitEntry(es[|es| - 1], c + |init.bound|, prefix))
  }

  /** What one `key => value` entry emits when the counter is at `c`. */
  function EmitEntry(e: Entry, c: nat, prefix: string): Emitted
    decreases Weight(e), 0
  {
    if e.key == OrKey then
      AsArrayLighter(e.val);
      var inner := Emit(AsArray(e.val), c, prefix);
      Emitted([[Lit("(")] + Join(inner.clauses, [Lit(" or ")]) + [Lit(")")]], inner.bound)
    else if !e.val.Arr? then
      Emitted([[Lit(Field(prefix, e.key) + " = "), Param(c)]], [e.val])
    else
      EmitOperators(e.key, e.val, c, prefix)
  }

  /** What an array value emits: its `$in` test, then its `$not` test. */
  function EmitOperators(key: string, value: Value, c: nat, prefix: string): Emitted {
    var inPart := EmitIn(key, value, c, prefix);
    Cat(inPart, EmitNot(key, value, c + |inPart.bound|, prefix))
  }

  /** The `$in` test of an array value. */
  function EmitIn(key: string, value: Value, c: nat, prefix: string): Emitted {
    var ins := Index(value, InKey);
    if IsEmpty(ins) then Emitted([], [])
    else
      var vals := Elements(ins.value);
      Emitted([[Lit(Field(prefix, key) + " in (")] + PlaceholderList(c, |vals|) + [Lit(")")]], vals)
  }

  /** The `$not` test of an array value: `not in` for a non-empty `$not.$in`,
      `!=` for any other non-empty `$not`. */
  function EmitNot(key: string, value: Value, c: nat, prefix: string): Emitted {
    var not := Index(value, NotKey);
    if IsEmpty(not) then Emitted([], [])
    else if !IsEmpty(Index(not.value, InKey)) then
      var vals := Elements(Index(not.value, InKey).value);
      Emitted([[Lit(Field(prefix, key) + " not in (")] + PlaceholderList(c, |vals|) + [Lit(")")]], vals)
    else
      Emitted([[Lit(Field(prefix, key) + " != "), Param(c)]], [not.value])
  }

  /** The predicate text a call returns: the clauses joined by the joiner. */
  function WhereText(filter: Value, c: nat, prefix: string, joiner: string): seq<Token> {
    Join(Emit(AsArray(filter), c, prefix).clauses, [Lit(" " + joiner + " ")])
  }

  /** The values a call binds. */
  function Bound(filter: Value, c: nat, prefix: string): seq<Value> {
    Emit(AsArray(filter), c, prefix).bound
  }

  /** The bindings map after `$variables["v{$c}"] = $x; $c++` for each value
      in turn. */
  function BindAll(vars: Bindings, c: nat, vals: seq<Value>): Bindings
    decreases |vals|
  {
    if vals == [] then vars else BindAll(vars[Name(c) := vals[0]], c + 1, vals[1..])
  }

  /** The placeholder names c .. c + n - 1. */
  function NamesFrom(c: nat, n: nat): set<string> {
    set k: nat | c <= k < c + n :: Name(k)
  }

  // ---------------------------------------------------------------------
  // Lemmas about the specification

  /** One more entry, as the loop takes it. */
  lemma EmitSnoc(es: seq<Entry>, i: nat, c: nat, prefix: string)
    requires i < |es|
    ensures Emit(es[..i + 1], c, prefix)
         == Cat(Emit(es[..i], c, prefix), EmitEntry(es[i], c + |Emit(es[..i], c, prefix).bound|, prefix))
  {
    assert es[..i + 1][..i] == es[..i];
  }

  /** The clauses emitted from counter `c` refer to placeholders c, c + 1,
      ..., each once and in order, one per bound value. */
  lemma {:induction false} EmitParams(es: seq<Entry>, c: nat, prefix: string)
    ensures ParamsAll(Emit(es, c, prefix).clauses) == Range(c, |Emit(es, c, prefix).bound|)
    decreases EntriesSize(es), 1
  {
    if es != [] {
      var init := Emit(es[..|es| - 1], c, prefix);
      var last := EmitEntry(es[|es| - 1], c + |init.bound|, prefix);
      EmitParams(es[..|es| - 1], c, prefix);
      EmitEntryParams(es[|es| - 1], c + |init.bound|, prefix);
      ParamsAllConcat(init.clauses, last.clauses);
      RangeSplit(c, |init.bound|, |last.bound|);
    }
  }

  lemma {:induction false} EmitEntryParams(e: Entry, c: nat, prefix: string)
    ensures ParamsAll(EmitEntry(e, c, prefix).clauses) == Range(c, |EmitEntry(e, c, prefix).bound|)
    decreases Weight(e), 0
  {
    if e.key == OrKey {
      AsArrayLighter(e.val);
      var inner := Emit(AsArray(e.val), c, prefix);
      EmitParams(AsArray(e.val), c, prefix);
      var j := Join(inner.clauses, [Lit(" or ")]);
      ParamsJoin(inner.clauses, " or ");
      ParamsConcat([Lit("(")] + j, [Lit(")")]);
      ParamsConcat([Lit("(")], j);
      LitAlone("(");
      LitAlone(")");
      ParamsAllOne([Lit("(")] + j + [Lit(")")]);
    } else if !e.val.Arr? {
      LitParam(Field(prefix, e.key) + " = ", c);
      ParamsAllOne([Lit(Field(prefix, e.key) + " = "), Param(c)]);
    } else {
      var inPart := EmitIn(e.key, e.val, c, prefix);
      var notPart := EmitNot(e.key, e.val, c + |inPart.bound|, prefix);
      assert EmitEntry(e, c, prefix) == Cat(inPart, notPart);
      EmitInParams(e.key, e.val, c, prefix);
      EmitNotParams(e.key, e.val, c + |inPart.bound|, prefix);
      ParamsAllConcat(inPart.clauses, notPart.clauses);
      RangeSplit(c, |inPart.bound|, |notPart.bound|);
    }
  }

  lemma EmitInParams(key: string, value: Value, c: nat, prefix: string)
    ensures ParamsAll(EmitIn(key, value, c, prefix).clauses) == Range(c, |EmitIn(key, value, c, prefix).bound|)
  {
    var ins := Index(value, InKey);
    if !IsEmpty(ins) {
      var n := |Elements(ins.value)|;
      WrappedListParams(Field(prefix, key) + " in (", c, n, ")");
      ParamsAllOne([Lit(Field(prefix, key) + " in (")] + PlaceholderList(c, n) + [Lit(")")]);
    }
  }

  lemma EmitNotParams(key: string, value: Value, c: nat, prefix: string)
    ensures ParamsAll(EmitNot(key, value, c, prefix).clauses) == Range(c, |EmitNot(key, value, c, prefix).bound|)
  {
    var not := Index(value, NotKey);
    if !IsEmpty(not) {
      if !IsEmpty(Index(not.value, InKey)) {
        var n := |Elements(Index(not.value, InKey).value)|;
        WrappedListParams(Field(prefix, key) + " not in (", c, n, ")");
        ParamsAllOne([Lit(Field(prefix, key) + " not in (")] + PlaceholderList(c, n) + [Lit(")")]);
      } else {
        LitParam(Field(prefix, key) + " != ", c);
        RangeAt(c, 1);
        ParamsAllOne([Lit(Field(prefix, key) + " != "), Param(c)]);
      }
    }
  }

  /** Every placeholder the returned text refers to is one of those bound by
      the call, and each bound one is referred to exactly once, in binding
      order. */
  lemma WhereParams(filter: Value, c: nat, prefix: string, joiner: string)
    ensures Params(WhereText(filter, c, prefix, joiner)) == Range(c, |Bound(filter, c, prefix)|)
  {
    ParamsJoin(Emit(AsArray(filter), c, prefix).clauses, " " + joiner + " ");
    EmitParams(AsArray(filter), c, prefix);
  }

  lemma {:induction false} BindAllAppend(vars: Bindings, c: nat, a: seq<Value>, b: seq<Value>)
    ensures BindAll(vars, c, a + b) == BindAll(BindAll(vars, c, a), c + |a|, b)
    decreases |a|
  {
    if a == [] {
      assert a + b == b;
    } else {
      assert (a + b)[0] == a[0] && (a + b)[1..] == a[1..] + b;
      BindAllAppend(vars[Name(c) := a[0]], c + 1, a[1..], b);
    }
  }

  /** The name of counter `c` is not among the names after it. */
  lemma NameNotLater(c: nat, n: nat)
    ensures Name(c) !in NamesFrom(c + 1, n)
  {
    forall k: nat | c + 1 <= k < c + 1 + n ensures Name(k) != Name(c) {
      if Name(k) == Name(c) { NameInjective(k, c); }
    }
  }

  lemma NamesFromFirst(c: nat, n: nat)
    requires 0 < n
    ensures NamesFrom(c, n) == {Name(c)} + NamesFrom(c + 1, n - 1)
  {
  }

  /** Binding `vals` from counter `c` adds exactly the keys v{c} ..
      v{c + |vals| - 1}. */
  lemma {:induction false} BindAllKeys(vars: Bindings, c: nat, vals: seq<Value>)
    ensures BindAll(vars, c, vals).Keys == vars.Keys + NamesFrom(c, |vals|)
    decreases |vals|
  {
    if vals == [] {
      assert NamesFrom(c, 0) == {};
    } else {
      BindAllKeys(vars[Name(c) := vals[0]], c + 1, vals[1..]);
      NamesFromFirst(c, |vals|);
    }
  }

  /** Each new key is bound to its own value: a later write never hits an
      earlier placeholder's key. */
  lemma {:induction false} BindAllAt(vars: Bindings, c: nat, vals: seq<Value>, k: nat)
    requires c <= k < c + |vals|
    ensures Name(k) in BindAll(vars, c, vals) && BindAll(vars, c, vals)[Name(k)] == vals[k - c]
    decreases |vals|
  {
    var vars1 := vars[Name(c) := vals[0]];
    if k == c {
      NameNotLater(c, |vals| - 1);
      BindAllOther(vars1, c + 1, vals[1..], Name(c));
    } else {
      BindAllAt(vars1, c + 1, vals[1..], k);
      assert vals[1..][k - (c + 1)] == vals[k - c];
    }
  }

  /** Keys outside the new names keep their values. */
  lemma {:induction false} BindAllOther(vars: Bindings, c: nat, vals: seq<Value>, x: string)
    requires x in vars && x !in NamesFrom(c, |vals|)
    ensures x in BindAll(vars, c, vals) && BindAll(vars, c, vals)[x] == vars[x]
    decreases |vals|
  {
    if vals != [] {
      NamesFromFirst(c, |vals|);
      BindAllOther(vars[Name(c) := vals[0]], c + 1, vals[1..], x);
    }
  }

  lemma {:induction false} NamesFromCard(c: nat, n: nat)
    ensures |NamesFrom(c, n)| == n
    decreases n
  {
    if n == 0 {
      assert NamesFrom(c, n) == {};
    } else {
      NamesFromCard(c + 1, n - 1);
      NamesFromFirst(c, n);
      NameNotLater(c, n - 1);
    }
  }

  /** When none of the new names is bound yet, no write overwrites a key:
      the map grows by exactly as many entries as the counter advances. */
  lemma BindAllFresh(vars: Bindings, c: nat, vals: seq<Value>)
    requires vars.Keys !! NamesFrom(c, |vals|)
    ensures |BindAll(vars, c, vals)| == |vars| + |vals|
  {
    BindAllKeys(vars, c, vals);
    NamesFromCard(c, |vals|);
    var r := BindAll(vars, c, vals);
    assert |r| == |r.Keys|;
    assert |vars| == |vars.Keys|;
  }

  // ---------------------------------------------------------------------
  // The compiler

  /** The `foreach` that numbers the values of an `$in` list: it collects
      one `:vN` per value and binds each under `vN`. */
  method BindEach(vals: seq<Value>, vars: Bindings, counter: nat)
    returns (placeholders: seq<string>, vars': Bindings, counter': nat)
    ensures placeholders == PlaceholderTexts(counter, |vals|)
    ensures vars' == BindAll(vars, counter, vals)
    ensures counter' == counter + |vals|
  {
    placeholders, vars', counter' := [], vars, counter;
    var j := 0;
    while j < |vals|
      invariant 0 <= j <= |vals|
      invariant placeholders == PlaceholderTexts(counter, j)
      invariant vars' == BindAll(vars, counter, vals[..j])
      invariant counter' == counter + j
    {
      placeholders := placeholders + [Placeholder(counter')];
      vars' := vars'[Name(counter') := vals[j]];
      assert vals[..j + 1] == vals[..j] + [vals[j]];
      BindAllAppend(vars, counter, vals[..j], [vals[j]]);
      counter' := counter' + 1;
      j := j + 1;
    }
    assert vals[..j] == vals;
  }

  /** `build_where_from_array($filter, $variables, $counter, $prefix,
      $joiner)`: the returned predicate, the bindings map and the counter
      after the call, for a map and counter passed by reference. */
  method BuildWhere(filter: Value, vars: Bindings, counter: nat, prefix: string, joiner: string)
    returns (where: string, vars': Bindings, counter': nat)
    ensures where == Render(WhereText(filter, counter, prefix, joiner))
    ensures vars' == BindAll(vars, counter, Bound(filter, counter, prefix))
    ensures counter' == counter + |Bound(filter, counter, prefix)|
    decreases filter
  {
    var es := AsArray(filter);
    var subwhere: seq<string> := [];
    vars', counter' := vars, counter;
    var i := 0;
    while i < |es|
      invariant 0 <= i <= |es|
      invariant Compiled(es[..i], counter, prefix, vars, subwhere, vars', counter')
    {
      var key, value := es[i].key, es[i].val;
      ghost var c0, vars0 := counter', vars';
      var clauses: seq<string>;
      if key == OrKey {
        assert filter.Arr? by {
          assert "0" != OrKey;
        }
        assert es[i] in filter.entries;
        var inner;
        inner, vars', counter' := BuildWhere(value, vars', counter', prefix, "or");
        clauses := ["(" + inner + ")"];
        OrEntry(es[i], c0, prefix);
        RenderWrapped("(", WhereText(value, c0, prefix, "or"), ")");
      } else if !value.Arr? {
        clauses := [Field(prefix, key) + " = " + Placeholder(counter')];
        vars' := vars'[Name(counter') := value];
        counter' := counter' + 1;
        ScalarEntry(es[i], c0, prefix);
        RenderPair(Field(prefix, key) + " = ", c0);
        assert vars' == BindAll(vars0, c0, [value]);
      } else {
        clauses, vars', counter' := BuildOperators(key, value, vars', counter', prefix);
        OperatorsEntry(es[i], c0, prefix);
      }
      LoopStep(es, i, counter, prefix, vars, subwhere, vars0, c0, clauses, vars', counter');
      subwhere := subwhere + clauses;
      i := i + 1;
    }
    assert es[..i] == es;
    where := Join(subwhere, " " + joiner + " ");
    RenderJoin(Emit(es, counter, prefix).clauses, " " + joiner + " ");
  }

  /** The loop invariant of `BuildWhere`: after the entries `done`, the
      clause list, the bindings and the counter are what `Emit` says. */
  ghost predicate Compiled(done: seq<Entry>, counter: nat, prefix: string, vars: Bindings,
                           subwhere: seq<string>, vars': Bindings, counter': nat)
  {
    var e := Emit(done, counter, prefix);
    && subwhere == RenderEach(e.clauses)
    && vars' == BindAll(vars, counter, e.bound)
    && counter' == counter + |e.bound|
  }

  lemma LoopStep(es: seq<Entry>, i: nat, counter: nat, prefix: string, vars: Bindings,
                 subwhere: seq<string>, vars0: Bindings, c0: nat,
                 clauses: seq<string>, vars1: Bindings, c1: nat)
    requires i < |es|
    requires Compiled(es[..i], counter, prefix, vars, subwhere, vars0, c0)
    requires clauses == RenderEach(EmitEntry(es[i], c0, prefix).clauses)
    requires vars1 == BindAll(vars0, c0, EmitEntry(es[i], c0, prefix).bound)
    requires c1 == c0 + |EmitEntry(es[i], c0, prefix).bound|
    ensures Compiled(es[..i + 1], counter, prefix, vars, subwhere + clauses, vars1, c1)
  {
    EmitSnoc(es, i, counter, prefix);
    StepCat(Emit(es[..i], counter, prefix), EmitEntry(es[i], c0, prefix), counter, vars, subwhere, vars0, c0, clauses, vars1, c1);
  }

  /** Appending one entry's clauses, bindings and counter advance to those of
      the entries before it gives those of the concatenation. */
  lemma StepCat(before: Emitted, entry: Emitted, counter: nat, vars: Bindings,
                subwhere: seq<string>, vars0: Bindings, c0: nat,
                clauses: seq<string>, vars1: Bindings, c1: nat)
    requires subwhere == RenderEach(before.clauses)
    requires vars0 == BindAll(vars, counter, before.bound) && c0 == counter + |before.bound|
    requires clauses == RenderEach(entry.clauses)
    requires vars1 == BindAll(vars0, c0, entry.bound) && c1 == c0 + |entry.bound|
    ensures subwhere + clauses == RenderEach(Cat(before, entry).clauses)
    ensures vars1 == BindAll(vars, counter, Cat(before, entry).bound)
    ensures c1 == counter + |Cat(before, entry).bound|
  {
    BindAllAppend(vars, counter, before.bound, entry.bound);
    RenderEachAt(before.clauses);
    RenderEachAt(entry.clauses);
    RenderEachAt(before.clauses + entry.clauses);
    assert RenderEach(before.clauses + entry.clauses) == RenderEach(before.clauses) + RenderEach(entry.clauses);
  }

  lemma OrEntry(e: Entry, c: nat, prefix: string)
    requires e.key == OrKey
    ensures EmitEntry(e, c, prefix)
         == Emitted([[Lit("(")] + WhereText(e.val, c, prefix, "or") + [Lit(")")]], Bound(e.val, c, prefix))
  {
    assert " " + "or" + " " == " or ";
  }

  lemma OperatorsEntry(e: Entry, c: nat, prefix: string)
    requires e.key != OrKey && e.val.Arr?
    ensures EmitEntry(e, c, prefix) == EmitOperators(e.key, e.val, c, prefix)
  {
  }

  lemma ScalarEntry(e: Entry, c: nat, prefix: string)
    requires e.key != OrKey && !e.val.Arr?
    ensures EmitEntry(e, c, prefix) == Emitted([[Lit(Field(prefix, e.key) + " = "), Param(c)]], [e.val])
  {
  }

  /** The branch for an array value: its `$in` test, then its `$not` test,
      with the counter and bindings the first leaves. */
  method BuildOperators(key: string, value: Value, vars: Bindings, counter: nat, prefix: string)
    returns (clauses: seq<string>, vars': Bindings, counter': nat)
    ensures clauses == RenderEach(EmitOperators(key, value, counter, prefix).clauses)
    ensures vars' == BindAll(vars, counter, EmitOperators(key, value, counter, prefix).bound)
    ensures counter' == counter + |EmitOperators(key, value, counter, prefix).bound|
  {
    var inClauses, vars1, c1 := BuildIn(key, value, vars, counter, prefix);
    var notClauses;
    notClauses, vars', counter' := BuildNot(key, value, vars1, c1, prefix);
    clauses := inClauses + notClauses;
    ghost var inPart := EmitIn(key, value, counter, prefix);
    ghost var notPart := EmitNot(key, value, c1, prefix);
    StepCat(inPart, notPart, counter, vars, inClauses, vars1, c1, notClauses, vars', counter');
  }

  /** A non-empty `$in` adds an `in (...)` clause with one placeholder per
      value of the list; an empty or missing one adds nothing. */
  method BuildIn(key: string, value: Value, vars: Bindings, counter: nat, prefix: string)
    returns (clauses: seq<string>, vars': Bindings, counter': nat)
    ensures clauses == RenderEach(EmitIn(key, value, counter, prefix).clauses)
    ensures vars' == BindAll(vars, counter, EmitIn(key, value, counter, prefix).bound)
    ensures counter' == counter + |EmitIn(key, value, counter, prefix).bound|
  {
    clauses, vars', counter' := [], vars, counter;
    if !IsEmpty(Index(value, InKey)) {
      var placeholders;
      var vals := Elements(Index(value, InKey).value);
      placeholders, vars', counter' := BindEach(vals, vars', counter');
      clauses := [Field(prefix, key) + " in (" + Join(placeholders, ", ") + ")"];
      RenderPlaceholders(Field(prefix, key) + " in (", counter, |vals|);
    }
  }

  /** A non-empty `$not` adds `not in (...)` when it holds a non-empty `$in`,
      and `!= :vN` bound to the `$not` value otherwise; an empty or missing
      one adds nothing. */
  method BuildNot(key: string, value: Value, vars: Bindings, counter: nat, prefix: string)
    returns (clauses: seq<string>, vars': Bindings, counter': nat)
    ensures clauses == RenderEach(EmitNot(key, value, counter, prefix).clauses)
    ensures vars' == BindAll(vars, counter, EmitNot(key, value, counter, prefix).bound)
    ensures counter' == counter + |EmitNot(key, value, counter, prefix).bound|
  {
    clauses, vars', counter' := [], vars, counter;
    if !IsEmpty(Index(value, NotKey)) {
      var not := Index(value, NotKey).value;
      if !IsEmpty(Index(not, InKey)) {
        var placeholders;
        var vals := Elements(Index(not, InKey).value);
        placeholders, vars', counter' := BindEach(vals, vars', counter');
        clauses := [Field(prefix, key) + " not in (" + Join(placeholders, ", ") + ")"];
        RenderPlaceholders(Field(prefix, key) + " not in (", counter, |vals|);
      } else {
        clauses := [Field(prefix, key) + " != " + Placeholder(counter')];
        vars' := vars'[Name(counter') := not];
        counter' := counter' + 1;
        RenderPair(Field(prefix, key) + " != ", counter);
        assert vars' == BindAll(vars, counter, [not]);
      }
    }
  }

  // Rendering of the three clause shapes, as PHP writes them.

  lemma RenderPair(a: string, n: nat)
    ensures RenderEach([[Lit(a), Param(n)]]) == [a + Placeholder(n)]
  {
    LitParam(a, n);
  }

  lemma RenderWrapped(a: string, mid: seq<Token>, b: string)
    ensures RenderEach([[Lit(a)] + mid + [Lit(b)]]) == [a + Render(mid) + b]
  {
    RenderConcat([Lit(a)] + mid, [Lit(b)]);
    RenderConcat([Lit(a)], mid);
    LitAlone(a);
    LitAlone(b);
    assert RenderEach([[Lit(a)] + mid + [Lit(b)]])[0] == Render([Lit(a)] + mid + [Lit(b)]);
  }

  lemma RenderPlaceholders(a: string, c: nat, n: nat)
    ensures RenderEach([[Lit(a)] + PlaceholderList(c, n) + [Lit(")")]])
         == [a + Join(PlaceholderTexts(c, n), ", ") + ")"]
  {
    RenderWrapped(a, PlaceholderList(c, n), ")");
    PlaceholderListRender(c, n);
  }
}
