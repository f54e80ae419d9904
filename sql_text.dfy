/** SQL text as the filter compiler builds it. A fragment is a sequence of
    tokens: literal text, and the named placeholders `:vN` that PDO binds
    from the variables map. Rendering a fragment gives the string that is
    sent to the database; keeping the tokens lets the model say which
    placeholders a predicate refers to, and in which order, without
    searching the text (a key is interpolated raw and may itself contain
    ":v1"). */
module SqlText {
  import opened PhpValue

  datatype Token = Lit(text: string) | Param(n: nat)

  /** The key under which placeholder number `n` is bound: "v" followed by
      the number. */
  function Name(n: nat): (s: string)
    ensures |s| >= 2 && s[0] == 'v' && s[1..] == NatToString(n)
  {
    "v" + NatToString(n)
  }

  /** Distinct placeholder numbers have distinct names. */
  lemma NameInjective(a: nat, b: nat)
    requires Name(a) == Name(b)
    ensures a == b
  {
    NatToStringInjective(a, b);
  }

  /** The text of placeholder number `n` in a statement: ":vN". */
  function Placeholder(n: nat): string {
    ":" + Name(n)
  }

  lemma FirstPlaceholder()
    ensures Placeholder(0) == ":v0"
  {
    assert NatToString(0) == [Digit(0)] == "0";
  }

  function RenderToken(t: Token): string {
    match t
    case Lit(s) => s
    case Param(n) => Placeholder(n)
  }

  function Render(ts: seq<Token>): string {
    if ts == [] then "" else RenderToken(ts[0]) + Render(ts[1..])
  }

  /** The numbers of the placeholders a fragment refers to, in text order. */
  function Params(ts: seq<Token>): seq<nat> {
    if ts == [] then []
    else (if ts[0].Param? then [ts[0].n] else []) + Params(ts[1..])
  }

  /** PHP `implode(sep, parts)`, for text and for token fragments alike. */
  function Join<T>(parts: seq<seq<T>>, sep: seq<T>): seq<T> {
    if parts == [] then []
    else if |parts| == 1 then parts[0]
    else parts[0] + sep + Join(parts[1..], sep)
  }

  /** Each part rendered on its own. */
  function RenderEach(parts: seq<seq<Token>>): seq<string> {
    seq(|parts|, i requires 0 <= i < |parts| => Render(parts[i]))
  }

  lemma RenderEachAt(parts: seq<seq<Token>>)
    ensures |RenderEach(parts)| == |parts|
    ensures forall i :: 0 <= i < |parts| ==> RenderEach(parts)[i] == Render(parts[i])
  {
  }

  function ParamsAll(parts: seq<seq<Token>>): seq<nat> {
    if parts == [] then [] else Params(parts[0]) + ParamsAll(parts[1..])
  }

  /** The numbers lo, lo + 1, ..., lo + n - 1. */
  function Range(lo: nat, n: nat): seq<nat> {
    seq(n, i requires 0 <= i < n => lo + i)
  }

  lemma RangeAt(lo: nat, n: nat)
    ensures |Range(lo, n)| == n
    ensures forall i :: 0 <= i < n ==> Range(lo, n)[i] == lo + i
  {
  }

  lemma LitAlone(s: string)
    ensures Render([Lit(s)]) == s
    ensures Params([Lit(s)]) == []
  {
    assert [Lit(s)][1..] == [];
  }

  lemma LitParam(s: string, n: nat)
    ensures Render([Lit(s), Param(n)]) == s + Placeholder(n)
    ensures Params([Lit(s), Param(n)]) == [n]
  {
    var ts := [Lit(s), Param(n)];
    assert ts[1..] == [Param(n)] && [Param(n)][1..] == [];
    assert Render([Param(n)]) == Placeholder(n) + "";
    assert Render(ts) == s + Render([Param(n)]);
    assert Params([Param(n)]) == [n] + Params([]);
    assert Params(ts) == [] + Params([Param(n)]);
  }

  lemma ParamsAllOne(part: seq<Token>)
    ensures ParamsAll([part]) == Params(part)
  {
    assert [part][1..] == [];
  }

  /** `a` followed by the placeholder list and `b`. */
  lemma WrappedListParams(a: string, c: nat, n: nat, b: string)
    ensures Params([Lit(a)] + PlaceholderList(c, n) + [Lit(b)]) == Range(c, n)
  {
    PlaceholderListParams(c, n);
    ParamsConcat([Lit(a)] + PlaceholderList(c, n), [Lit(b)]);
    ParamsConcat([Lit(a)], PlaceholderList(c, n));
    LitAlone(a);
    LitAlone(b);
  }

  lemma RangeSplit(lo: nat, n: nat, m: nat)
    ensures Range(lo, n) + Range(lo + n, m) == Range(lo, n + m)
  {
  }

  lemma {:induction false} RenderConcat(a: seq<Token>, b: seq<Token>)
    ensures Render(a + b) == Render(a) + Render(b)
  {
    if a != [] {
      assert (a + b)[1..] == a[1..] + b;
      RenderConcat(a[1..], b);
    } else {
      assert a + b == b;
    }
  }

  lemma {:induction false} ParamsConcat(a: seq<Token>, b: seq<Token>)
    ensures Params(a + b) == Params(a) + Params(b)
  {
    if a != [] {
      assert (a + b)[1..] == a[1..] + b;
      ParamsConcat(a[1..], b);
    } else {
      assert a + b == b;
    }
  }

  lemma {:induction false} ParamsAllConcat(a: seq<seq<Token>>, b: seq<seq<Token>>)
    ensures ParamsAll(a + b) == ParamsAll(a) + ParamsAll(b)
  {
    if a != [] {
      assert (a + b)[1..] == a[1..] + b;
      ParamsAllConcat(a[1..], b);
    } else {
      assert a + b == b;
    }
  }

  /** Rendering commutes with joining on a literal separator. */
  lemma {:induction false} RenderJoin(parts: seq<seq<Token>>, sep: string)
    ensures Render(Join(parts, [Lit(sep)])) == Join(RenderEach(parts), sep)
  {
    if |parts| > 1 {
      RenderJoin(parts[1..], sep);
      assert RenderEach(parts)[1..] == RenderEach(parts[1..]);
      RenderConcat(parts[0] + [Lit(sep)], Join(parts[1..], [Lit(sep)]));
      RenderConcat(parts[0], [Lit(sep)]);
    }
  }

  /** A literal separator adds no placeholder. */
  lemma {:induction false} ParamsJoin(parts: seq<seq<Token>>, sep: string)
    ensures Params(Join(parts, [Lit(sep)])) == ParamsAll(parts)
  {
    if |parts| == 1 {
      assert ParamsAll(parts) == Params(parts[0]) + ParamsAll([]);
    } else if |parts| > 1 {
      ParamsJoin(parts[1..], sep);
      ParamsConcat(parts[0] + [Lit(sep)], Join(parts[1..], [Lit(sep)]));
      ParamsConcat(parts[0], [Lit(sep)]);
    }
  }

  /** One placeholder per value, separated by ", ": `:vc, :v(c+1), ...`. */
  function PlaceholderList(c: nat, n: nat): seq<Token>
    decreases n
  {
    if n == 0 then []
    else if n == 1 then [Param(c)]
    else [Param(c), Lit(", ")] + PlaceholderList(c + 1, n - 1)
  }

  /** The texts PHP collects in `$placeholders` for `n` values from `c`. */
  function PlaceholderTexts(c: nat, n: nat): seq<string> {
    seq(n, k requires 0 <= k < n => Placeholder(c + k))
  }

  lemma PlaceholderTextsAt(c: nat, n: nat)
    ensures |PlaceholderTexts(c, n)| == n
    ensures forall k :: 0 <= k < n ==> PlaceholderTexts(c, n)[k] == Placeholder(c + k)
  {
  }

  lemma PlaceholderTextsTail(c: nat, n: nat)
    requires 1 <= n
    ensures PlaceholderTexts(c, n) == [Placeholder(c)] + PlaceholderTexts(c + 1, n - 1)
  {
    PlaceholderTextsAt(c, n);
    PlaceholderTextsAt(c + 1, n - 1);
  }

  /** The list refers to placeholders c .. c + n - 1, once each, in order. */
  lemma {:induction false} PlaceholderListParams(c: nat, n: nat)
    ensures Params(PlaceholderList(c, n)) == Range(c, n)
    decreases n
  {
    if n == 1 {
      assert Params([Param(c)]) == [c] + Params([]);
    } else if n > 1 {
      PlaceholderListParams(c + 1, n - 1);
      var head: seq<Token> := [Param(c), Lit(", ")];
      ParamsConcat(head, PlaceholderList(c + 1, n - 1));
      assert head[1..] == [Lit(", ")] && [Lit(", ")][1..] == [];
      assert Params(head) == [c];
      assert Range(c, n) == [c] + Range(c + 1, n - 1);
    }
  }

  /** The list renders as PHP's `implode(", ", $placeholders)`. */
  lemma {:induction false} PlaceholderListRender(c: nat, n: nat)
    ensures Render(PlaceholderList(c, n)) == Join(PlaceholderTexts(c, n), ", ")
    decreases n
  {
    if n == 1 {
      assert Render([Param(c)]) == Placeholder(c) + Render([]);
    } else if n > 1 {
      PlaceholderListRender(c + 1, n - 1);
      var head: seq<Token> := [Param(c), Lit(", ")];
      RenderConcat(head, PlaceholderList(c + 1, n - 1));
      assert head[1..] == [Lit(", ")] && [Lit(", ")][1..] == [];
      assert Render(head) == Placeholder(c) + ", ";
      PlaceholderTextsTail(c, n);
    }
  }
}
