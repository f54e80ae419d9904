/** The PHP values the record store and the filter compiler handle.

    A PHP array is an ordered map; it is modelled as a sequence of entries in
    insertion order. Integer keys (the indices of a list) are kept as their
    decimal strings: the compiler only ever compares keys with the string
    "$or" and interpolates them into SQL text, and in both uses an integer key
    behaves as its decimal string. */
module PhpValue {

  datatype Option<T> = None | Some(value: T)

  datatype Value =
    | Null
    | Bool(b: bool)
    | Int(i: int)
    | Str(s: string)
    | Arr(entries: seq<Entry>)

  datatype Entry = Entry(key: string, val: Value)

  /** PHP `empty()` of a value that is set: null, false, 0, "", "0" and the
      empty array. */
  predicate IsEmptyValue(v: Value) {
    match v
    case Null => true
    case Bool(b) => !b
    case Int(i) => i == 0
    case Str(s) => s == "" || s == "0"
    case Arr(es) => es == []
  }

  /** PHP `empty($x[...])`: an unset offset is empty too. */
  predicate IsEmpty(o: Option<Value>) {
    match o
    case None => true
    case Some(v) => IsEmptyValue(v)
  }

  /** The value stored under the first entry with key `k`, if any. */
  function Find(es: seq<Entry>, k: string): Option<Value> {
    if es == [] then None
    else if es[0].key == k then Some(es[0].val)
    else Find(es[1..], k)
  }

  /** `Find` answers exactly for the keys present, with the first entry's
      value. */
  lemma {:induction false} FindSpec(es: seq<Entry>, k: string)
    ensures Find(es, k).Some? <==> exists i :: 0 <= i < |es| && es[i].key == k
    ensures Find(es, k).Some? ==> exists i :: 0 <= i < |es| && es[i] == Entry(k, Find(es, k).value)
                                   && forall j :: 0 <= j < i ==> es[j].key != k
  {
    if es != [] && es[0].key != k {
      FindSpec(es[1..], k);
      if Find(es, k).Some? {
        var i :| 0 <= i < |es[1..]| && es[1..][i] == Entry(k, Find(es, k).value)
                 && forall j :: 0 <= j < i ==> es[1..][j].key != k;
        assert es[i + 1] == Entry(k, Find(es, k).value);
        assert forall j :: 0 <= j < i + 1 ==> es[j].key != k by {
          forall j | 0 <= j < i + 1 ensures es[j].key != k {
            if j > 0 { assert es[j] == es[1..][j - 1]; }
          }
        }
      } else {
        forall i | 0 <= i < |es| ensures es[i].key != k {
          if i > 0 { assert es[i] == es[1..][i - 1]; }
        }
      }
    } else if es != [] {
      assert es[0] == Entry(k, Find(es, k).value);
    }
  }

  /** `$v[k]` read as `empty()` and `isset()` read it: an array yields the
      entry under `k`; a string, number, boolean or null has no such offset
      (a non-numeric offset of a string is not set). */
  function Index(v: Value, k: string): Option<Value> {
    if v.Arr? then Find(v.entries, k) else None
  }

  /** The values `foreach ($v as $x)` visits: the array's values in order;
      `foreach` over anything else visits nothing. */
  function Elements(v: Value): seq<Value> {
    if v.Arr? then Values(v.entries) else []
  }

  /** The values of the entries, in order. */
  function Values(es: seq<Entry>): seq<Value> {
    if es == [] then [] else [es[0].val] + Values(es[1..])
  }

  lemma {:induction false} ValuesAt(es: seq<Entry>, i: nat)
    requires i < |es|
    ensures |Values(es)| == |es| && Values(es)[i] == es[i].val
  {
    if i > 0 {
      ValuesAt(es[1..], i - 1);
    } else {
      ValuesLength(es);
    }
  }

  lemma {:induction false} ValuesLength(es: seq<Entry>)
    ensures |Values(es)| == |es|
  {
    if es != [] {
      ValuesLength(es[1..]);
    }
  }

  /** The `(array)` cast: null becomes the empty array, any other scalar the
      one-element list `[0 => v]`, an array stays as it is. */
  function AsArray(v: Value): seq<Entry> {
    match v
    case Null => []
    case Arr(es) => es
    case _ => [Entry("0", v)]
  }

  /** `$a[k] = v` on an array: an existing key keeps its position and takes
      the new value, a new key is appended at the end. */
  function SetKey(es: seq<Entry>, k: string, v: Value): (r: seq<Entry>)
    ensures |r| == if Find(es, k).Some? then |es| else |es| + 1
  {
    if es == [] then [Entry(k, v)]
    else if es[0].key == k then [Entry(k, v)] + es[1..]
    else [es[0]] + SetKey(es[1..], k, v)
  }

  lemma {:induction false} FindSetKeySame(es: seq<Entry>, k: string, v: Value)
    ensures Find(SetKey(es, k, v), k) == Some(v)
  {
    if es != [] && es[0].key != k {
      FindSetKeySame(es[1..], k, v);
    }
  }

  lemma {:induction false} FindSetKeyOther(es: seq<Entry>, k: string, v: Value, k': string)
    requires k' != k
    ensures Find(SetKey(es, k, v), k') == Find(es, k')
  {
    if es != [] && es[0].key != k {
      FindSetKeyOther(es[1..], k, v, k');
    }
  }

  /** `$a[k] = v` moves no entry: every key stays at its position, and a new
      key lands right after the old entries. */
  lemma {:induction false} SetKeyPositions(es: seq<Entry>, k: string, v: Value)
    ensures forall i :: 0 <= i < |es| ==> SetKey(es, k, v)[i].key == es[i].key
    ensures Find(es, k).None? ==> SetKey(es, k, v)[|es|] == Entry(k, v)
  {
    if es != [] && es[0].key != k {
      SetKeyPositions(es[1..], k, v);
      var r := SetKey(es, k, v);
      assert r == [es[0]] + SetKey(es[1..], k, v);
      forall i | 0 <= i < |es|
        ensures r[i].key == es[i].key
      {
        if i > 0 {
          assert r[i] == SetKey(es[1..], k, v)[i - 1];
        }
      }
    }
  }

  /** Writing the value a key already holds changes nothing. */
  lemma {:induction false} SetKeyUnchanged(es: seq<Entry>, k: string, v: Value)
    requires Find(es, k) == Some(v)
    ensures SetKey(es, k, v) == es
  {
    if es[0].key != k {
      SetKeyUnchanged(es[1..], k, v);
      assert [es[0]] + es[1..] == es;
    }
  }

  /** The decimal digit `d` as a character. */
  function Digit(d: nat): (c: char)
    requires d < 10
    ensures '0' <= c <= '9'
  {
    (48 + d) as char
  }

  /** Decimal notation of a natural number, as PHP writes an integer. */
  function NatToString(n: nat): (s: string)
    ensures 1 <= |s| && '0' <= s[0] <= '9'
    ensures n < 10 <==> |s| == 1
  {
    if n < 10 then [Digit(n)] else NatToString(n / 10) + [Digit(n % 10)]
  }

  /** Distinct numbers are written differently. */
  lemma {:induction false} NatToStringInjective(a: nat, b: nat)
    requires NatToString(a) == NatToString(b)
    ensures a == b
  {
    var sa, sb := NatToString(a), NatToString(b);
    if 10 <= a && 10 <= b {
      assert sa[|sa| - 1] == Digit(a % 10) && sb[|sb| - 1] == Digit(b % 10);
      assert sa[..|sa| - 1] == NatToString(a / 10);
      assert sb[..|sb| - 1] == NatToString(b / 10);
      NatToStringInjective(a / 10, b / 10);
    } else if a < 10 && b < 10 {
      assert sa[0] == Digit(a) && sb[0] == Digit(b);
    }
  }

  /** Decimal notation of an integer, with a leading "-" when negative. */
  function IntToString(i: int): string {
    if i < 0 then "-" + NatToString(-i) else NatToString(i)
  }

  /** PHP's conversion of a value to a string, as done by `.`, by string
      interpolation and by PDO when it binds a parameter: true is "1", false
      and null are "", an array is "Array". */
  function StringOf(v: Value): string {
    match v
    case Null => ""
    case Bool(b) => if b then "1" else ""
    case Int(i) => IntToString(i)
    case Str(s) => s
    case Arr(_) => "Array"
  }
}
