/**
 * Plain values standing in for the contents of AiiDA `Dict` and `Str` nodes:
 * a JSON-like value whose dictionaries keep their keys in insertion order, as
 * Python dictionaries do, together with the few pieces of Python semantics the
 * work chains rely on (dictionary lookup and assignment, truthiness, negative
 * list indices, `''.join`).
 */
module Values {

  datatype Option<T> = None | Some(value: T)

  /** The Python exceptions the modelled code can raise. */
  datatype Error =
    | KeyError(key: string)   // a missing dictionary key
    | NotExistent(link: string)   // AiiDA: no output node under this link label
    | IndexError              // a list index out of range
    | TypeError               // a value of the wrong kind: not a list, not a mapping, not a number

  /** A value or the exception that interrupted its computation. */
  datatype Result<T> = Ok(value: T) | Err(error: Error) {
    predicate IsFailure() { Err? }
    function PropagateFailure<U>(): Result<U> requires Err? { Err(error) }
    function Extract(): T requires Ok? { value }
  }

  datatype Value =
    | Null
    | Bool(b: bool)
    | Int(i: int)
    | Float(r: real)
    | Text(s: string)
    | List(items: seq<Value>)
    | Dict(entries: Entries)

  /** The entries of a Python dictionary, in insertion order. */
  type Entries = seq<(string, Value)>

  /** `list(d.keys())` */
  function Keys(d: Entries): (ks: seq<string>)
    ensures |ks| == |d|
    ensures forall i :: 0 <= i < |d| ==> ks[i] == d[i].0
  {
    if d == [] then [] else [d[0].0] + Keys(d[1..])
  }

  predicate Distinct(ks: seq<string>) {
    forall i, j :: 0 <= i < j < |ks| ==> ks[i] != ks[j]
  }

  /** `k` is stored at position `i` of `d`, and at no earlier position. */
  predicate StoredAt(d: Entries, k: string, v: Value, i: int) {
    0 <= i < |d| && d[i] == (k, v) && forall j :: 0 <= j < i ==> d[j].0 != k
  }

  /** `d.get(k)`: the value stored under `k`, if any. */
  function Lookup(d: Entries, k: string): (r: Option<Value>)
    ensures r.Some? <==> k in Keys(d)
  {
    if d == [] then None
    else if d[0].0 == k then Some(d[0].1)
    else Lookup(d[1..], k)
  }

  /**
   * A lookup returns the value of the first entry stored under the key, and
   * finds nothing only when no entry has that key.
   */
  lemma {:induction false} LookupFindsFirst(d: Entries, k: string)
    ensures Lookup(d, k).Some? ==> exists i :: StoredAt(d, k, Lookup(d, k).value, i)
    ensures Lookup(d, k).None? ==> forall i :: 0 <= i < |d| ==> d[i].0 != k
  {
    if d != [] {
      if d[0].0 == k {
        assert StoredAt(d, k, d[0].1, 0);
      } else {
        LookupFindsFirst(d[1..], k);
        if Lookup(d, k).Some? {
          var i :| StoredAt(d[1..], k, Lookup(d, k).value, i);
          StoredPast(d, k, Lookup(d, k).value, i);
        } else {
          assert forall i :: 1 <= i < |d| ==> d[i] == d[1..][i - 1];
        }
      }
    }
  }

  /** A position past a first entry with another key is one further along. */
  lemma StoredPast(d: Entries, k: string, v: Value, i: int)
    requires d != [] && d[0].0 != k && StoredAt(d[1..], k, v, i)
    ensures StoredAt(d, k, v, i + 1)
  {
    assert forall j :: 1 <= j <= i ==> d[j] == d[1..][j - 1];
  }

  /** `d[k]`, raising `KeyError` when `k` is missing. */
  function Get(d: Entries, k: string): (r: Result<Value>)
    ensures r.Ok? <==> Lookup(d, k).Some?
    ensures r.Ok? ==> r.value == Lookup(d, k).value
    ensures r.Err? ==> r.error == KeyError(k)
  {
    match Lookup(d, k)
    case Some(v) => Ok(v)
    case None => Err(KeyError(k))
  }

  /**
   * `d[k] = v`: an existing key keeps its position and gets the new value,
   * a new key is appended at the end.
   */
  function Set(d: Entries, k: string, v: Value): (r: Entries)
    ensures Lookup(r, k) == Some(v)
    ensures forall k' :: k' != k ==> Lookup(r, k') == Lookup(d, k')
    ensures Keys(r) == if k in Keys(d) then Keys(d) else Keys(d) + [k]
  {
    if d == [] then [(k, v)]
    else if d[0].0 == k then [(k, v)] + d[1..]
    else
      var rest := Set(d[1..], k, v);
      SetCons(d, k, v, rest);
      [d[0]] + rest
  }

  /** The step of `Set` past a first entry whose key is not `k`. */
  lemma SetCons(d: Entries, k: string, v: Value, rest: Entries)
    requires d != [] && d[0].0 != k
    requires Lookup(rest, k) == Some(v)
    requires forall k' :: k' != k ==> Lookup(rest, k') == Lookup(d[1..], k')
    requires Keys(rest) == if k in Keys(d[1..]) then Keys(d[1..]) else Keys(d[1..]) + [k]
    ensures Lookup([d[0]] + rest, k) == Some(v)
    ensures forall k' :: k' != k ==> Lookup([d[0]] + rest, k') == Lookup(d, k')
    ensures Keys([d[0]] + rest) == if k in Keys(d) then Keys(d) else Keys(d) + [k]
  {
    LookupCons(d[0], rest, k);
    forall k' | k' != k ensures Lookup([d[0]] + rest, k') == Lookup(d, k') {
      LookupCons(d[0], rest, k');
    }
    KeysCons(d, k, rest);
  }

  lemma KeysCons(d: Entries, k: string, rest: Entries)
    requires d != [] && d[0].0 != k
    requires Keys(rest) == if k in Keys(d[1..]) then Keys(d[1..]) else Keys(d[1..]) + [k]
    ensures Keys([d[0]] + rest) == if k in Keys(d) then Keys(d) else Keys(d) + [k]
  {
    var r := [d[0]] + rest;
    assert r[1..] == rest;
    assert Keys(r) == [d[0].0] + Keys(rest);
    assert Keys(d) == [d[0].0] + Keys(d[1..]);
    assert k in Keys(d) <==> k in Keys(d[1..]);
  }

  /** Looking up in a dictionary with a first entry: that entry, or the rest. */
  lemma LookupCons(e: (string, Value), rest: Entries, k: string)
    ensures Lookup([e] + rest, k) == if e.0 == k then Some(e.1) else Lookup(rest, k)
  {
    assert ([e] + rest)[1..] == rest;
  }

  /** Assignment keeps the keys of a dictionary distinct. */
  lemma SetKeepsKeysDistinct(d: Entries, k: string, v: Value)
    requires Distinct(Keys(d))
    ensures Distinct(Keys(Set(d, k, v)))
  {
    var ks := Keys(d);
    if k !in ks {
      forall i, j | 0 <= i < j < |ks + [k]| ensures (ks + [k])[i] != (ks + [k])[j] {
        if j == |ks| {
          assert ks[i] in ks;
        }
      }
    }
  }

  /** Python truthiness: `not v` holds exactly for these values. */
  predicate Falsy(v: Value) {
    match v
    case Null => true
    case Bool(b) => !b
    case Int(i) => i == 0
    case Float(r) => r == 0.0
    case Text(s) => s == []
    case List(items) => items == []
    case Dict(entries) => entries == []
  }

  /** The number a `:.6f` format specification accepts: an int, a float or a bool. */
  function AsFloat(v: Value): Option<real> {
    match v
    case Int(i) => Some(i as real)
    case Float(r) => Some(r)
    case Bool(b) => Some(if b then 1.0 else 0.0)
    case _ => None
  }

  /** `s[i]` with Python's negative indices, raising `IndexError` out of range. */
  function PyIndex<T>(s: seq<T>, i: int): (r: Result<T>)
    ensures r.Ok? <==> -|s| <= i < |s|
    ensures r.Ok? ==> r.value == s[if i >= 0 then i else |s| + i]
    ensures r.Err? ==> r.error == IndexError
  {
    if 0 <= i < |s| then Ok(s[i])
    else if -|s| <= i < 0 then Ok(s[|s| + i])
    else Err(IndexError)
  }

  /**
   * `v[i]` on a value: a list gives its element, a string the one-character
   * string at that position, both with Python's negative indices; any other
   * value cannot be indexed by an integer.
   */
  function Index(v: Value, i: int): (r: Result<Value>)
    ensures v.List? ==> (r.Ok? <==> -|v.items| <= i < |v.items|)
    ensures v.List? && r.Ok? ==> r.value == v.items[if i >= 0 then i else |v.items| + i]
    ensures v.Text? ==> (r.Ok? <==> -|v.s| <= i < |v.s|)
    ensures v.Text? && r.Ok? ==> r.value == Text([v.s[if i >= 0 then i else |v.s| + i]])
    ensures r.Err? ==> r.error == if v.List? || v.Text? then IndexError else TypeError
  {
    match v
    case List(items) => PyIndex(items, i)
    case Text(s) =>
      (match PyIndex(s, i)
       case Ok(c) => Ok(Text([c]))
       case Err(e) => Err(e))
    case _ => Err(TypeError)
  }

  /** `''.join(ks)` */
  function Concat(ks: seq<string>): string {
    if ks == [] then "" else ks[0] + Concat(ks[1..])
  }

  /** Joining two runs of keys one after the other joins their texts. */
  lemma {:induction false} ConcatAppend(a: seq<string>, b: seq<string>)
    ensures Concat(a + b) == Concat(a) + Concat(b)
  {
    if a != [] {
      assert (a + b)[1..] == a[1..] + b;
      ConcatAppend(a[1..], b);
    } else {
      assert a + b == b;
    }
  }
}
