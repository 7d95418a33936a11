/** The unified result that a collector hands to the renderers: a Python dict
    from metric name to value, kept in insertion order. */
module Results {
  import opened Wrappers

  /** One collected value: a trimmed text, a list of lines, or (for "Services")
      a dict from service name to status text. */
  datatype Value =
    | Scalar(text: string)
    | Lines(lines: seq<string>)
    | StatusMap(entries: seq<(string, string)>)

  /** A Python dict with string keys, as the sequence of its items. */
  type Dict<V> = seq<(string, V)>

  /** The result of one `collect` call. */
  type Info = Dict<Value>

  /** `list(d.keys())`. */
  function Keys<V>(d: Dict<V>): (ks: seq<string>)
    ensures |ks| == |d|
    ensures forall i :: 0 <= i < |d| ==> ks[i] == d[i].0
  {
    if d == [] then [] else [d[0].0] + Keys(d[1..])
  }

  /** The keys of two dicts laid end to end. */
  lemma KeysAppend<V>(a: Dict<V>, b: Dict<V>)
    ensures Keys(a + b) == Keys(a) + Keys(b)
  {
  }

  /** No key occurs twice, which every Python dict guarantees. */
  predicate DistinctKeys<V>(d: Dict<V>) {
    forall i, j :: 0 <= i < j < |d| ==> d[i].0 != d[j].0
  }

  /** The dict whose items pair each name with the value at the same
      position, as a dict display with those names and values. */
  function Items<V>(names: seq<string>, values: seq<V>): (d: Dict<V>)
    requires |names| == |values|
    ensures |d| == |names|
    ensures forall i :: 0 <= i < |names| ==> d[i] == (names[i], values[i])
    ensures Keys(d) == names
  {
    if names == [] then [] else [(names[0], values[0])] + Items(names[1..], values[1..])
  }

  /** `d.get(k)`. */
  function Get<V>(d: Dict<V>, k: string): (r: Option<V>)
    ensures r.None? <==> k !in Keys(d)
    ensures r.Some? ==> (k, r.value) in d
  {
    if d == [] then None
    else if d[0].0 == k then Some(d[0].1)
    else Get(d[1..], k)
  }

  /** `d[k] = v`: the value of a present key is replaced where it stands, and
      a new key is added at the end. */
  function Put<V>(d: Dict<V>, k: string, v: V): (r: Dict<V>)
    ensures k in Keys(d) ==> Keys(r) == Keys(d)
    ensures k !in Keys(d) ==> r == d + [(k, v)]
    ensures DistinctKeys(d) ==> DistinctKeys(r)
  {
    if d == [] then [(k, v)]
    else if d[0].0 == k then [(k, v)] + d[1..]
    else [d[0]] + Put(d[1..], k, v)
  }

  /** After `d[k] = v`, `get` finds v under k and what it found before under
      every other key. */
  lemma {:induction false} PutGet<V>(d: Dict<V>, k: string, v: V, k': string)
    ensures Get(Put(d, k, v), k') == if k' == k then Some(v) else Get(d, k')
  {
    if d != [] && d[0].0 != k {
      PutGet(d[1..], k, v, k');
    }
  }

  /** A key that no item carries is added at the end. */
  lemma PutAppends<V>(d: Dict<V>, k: string, v: V)
    requires forall i :: 0 <= i < |d| ==> d[i].0 != k
    ensures Put(d, k, v) == d + [(k, v)]
  {
    assert k !in Keys(d);
  }

  /** Storing a new key appends its item. */
  lemma PutNew<V>(d: Dict<V>, k: string, v: V)
    requires k !in Keys(d)
    ensures Put(d, k, v) == d + [(k, v)]
  {
    PutAppends(d, k, v);
  }

  /** `get` on a dict extended by an item with a new key. */
  lemma GetAppend<V>(d: Dict<V>, k: string, v: V, k': string)
    requires k !in Keys(d)
    ensures Get(d + [(k, v)], k') == if k' == k then Some(v) else Get(d, k')
  {
    PutNew(d, k, v);
    PutGet(d, k, v, k');
  }

  /** Storing two different new keys appends their items in order. */
  lemma PutTwoNew<V>(d: Dict<V>, k1: string, v1: V, k2: string, v2: V)
    requires k1 !in Keys(d) && k2 !in Keys(d) && k1 != k2
    ensures Put(Put(d, k1, v1), k2, v2) == d + [(k1, v1), (k2, v2)]
  {
    PutNew(d, k1, v1);
    KeysAppend(d, [(k1, v1)]);
    PutNew(d + [(k1, v1)], k2, v2);
  }

  /** In a dict without repeated keys, the item at position i is what `get`
      finds for its key. */
  lemma {:induction false} GetAt<V>(d: Dict<V>, i: nat)
    requires DistinctKeys(d) && i < |d|
    ensures Get(d, d[i].0) == Some(d[i].1)
  {
    if i > 0 {
      assert d[0].0 != d[i].0;
      assert d[1..][i - 1] == d[i];
      GetAt(d[1..], i - 1);
    }
  }

  /** A dict whose keys are distinct names repeats no key. */
  lemma DistinctByKeys<V>(d: Dict<V>, names: seq<string>)
    requires Keys(d) == names
    requires forall i, j :: 0 <= i < j < |names| ==> names[i] != names[j]
    ensures DistinctKeys(d)
  {
    assert forall i :: 0 <= i < |d| ==> d[i].0 == names[i];
  }

  /** In a dict whose keys are distinct names, `get` of the name at
      position i finds the value at position i. */
  lemma GetByKeys<V>(d: Dict<V>, names: seq<string>, i: nat)
    requires Keys(d) == names && i < |d|
    requires forall i, j :: 0 <= i < j < |names| ==> names[i] != names[j]
    ensures Get(d, names[i]) == Some(d[i].1)
  {
    DistinctByKeys(d, names);
    GetAt(d, i);
  }

  /** Appending an item with a key outside the dict's keys adds that key at
      the end, and `get` finds its value. */
  lemma AppendNewKey<V>(d: Dict<V>, names: seq<string>, k: string, v: V)
    requires Keys(d) == names && k !in names
    ensures Keys(d + [(k, v)]) == names + [k]
    ensures Get(d + [(k, v)], k) == Some(v)
  {
    KeysAppend(d, [(k, v)]);
    GetAppend(d, k, v, k);
  }

  /** Two dicts with the same key at every position have the same keys,
      and one has distinct keys exactly when the other does. */
  lemma KeysAligned<V, W>(a: Dict<V>, b: Dict<W>)
    requires |a| == |b| && forall i :: 0 <= i < |a| ==> a[i].0 == b[i].0
    ensures Keys(a) == Keys(b)
    ensures DistinctKeys(a) <==> DistinctKeys(b)
  {
    assert forall i :: 0 <= i < |a| ==> Keys(a)[i] == Keys(b)[i];
  }

  /** A dict whose items pair each of the distinct `names`, in order, with
      its image under `f` maps exactly those names, each to its image. */
  lemma GetAligned<V>(d: Dict<V>, names: seq<string>, f: string -> V, n: string)
    requires |d| == |names| && forall i :: 0 <= i < |d| ==> d[i] == (names[i], f(names[i]))
    requires forall i, j :: 0 <= i < j < |names| ==> names[i] != names[j]
    ensures Get(d, n) == if n in names then Some(f(n)) else None
  {
    if n in names {
      var i :| 0 <= i < |names| && names[i] == n;
      assert d[i] == (n, f(n));
      assert DistinctKeys(d) by {
        forall i, j | 0 <= i < j < |d|
          ensures d[i].0 != d[j].0
        {
          assert d[i].0 == names[i] && d[j].0 == names[j];
        }
      }
      GetAt(d, i);
    } else {
      assert n !in Keys(d) by {
        forall i | 0 <= i < |d|
          ensures Keys(d)[i] != n
        {
          assert Keys(d)[i] == d[i].0 == names[i];
        }
      }
    }
  }

  /** A sequence is what precedes position i, the element there, and what
      follows it. */
  lemma SliceAround<T>(s: seq<T>, i: nat)
    requires i < |s|
    ensures s == s[..i] + [s[i]] + s[i + 1..]
  {
  }

  /** Concatenation regroups freely; used to extend command logs. */
  lemma ConcatAssoc<T>(a: seq<T>, b: seq<T>, c: seq<T>)
    ensures a + b + c == a + (b + c)
  {
  }
}
