/**
 * Python's insertion-ordered `dict` with string keys, as a sequence of (key, value) pairs.
 * Assigning an existing key keeps its position; assigning a new key appends it.
 */
module Dicts {
  import opened Wrappers
  import opened Exceptions

  type Dict<V> = seq<(string, V)>

  function Keys<V>(d: Dict<V>): (ks: seq<string>)
    ensures |ks| == |d| && forall i :: 0 <= i < |d| ==> ks[i] == d[i].0
  {
    seq(|d|, i requires 0 <= i < |d| => d[i].0)
  }

  /** No key occurs twice: what every `dict` satisfies. */
  predicate DistinctKeys<V>(d: Dict<V>)
  {
    forall i, j :: 0 <= i < j < |d| ==> d[i].0 != d[j].0
  }

  /** `d.get(k)`. */
  function Get<V>(d: Dict<V>, k: string): (r: Option<V>)
    ensures r.Some? <==> k in Keys(d)
  {
    if d == [] then None
    else if d[0].0 == k then Some(d[0].1)
    else
      assert Keys(d) == [d[0].0] + Keys(d[1..]);
      Get(d[1..], k)
  }

  /** `d[k]`: the value, or KeyError when the key is absent. */
  function Lookup<V>(d: Dict<V>, k: string): (r: Outcome<V>)
    ensures r.Ok? <==> k in Keys(d)
    ensures r.Ok? ==> Get(d, k) == Some(r.value)
    ensures r.Err? ==> r.error == KeyError(k)
  {
    match Get(d, k)
    case None => Err(KeyError(k))
    case Some(v) => Ok(v)
  }

  /** A key that `get` finds is held by some pair. */
  lemma {:induction false} GetIndex<V>(d: Dict<V>, k: string)
    requires Get(d, k).Some?
    ensures exists j :: 0 <= j < |d| && d[j] == (k, Get(d, k).value)
  {
    if d[0].0 != k {
      GetIndex(d[1..], k);
      var j :| 0 <= j < |d[1..]| && d[1..][j] == (k, Get(d, k).value);
      assert d[j + 1] == d[1..][j];
    } else {
      assert d[0] == (k, Get(d, k).value);
    }
  }

  /** A key found in `d` is found in `d + e` with the same value. */
  lemma {:induction false} GetAppendPresent<V>(d: Dict<V>, e: Dict<V>, k: string)
    requires Get(d, k).Some?
    ensures Get(d + e, k) == Get(d, k)
  {
    if d[0].0 != k {
      assert (d + e)[1..] == d[1..] + e;
      GetAppendPresent(d[1..], e, k);
    }
  }

  /** A key absent from `d` is looked up in `e`. */
  lemma {:induction false} GetAppendAbsent<V>(d: Dict<V>, e: Dict<V>, k: string)
    requires Get(d, k).None?
    ensures Get(d + e, k) == Get(e, k)
  {
    if d != [] {
      assert (d + e)[1..] == d[1..] + e;
      GetAppendAbsent(d[1..], e, k);
    } else {
      assert d + e == e;
    }
  }

  /** `d[k] = v`. */
  function Put<V>(d: Dict<V>, k: string, v: V): Dict<V>
  {
    if d == [] then [(k, v)]
    else if d[0].0 == k then [(k, v)] + d[1..]
    else [d[0]] + Put(d[1..], k, v)
  }

  /** `del d[k]` (when `k` is present; every pair with key `k` is dropped). */
  function Remove<V>(d: Dict<V>, k: string): Dict<V>
  {
    if d == [] then []
    else if d[0].0 == k then Remove(d[1..], k)
    else [d[0]] + Remove(d[1..], k)
  }

  /** `del` of an absent key changes nothing. */
  lemma {:induction false} RemoveAbsent<V>(d: Dict<V>, k: string)
    requires k !in Keys(d)
    ensures Remove(d, k) == d
  {
    if d != [] {
      assert Keys(d) == [d[0].0] + Keys(d[1..]);
      RemoveAbsent(d[1..], k);
      assert d == [d[0]] + d[1..];
    }
  }

  /** Removing from two parts removes from each. */
  lemma {:induction false} RemoveAppend<V>(a: Dict<V>, b: Dict<V>, k: string)
    ensures Remove(a + b, k) == Remove(a, k) + Remove(b, k)
  {
    if a != [] {
      assert (a + b)[1..] == a[1..] + b;
      RemoveAppend(a[1..], b, k);
    } else {
      assert a + b == b;
    }
  }

  /** `del` of a key held by one entry only drops that entry. */
  lemma RemoveOnly<V>(a: Dict<V>, x: (string, V), b: Dict<V>)
    requires x.0 !in Keys(a) && x.0 !in Keys(b)
    ensures Remove(a + ([x] + b), x.0) == a + b
  {
    RemoveAppend(a, [x] + b, x.0);
    RemoveAppend([x], b, x.0);
    RemoveAbsent(a, x.0);
    RemoveAbsent(b, x.0);
    assert Remove([x], x.0) == [];
  }

  /** In a dict, the key of an entry occurs neither before nor after it. */
  lemma KeyAlone<V>(d: Dict<V>, i: nat)
    requires DistinctKeys(d) && i < |d|
    ensures d[i].0 !in Keys(d[..i]) && d[i].0 !in Keys(d[i + 1..])
  {
    var before, after := d[..i], d[i + 1..];
    forall j | 0 <= j < |before| ensures Keys(before)[j] != d[i].0 {
      assert before[j] == d[j];
    }
    forall j | 0 <= j < |after| ensures Keys(after)[j] != d[i].0 {
      assert after[j] == d[i + 1 + j];
    }
  }

  lemma {:induction false} GetAt<V>(d: Dict<V>, i: nat)
    requires DistinctKeys(d) && i < |d|
    ensures Get(d, d[i].0) == Some(d[i].1)
  {
    if i > 0 {
      GetAt(d[1..], i - 1);
    }
  }

  /** A key that is read back after `d[k] = v` gives `v`; every other key is untouched. */
  lemma {:induction false} GetPut<V>(d: Dict<V>, k: string, v: V, k': string)
    ensures Get(Put(d, k, v), k') == if k' == k then Some(v) else Get(d, k')
  {
    if d != [] && d[0].0 != k {
      GetPut(d[1..], k, v, k');
    }
  }

  /** The keys of a non-empty dict: its first key, then the keys of the rest. */
  lemma KeysCons<V>(d: Dict<V>)
    requires d != []
    ensures Keys(d) == [d[0].0] + Keys(d[1..])
  {
  }

  /** The keys of a pair put in front of a dict. */
  lemma KeysPrepend<V>(x: (string, V), d: Dict<V>)
    ensures Keys([x] + d) == [x.0] + Keys(d)
  {
    assert ([x] + d)[1..] == d;
    KeysCons([x] + d);
  }

  /** `d[k] = v` keeps an existing key in place and appends a new one. */
  lemma {:induction false} KeysPut<V>(d: Dict<V>, k: string, v: V)
    ensures Keys(Put(d, k, v)) == if k in Keys(d) then Keys(d) else Keys(d) + [k]
  {
    if d != [] {
      KeysCons(d);
      if d[0].0 != k {
        KeysPut(d[1..], k, v);
        KeysPrepend(d[0], Put(d[1..], k, v));
      } else {
        KeysPrepend((k, v), d[1..]);
      }
    }
  }

  /** A key of `d[k] = v` is `k` or a key of `d`. */
  lemma KeyInPut<V>(d: Dict<V>, k: string, v: V, n: string)
    ensures n in Keys(Put(d, k, v)) <==> n == k || n in Keys(d)
  {
    KeysPut(d, k, v);
    if k !in Keys(d) {
      assert Keys(d) + [k] == Keys(Put(d, k, v));
      assert Keys(Put(d, k, v))[|d|] == k;
    }
  }

  lemma ConsDistinct<V>(x: (string, V), d: Dict<V>)
    requires DistinctKeys(d)
    requires forall p :: p in d ==> p.0 != x.0
    ensures DistinctKeys([x] + d)
  {
    var e := [x] + d;
    forall i, j | 0 <= i < j < |e|
      ensures e[i].0 != e[j].0
    {
      if i == 0 {
        assert e[j] == d[j - 1] && e[j] in d;
      } else {
        assert e[i] == d[i - 1] && e[j] == d[j - 1];
      }
    }
  }

  /** `d[k] = v` keeps the keys distinct. */
  lemma {:induction false} PutDistinct<V>(d: Dict<V>, k: string, v: V)
    requires DistinctKeys(d)
    ensures DistinctKeys(Put(d, k, v))
  {
    if d != [] {
      if d[0].0 == k {
        forall p | p in d[1..] ensures p.0 != k {
          var j :| 0 <= j < |d[1..]| && d[1..][j] == p;
          assert d[j + 1] == p;
        }
        ConsDistinct((k, v), d[1..]);
      } else {
        PutDistinct(d[1..], k, v);
        KeysPut(d[1..], k, v);
        forall p | p in Put(d[1..], k, v) ensures p.0 != d[0].0 {
          var j :| 0 <= j < |Put(d[1..], k, v)| && Put(d[1..], k, v)[j] == p;
          assert p.0 == Keys(Put(d[1..], k, v))[j];
          if p.0 in Keys(d[1..]) {
            var m :| 0 <= m < |d[1..]| && Keys(d[1..])[m] == p.0;
            assert d[m + 1].0 == p.0;
          }
        }
        ConsDistinct(d[0], Put(d[1..], k, v));
      }
    }
  }

  /** `d[k] = v` on a present key changes only that key's value, in place. */
  lemma {:induction false} PutPresent<V>(d: Dict<V>, i: nat, v: V)
    requires DistinctKeys(d) && i < |d|
    ensures Put(d, d[i].0, v) == d[i := (d[i].0, v)]
  {
    if i > 0 {
      PutPresent(d[1..], i - 1, v);
      assert d[1..][i - 1 := (d[i].0, v)] == d[i := (d[i].0, v)][1..];
    }
  }

  /** After `del d[k]`, `k` is absent and every other key is untouched. */
  lemma {:induction false} GetRemove<V>(d: Dict<V>, k: string, k': string)
    ensures Get(Remove(d, k), k') == if k' == k then None else Get(d, k')
  {
    if d != [] {
      GetRemove(d[1..], k, k');
    }
  }

  /** `del d[k]` keeps the order of the remaining keys. */
  lemma {:induction false} RemoveIsSubsequence<V>(d: Dict<V>, k: string)
    ensures |Remove(d, k)| <= |d|
    ensures forall p :: p in Remove(d, k) ==> p in d && p.0 != k
    ensures forall p :: p in d && p.0 != k ==> p in Remove(d, k)
  {
    if d != [] {
      RemoveIsSubsequence(d[1..], k);
    }
  }

  lemma {:induction false} RemoveDistinct<V>(d: Dict<V>, k: string)
    requires DistinctKeys(d)
    ensures DistinctKeys(Remove(d, k))
  {
    if d != [] {
      RemoveDistinct(d[1..], k);
      RemoveIsSubsequence(d[1..], k);
      if d[0].0 != k {
        forall p | p in Remove(d[1..], k) ensures p.0 != d[0].0 {
          RemoveIsSubsequence(d[1..], k);
          assert p in d[1..];
          var j :| 0 <= j < |d[1..]| && d[1..][j] == p;
          assert d[j + 1] == p;
        }
        ConsDistinct(d[0], Remove(d[1..], k));
      }
    }
  }

  /** `d[k] = v` on a new key appends the pair. */
  lemma {:induction false} PutNew<V>(d: Dict<V>, k: string, v: V)
    requires k !in Keys(d)
    ensures Put(d, k, v) == d + [(k, v)]
  {
    if d != [] {
      KeysCons(d);
      assert d[0].0 != k && k !in Keys(d[1..]);
      PutNew(d[1..], k, v);
      assert Put(d, k, v) == [d[0]] + (d[1..] + [(k, v)]);
      assert [d[0]] + (d[1..] + [(k, v)]) == d + [(k, v)];
    }
  }

  /** Appending a pair with a new key keeps the keys distinct. */
  lemma AppendDistinct<V>(d: Dict<V>, k: string, v: V)
    requires DistinctKeys(d) && k !in Keys(d)
    ensures DistinctKeys(d + [(k, v)])
  {
    var e := d + [(k, v)];
    forall i, j | 0 <= i < j < |e| ensures e[i].0 != e[j].0 {
      if j == |d| {
        assert Keys(d)[i] == e[i].0;
      }
    }
  }

  /** Distinctness depends on the keys alone. */
  lemma DistinctByKeys<V, W>(d: Dict<V>, e: Dict<W>)
    requires Keys(d) == Keys(e) && DistinctKeys(d)
    ensures DistinctKeys(e)
  {
    forall i, j | 0 <= i < j < |e| ensures e[i].0 != e[j].0 {
      assert Keys(d)[i] == d[i].0 && Keys(d)[j] == d[j].0;
    }
  }
}
