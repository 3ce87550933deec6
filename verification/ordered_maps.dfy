/**
 * A JavaScript `Map` keyed by strings: entries in insertion order, each key at
 * most once. `Put` of a present key replaces its value in place; `Put` of a new
 * key appends; `Delete` removes the key wherever it is.
 */
module OrderedMaps {
  import opened Wrappers
  import opened Seqs

  function KeysOf<V>(m: seq<(string, V)>): (ks: seq<string>)
    ensures |ks| == |m|
    ensures forall i :: 0 <= i < |m| ==> ks[i] == m[i].0
  {
    seq(|m|, i requires 0 <= i < |m| => m[i].0)
  }

  predicate DistinctKeys<V>(m: seq<(string, V)>) {
    forall i, j :: 0 <= i < j < |m| ==> m[i].0 != m[j].0
  }

  predicate HasKey<V>(m: seq<(string, V)>, k: string) {
    exists i :: 0 <= i < |m| && m[i].0 == k
  }

  /** `map.get(k)`: the value of the first entry with key `k`. */
  function Get<V>(m: seq<(string, V)>, k: string): (r: Option<V>)
    ensures r.None? <==> !HasKey(m, k)
    ensures r.Some? ==> exists i :: 0 <= i < |m| && m[i] == (k, r.value)
  {
    if |m| == 0 then None
    else if m[0].0 == k then Some(m[0].1)
    else
      var r := Get(m[1..], k);
      assert HasKey(m, k) ==> m[0].0 == k || HasKey(m[1..], k) by {
        if HasKey(m, k) {
          var i :| 0 <= i < |m| && m[i].0 == k;
          if i > 0 {
            assert m[1..][i - 1].0 == k;
          }
        }
      }
      assert r.Some? ==> exists i :: 0 <= i < |m| && m[i] == (k, r.value) by {
        if r.Some? {
          var i :| 0 <= i < |m[1..]| && m[1..][i] == (k, r.value);
          assert m[i + 1] == (k, r.value);
        }
      }
      r
  }

  /** `map.delete(k)`. */
  function Delete<V(!new)>(m: seq<(string, V)>, k: string): (r: seq<(string, V)>)
    ensures forall e :: e in r <==> e in m && e.0 != k
    ensures |r| <= |m|
  {
    if |m| == 0 then []
    else if m[0].0 == k then Delete(m[1..], k)
    else
      assert m == [m[0]] + m[1..];
      [m[0]] + Delete(m[1..], k)
  }

  function OtherKey<V>(k: string): ((string, V)) -> bool {
    (e: (string, V)) => e.0 != k
  }

  /** Deleting is filtering out the key: the other entries keep their relative order. */
  lemma {:induction false} DeleteIsFilter<V(!new)>(m: seq<(string, V)>, k: string)
    ensures Delete(m, k) == Filter(m, OtherKey(k))
  {
    if |m| > 0 {
      DeleteIsFilter(m[1..], k);
    }
  }

  /** Deleting a present key removes at least one entry. */
  lemma {:induction false} DeleteShrinks<V(!new)>(m: seq<(string, V)>, k: string)
    requires HasKey(m, k)
    ensures |Delete(m, k)| < |m|
  {
    if m[0].0 != k {
      HasKeyTail(m, k);
      DeleteShrinks(m[1..], k);
    }
  }

  /** `Map.delete`: the key is gone, and exactly the other entries remain, in their order. */
  lemma DeleteRemovesKey<V(!new)>(m: seq<(string, V)>, k: string)
    ensures !HasKey(Delete(m, k), k)
    ensures forall e :: e in Delete(m, k) <==> e in m && e.0 != k
    ensures Delete(m, k) == Filter(m, OtherKey(k))
  {
    DeleteIsFilter(m, k);
    var r := Delete(m, k);
    forall i | 0 <= i < |r|
      ensures r[i].0 != k
    {
      assert r[i] in r;
    }
  }

  /** Deleting an absent key changes nothing. */
  lemma {:induction false} DeleteAbsent<V(!new)>(m: seq<(string, V)>, k: string)
    requires !HasKey(m, k)
    ensures Delete(m, k) == m
  {
    if |m| > 0 {
      assert m[0].0 != k;
      HasKeyTail(m, k);
      DeleteAbsent(m[1..], k);
    }
  }

  /** Deleting keeps the other entries in their order, and keys stay distinct. */
  lemma {:induction false} DeleteDistinct<V(!new)>(m: seq<(string, V)>, k: string)
    requires DistinctKeys(m)
    ensures DistinctKeys(Delete(m, k))
  {
    if |m| > 0 {
      var rest := Delete(m[1..], k);
      DeleteDistinct(m[1..], k);
      if m[0].0 != k {
        forall e | e in rest
          ensures e.0 != m[0].0
        {
          var j :| 0 <= j < |m[1..]| && m[1..][j] == e;
          assert m[j + 1] == e;
        }
        var r := [m[0]] + rest;
        forall i, j | 0 <= i < j < |r|
          ensures r[i].0 != r[j].0
        {
          if i == 0 {
            assert r[j] == rest[j - 1];
            assert rest[j - 1] in rest;
          } else {
            assert r[i] == rest[i - 1] && r[j] == rest[j - 1];
          }
        }
      }
    }
  }

  lemma HasKeyTail<V>(m: seq<(string, V)>, k: string)
    requires |m| > 0 && m[0].0 != k
    ensures HasKey(m, k) <==> HasKey(m[1..], k)
  {
    if HasKey(m, k) {
      var i :| 0 <= i < |m| && m[i].0 == k;
      assert m[1..][i - 1].0 == k;
    }
    if HasKey(m[1..], k) {
      var i :| 0 <= i < |m[1..]| && m[1..][i].0 == k;
      assert m[i + 1].0 == k;
    }
  }

  /** `map.set(k, v)`. */
  function Put<V>(m: seq<(string, V)>, k: string, v: V): (r: seq<(string, V)>)
    ensures HasKey(m, k) ==> |r| == |m|
    ensures !HasKey(m, k) ==> r == m + [(k, v)]
  {
    if |m| == 0 then [(k, v)]
    else if m[0].0 == k then [(k, v)] + m[1..]
    else
      HasKeyTail(m, k);
      assert m == [m[0]] + m[1..];
      [m[0]] + Put(m[1..], k, v)
  }

  /** After `set`, `get` of that key gives the new value and every other key is unaffected. */
  lemma {:induction false} PutGet<V>(m: seq<(string, V)>, k: string, v: V, k': string)
    ensures Get(Put(m, k, v), k') == if k' == k then Some(v) else Get(m, k')
  {
    if |m| > 0 && m[0].0 != k {
      PutGet(m[1..], k, v, k');
    }
  }

  /** `set` of a present key leaves the key order alone; of a new key, appends it. */
  lemma {:induction false} PutKeys<V>(m: seq<(string, V)>, k: string, v: V)
    ensures KeysOf(Put(m, k, v)) == if HasKey(m, k) then KeysOf(m) else KeysOf(m) + [k]
  {
    if |m| > 0 {
      assert m == [m[0]] + m[1..];
      KeysOfCons(m[0], m[1..]);
      if m[0].0 != k {
        var tail := Put(m[1..], k, v);
        PutKeys(m[1..], k, v);
        HasKeyTail(m, k);
        KeysOfCons(m[0], tail);
        if !HasKey(m, k) {
          assert [m[0].0] + (KeysOf(m[1..]) + [k]) == ([m[0].0] + KeysOf(m[1..])) + [k];
        }
      } else {
        assert HasKey(m, k);
        KeysOfCons((k, v), m[1..]);
      }
    }
  }

  lemma KeysOfCons<V>(e: (string, V), m: seq<(string, V)>)
    ensures KeysOf([e] + m) == [e.0] + KeysOf(m)
  {
  }

  /** In a map with distinct keys, the key of an entry finds that entry. */
  lemma GetEntry<V>(m: seq<(string, V)>, i: nat)
    requires DistinctKeys(m) && i < |m|
    ensures Get(m, m[i].0) == Some(m[i].1)
  {
    var r := Get(m, m[i].0);
    var j :| 0 <= j < |m| && m[j] == (m[i].0, r.value);
  }

  /** Putting a present key keeps every key where it was. */
  lemma PutKeepsDistinct<V>(m: seq<(string, V)>, k: string, v: V)
    requires DistinctKeys(m)
    ensures DistinctKeys(Put(m, k, v))
  {
    var r := Put(m, k, v);
    PutKeys(m, k, v);
    forall i, j | 0 <= i < j < |r|
      ensures r[i].0 != r[j].0
    {
      assert KeysOf(r)[i] == r[i].0 && KeysOf(r)[j] == r[j].0;
      if !HasKey(m, k) && j == |m| {
        assert r[i] == m[i];
      }
    }
  }
}
