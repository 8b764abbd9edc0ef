/**
 * Python dictionaries whose iteration order matters, as association lists
 * (keys are kept in first-insertion order and assigning to an existing key keeps
 * its position), and the sequence idioms the tools use on lists.
 */
module Collections {
  import opened Wrappers

  type Dict<K, V> = seq<(K, V)>

  function Keys<K, V>(d: Dict<K, V>): (ks: seq<K>)
    ensures |ks| == |d| && forall i :: 0 <= i < |d| ==> ks[i] == d[i].0
  {
    if d == [] then [] else [d[0].0] + Keys(d[1..])
  }

  predicate Distinct<T(==)>(s: seq<T>) {
    forall i, j :: 0 <= i < j < |s| ==> s[i] != s[j]
  }

  /** `d.get(k)`. */
  function Get<K(==), V>(d: Dict<K, V>, k: K): (r: Option<V>)
    ensures r.None? <==> k !in Keys(d)
  {
    if d == [] then None
    else if d[0].0 == k then Some(d[0].1)
    else
      assert Keys(d) == [d[0].0] + Keys(d[1..]);
      Get(d[1..], k)
  }

  /** What `Get` finds is stored in the dictionary. */
  lemma {:induction false} GetSome<K(!new), V>(d: Dict<K, V>, k: K)
    requires Get(d, k).Some?
    ensures exists i :: 0 <= i < |d| && d[i] == (k, Get(d, k).value)
  {
    if d[0].0 != k {
      GetSome(d[1..], k);
      var i :| 0 <= i < |d[1..]| && d[1..][i] == (k, Get(d, k).value);
      assert d[i + 1] == d[1..][i];
    }
  }

  /** `d[k] = v`: overwrite in place, or append a new key at the end. */
  function Put<K(==,!new), V>(d: Dict<K, V>, k: K, v: V): Dict<K, V> {
    if d == [] then [(k, v)]
    else if d[0].0 == k then [(k, v)] + d[1..]
    else [d[0]] + Put(d[1..], k, v)
  }

  /** `d[k] = v` keeps the key order and appends a new key last. */
  lemma {:induction false} PutKeys<K(!new), V>(d: Dict<K, V>, k: K, v: V)
    ensures Keys(Put(d, k, v)) == if k in Keys(d) then Keys(d) else Keys(d) + [k]
  {
    if d != [] && d[0].0 != k {
      PutKeys(d[1..], k, v);
      assert Keys(d) == [d[0].0] + Keys(d[1..]);
    }
  }

  /** After `d[k] = v`, `k` maps to `v` and every other key to what it did before. */
  lemma {:induction false} PutGet<K(!new), V>(d: Dict<K, V>, k: K, v: V, k': K)
    ensures Get(Put(d, k, v), k') == if k' == k then Some(v) else Get(d, k')
  {
    if d != [] && d[0].0 != k && d[0].0 != k' {
      PutGet(d[1..], k, v, k');
    }
  }

  /** With distinct keys, `Put` replaces the pair holding `k` in place, or appends one. */
  lemma {:induction false} PutPositions<K(!new), V>(d: Dict<K, V>, k: K, v: V)
    requires Distinct(Keys(d))
    ensures |Put(d, k, v)| == if k in Keys(d) then |d| else |d| + 1
    ensures forall i :: 0 <= i < |Put(d, k, v)| ==>
              Put(d, k, v)[i] == if i < |d| && d[i].0 != k then d[i] else (k, v)
  {
    if d != [] && d[0].0 != k {
      var t := d[1..];
      var ks := Keys(d);
      assert Keys(t) == ks[1..];
      assert Distinct(Keys(t)) by {
        forall i, j | 0 <= i < j < |t| ensures Keys(t)[i] != Keys(t)[j] {
          assert Keys(t)[i] == ks[i + 1] && Keys(t)[j] == ks[j + 1];
        }
      }
      PutPositions(t, k, v);
      assert Put(d, k, v) == [d[0]] + Put(t, k, v);
    } else if d != [] {
      forall i | 1 <= i < |d| ensures d[i].0 != k {
        assert Keys(d)[0] != Keys(d)[i];
      }
    }
  }

  /** Inserting keeps keys distinct. */
  lemma PutDistinct<K(!new), V>(d: Dict<K, V>, k: K, v: V)
    requires Distinct(Keys(d))
    ensures Distinct(Keys(Put(d, k, v)))
  {
    PutKeys(d, k, v);
    var ks := Keys(d);
    if k !in ks {
      var ks' := ks + [k];
      forall i, j | 0 <= i < j < |ks'| ensures ks'[i] != ks'[j] {
        assert ks'[i] == ks[i];
        if j < |ks| {
          assert ks'[j] == ks[j];
        }
      }
    }
  }

  /** `d.get(k, 0) + 1` stored back: the per-key tally of the source's statistics loops. */
  function Bump<K(==,!new)>(d: Dict<K, nat>, k: K): Dict<K, nat> {
    if d == [] then [(k, 1)]
    else if d[0].0 == k then [(k, d[0].1 + 1)] + d[1..]
    else [d[0]] + Bump(d[1..], k)
  }

  /** A bump is the assignment `d[k] = d.get(k, 0) + 1`. */
  lemma {:induction false} BumpIsPut<K(!new)>(d: Dict<K, nat>, k: K)
    ensures Bump(d, k) == Put(d, k, Get(d, k).GetOr(0) + 1)
  {
    if d != [] && d[0].0 != k {
      BumpIsPut(d[1..], k);
    }
  }

  /** A bump keeps the key order and appends a new key last. */
  lemma {:induction false} BumpKeys<K(!new)>(d: Dict<K, nat>, k: K)
    ensures Keys(Bump(d, k)) == if k in Keys(d) then Keys(d) else Keys(d) + [k]
  {
    if d != [] && d[0].0 != k {
      BumpKeys(d[1..], k);
      assert Keys(d) == [d[0].0] + Keys(d[1..]);
    }
  }

  /** What a bump does to each key's entry. */
  lemma {:induction false} BumpGet<K(!new)>(d: Dict<K, nat>, k: K, k': K)
    ensures Get(Bump(d, k), k') == if k' == k then Some(Get(d, k).GetOr(0) + 1) else Get(d, k')
  {
    if d != [] && d[0].0 != k && d[0].0 != k' {
      BumpGet(d[1..], k, k');
    }
  }

  /** The sum of a tally's values. */
  function Total<K>(d: Dict<K, nat>): nat {
    if d == [] then 0 else d[0].1 + Total(d[1..])
  }

  /** Bumping one key raises the total by exactly one. */
  lemma {:induction false} BumpTotal<K(!new)>(d: Dict<K, nat>, k: K)
    ensures Total(Bump(d, k)) == Total(d) + 1
  {
    if d != [] {
      var b := Bump(d, k);
      assert b[0].0 == d[0].0 && b[1..] == if d[0].0 == k then d[1..] else Bump(d[1..], k);
      if d[0].0 != k {
        BumpTotal(d[1..], k);
      }
    }
  }

  /** With distinct keys, every pair is what `Get` finds for its key. */
  lemma {:induction false} DistinctGet<K(!new), V>(d: Dict<K, V>, k: nat)
    requires Distinct(Keys(d)) && k < |d|
    ensures Get(d, d[k].0) == Some(d[k].1)
  {
    if k > 0 {
      var t := d[1..];
      var ks := Keys(d);
      assert ks[0] == d[0].0 && ks[k] == d[k].0;
      assert Get(d, d[k].0) == Get(t, d[k].0);
      assert t[k - 1] == d[k];
      assert Keys(t) == ks[1..];
      assert Distinct(Keys(t)) by {
        forall i, j | 0 <= i < j < |t| ensures Keys(t)[i] != Keys(t)[j] {
          assert Keys(t)[i] == ks[i + 1] && Keys(t)[j] == ks[j + 1];
        }
      }
      DistinctGet(t, k - 1);
    }
  }

  /** A prefix one longer is the prefix followed by the next element. */
  lemma PrefixSnoc<T>(s: seq<T>, i: nat)
    requires i < |s|
    ensures s[..i + 1] == s[..i] + [s[i]]
  {
  }

  /** The first occurrences of the elements of `s`, in order: the `seen`-set loops of the source. */
  function Dedup<T(==,!new)>(s: seq<T>): (r: seq<T>)
    ensures Distinct(r)
    ensures forall x :: x in r <==> x in s
  {
    if s == [] then []
    else
      var init := s[..|s| - 1];
      assert s == init + [s[|s| - 1]];
      if s[|s| - 1] in init then Dedup(init) else Dedup(init) + [s[|s| - 1]]
  }

  lemma DedupSnoc<T(!new)>(s: seq<T>, x: T)
    ensures Dedup(s + [x]) == if x in s then Dedup(s) else Dedup(s) + [x]
  {
    assert (s + [x])[..|s|] == s;
  }

  /** `s[:n]`. */
  function Take<T>(s: seq<T>, n: nat): (r: seq<T>)
    ensures |r| <= n && |r| <= |s| && r == s[..|r|]
    ensures |s| >= n ==> |r| == n
  {
    if |s| <= n then s else s[..n]
  }

  lemma TakeKeys<K, V>(d: Dict<K, V>, n: nat)
    ensures Keys(Take(d, n)) == Take(Keys(d), n)
  {
  }

  /** Appending an entry appends its key. */
  lemma KeysSnoc<K, V>(d: Dict<K, V>, k: K, v: V)
    ensures Keys(d + [(k, v)]) == Keys(d) + [k]
  {
  }

  /** The indices below `n` whose flag is set, in increasing order: a filtering loop's survivors. */
  function Selected(flags: seq<bool>, n: nat): (r: seq<nat>)
    requires n <= |flags|
    ensures forall k :: 0 <= k < |r| ==> r[k] < n && flags[r[k]]
    ensures forall k, l :: 0 <= k < l < |r| ==> r[k] < r[l]
  {
    if n == 0 then []
    else
      var r := Selected(flags, n - 1);
      if flags[n - 1] then r + [n - 1] else r
  }

  /** No flagged index below `n` is missed. */
  lemma {:induction false} SelectedComplete(flags: seq<bool>, n: nat)
    requires n <= |flags|
    ensures forall i :: 0 <= i < n && flags[i] ==> i in Selected(flags, n)
  {
    if n > 0 {
      SelectedComplete(flags, n - 1);
      var r := Selected(flags, n - 1);
      assert forall i :: i in r ==> i in Selected(flags, n);
    }
  }

  /** Concatenation is associative. */
  lemma AppendAssoc<T>(a: seq<T>, b: seq<T>, c: seq<T>)
    ensures a + b + c == a + (b + c)
  {
  }

  /** A property of every element of two sequences holds of every element of their concatenation. */
  lemma AllOfAppend<T>(a: seq<T>, b: seq<T>, p: T -> bool)
    requires forall x :: x in a ==> p(x)
    requires forall x :: x in b ==> p(x)
    ensures forall x :: x in a + b ==> p(x)
  {
  }
}
