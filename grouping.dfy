/**
 * Grouping a sequence by a key: the distinct keys in the order of their first
 * occurrence, the sub-sequence of elements with a given key, and the
 * concatenation of groups in a given key order. The month grouping of the
 * inventory listing (a JavaScript object whose keys are not array indices,
 * so that they keep insertion order) and the `$group` counts of the
 * statistics are both instances.
 */
module Grouping {

  predicate Distinct<K(==)>(ks: seq<K>)
  {
    forall i, j :: 0 <= i < j < |ks| ==> ks[i] != ks[j]
  }

  lemma DistinctLast<K>(ks: seq<K>)
    requires ks != [] && Distinct(ks)
    ensures Distinct(ks[..|ks| - 1]) && ks[|ks| - 1] !in ks[..|ks| - 1]
  {
    var init := ks[..|ks| - 1];
    forall i | 0 <= i < |init| ensures init[i] != ks[|ks| - 1] {
      assert init[i] == ks[i];
    }
  }

  /** Every element of `s` has key `k`. */
  predicate Keyed<T, K(==)>(s: seq<T>, key: T -> K, k: K)
  {
    forall i :: 0 <= i < |s| ==> key(s[i]) == k
  }

  /** Elements that share a key stand next to each other. */
  predicate Contiguous<T, K(==)>(s: seq<T>, key: T -> K)
  {
    forall i, j, l :: 0 <= i < j < l < |s| && key(s[i]) == key(s[l]) ==> key(s[j]) == key(s[i])
  }

  /** The distinct keys of `s`, in the order of their first occurrence. */
  function Keys<T, K(==)>(s: seq<T>, key: T -> K): seq<K>
  {
    if s == [] then []
    else
      var ks := Keys(s[..|s| - 1], key);
      if key(s[|s| - 1]) in ks then ks else ks + [key(s[|s| - 1])]
  }

  /** The elements of `s` with key `k`, in their order in `s`. */
  function Group<T, K(==)>(s: seq<T>, key: T -> K, k: K): seq<T>
  {
    if s == [] then []
    else Group(s[..|s| - 1], key, k) + (if key(s[|s| - 1]) == k then [s[|s| - 1]] else [])
  }

  /** The groups of `s` named by `ks`, as a dictionary from key to group. */
  function GroupMap<T, K(==)>(s: seq<T>, key: T -> K, ks: seq<K>): (m: map<K, seq<T>>)
    ensures forall k :: k in ks ==> k in m && m[k] == Group(s, key, k)
  {
    map k | k in ks :: Group(s, key, k)
  }

  /** The groups of `g` named by `ks`, concatenated in the order of `ks`. */
  function Concat<K, T>(ks: seq<K>, g: map<K, seq<T>>): seq<T>
    requires forall k :: k in ks ==> k in g
  {
    if ks == [] then [] else Concat(ks[..|ks| - 1], g) + g[ks[|ks| - 1]]
  }

  /** Number of elements of `s` per key, keys in the order of first occurrence. */
  function Counts<T, K(==)>(s: seq<T>, key: T -> K): seq<(K, nat)>
  {
    var ks := Keys(s, key);
    seq(|ks|, i requires 0 <= i < |ks| => (ks[i], |Group(s, key, ks[i])|))
  }

  function Total<K>(cs: seq<(K, nat)>): nat
  {
    if cs == [] then 0 else Total(cs[..|cs| - 1]) + cs[|cs| - 1].1
  }

  /**
   * The keys are distinct, every element's key is among them, and a key is
   * among them exactly when its group is not empty.
   */
  lemma {:induction false} KeysSpec<T, K>(s: seq<T>, key: T -> K)
    ensures Distinct(Keys(s, key))
    ensures forall i :: 0 <= i < |s| ==> key(s[i]) in Keys(s, key)
    ensures forall k :: k in Keys(s, key) <==> Group(s, key, k) != []
  {
    if s != [] {
      var p, x := s[..|s| - 1], s[|s| - 1];
      KeysSpec(p, key);
      forall k ensures k in Keys(s, key) <==> Group(s, key, k) != [] {
        assert k in Keys(s, key) <==> k in Keys(p, key) || k == key(x);
        assert Group(s, key, k) != [] <==> Group(p, key, k) != [] || k == key(x);
      }
      forall i | 0 <= i < |s| ensures key(s[i]) in Keys(s, key) {
        if i < |p| {
          assert s[i] == p[i];
        }
      }
    }
  }

  lemma {:induction false} GroupKeyed<T, K>(s: seq<T>, key: T -> K, k: K)
    ensures Keyed(Group(s, key, k), key, k)
  {
    if s != [] {
      GroupKeyed(s[..|s| - 1], key, k);
    }
  }

  lemma {:induction false} ConcatEmpty<K, T>(ks: seq<K>, g: map<K, seq<T>>)
    requires forall k :: k in ks ==> k in g && g[k] == []
    ensures Concat(ks, g) == []
  {
    if ks != [] {
      ConcatEmpty(ks[..|ks| - 1], g);
    }
  }

  /** Replacing each group by a permutation of it permutes the concatenation. */
  lemma {:induction false} ConcatMultiset<K, T>(ks: seq<K>, g: map<K, seq<T>>, h: map<K, seq<T>>)
    requires forall k :: k in ks ==> k in g && k in h && multiset(g[k]) == multiset(h[k])
    ensures multiset(Concat(ks, g)) == multiset(Concat(ks, h))
  {
    if ks != [] {
      ConcatMultiset(ks[..|ks| - 1], g, h);
    }
  }

  lemma {:induction false} ConcatAppend<K, T>(ks: seq<K>, g: map<K, seq<T>>, k0: K, x: T)
    requires Distinct(ks) && k0 in ks
    requires forall k :: k in ks ==> k in g
    ensures multiset(Concat(ks, g[k0 := g[k0] + [x]])) == multiset(Concat(ks, g)) + multiset{x}
  {
    var init, kl := ks[..|ks| - 1], ks[|ks| - 1];
    var g' := g[k0 := g[k0] + [x]];
    if kl == k0 {
      DistinctLast(ks);
      ConcatMultiset(init, g', g);
    } else {
      assert k0 in init by {
        var i :| 0 <= i < |ks| && ks[i] == k0;
        assert init[i] == k0;
      }
      ConcatAppend(init, g, k0, x);
    }
  }

  /** Adding one element to `s` adds it to the end of its own group only. */
  lemma GroupMapStep<T, K>(s: seq<T>, key: T -> K, ks: seq<K>)
    requires s != [] && key(s[|s| - 1]) in ks
    ensures var p, x := s[..|s| - 1], s[|s| - 1];
            var mp := GroupMap(p, key, ks);
            forall k :: k in ks ==>
              var mx := mp[key(x) := mp[key(x)] + [x]];
              k in GroupMap(s, key, ks) && k in mx && multiset(GroupMap(s, key, ks)[k]) == multiset(mx[k])
  {
  }

  lemma GroupsPartitionStep<T, K>(s: seq<T>, key: T -> K, ks: seq<K>)
    requires Distinct(ks) && s != [] && key(s[|s| - 1]) in ks
    requires multiset(Concat(ks, GroupMap(s[..|s| - 1], key, ks))) == multiset(s[..|s| - 1])
    ensures multiset(Concat(ks, GroupMap(s, key, ks))) == multiset(s)
  {
    var p, x := s[..|s| - 1], s[|s| - 1];
    assert multiset(s) == multiset(p) + multiset{x} by {
      assert s == p + [x];
    }
    var m, mp := GroupMap(s, key, ks), GroupMap(p, key, ks);
    var mx := mp[key(x) := mp[key(x)] + [x]];
    GroupMapStep(s, key, ks);
    ConcatMultiset(ks, m, mx);
    ConcatAppend(ks, mp, key(x), x);
  }

  /**
   * When `ks` holds every key of `s` once, concatenating the groups of `s`
   * in the order of `ks` permutes `s`: nothing is lost or duplicated.
   */
  lemma {:induction false} GroupsPartition<T, K>(s: seq<T>, key: T -> K, ks: seq<K>)
    requires Distinct(ks)
    requires forall i :: 0 <= i < |s| ==> key(s[i]) in ks
    ensures multiset(Concat(ks, GroupMap(s, key, ks))) == multiset(s)
  {
    if s == [] {
      ConcatEmpty(ks, GroupMap(s, key, ks));
    } else {
      var p := s[..|s| - 1];
      assert forall i :: 0 <= i < |p| ==> key(p[i]) in ks by {
        forall i | 0 <= i < |p| ensures key(p[i]) in ks {
          assert p[i] == s[i];
        }
      }
      GroupsPartition(p, key, ks);
      GroupsPartitionStep(s, key, ks);
    }
  }

  /** Every element of a concatenation of keyed groups has one of the keys. */
  lemma {:induction false} ConcatKeysIn<K, T>(ks: seq<K>, g: map<K, seq<T>>, key: T -> K)
    requires forall k :: k in ks ==> k in g && Keyed(g[k], key, k)
    ensures forall i :: 0 <= i < |Concat(ks, g)| ==> key(Concat(ks, g)[i]) in ks
  {
    if ks != [] {
      var init := ks[..|ks| - 1];
      ConcatKeysIn(init, g, key);
      var a, b := Concat(init, g), g[ks[|ks| - 1]];
      forall i | 0 <= i < |a + b| ensures key((a + b)[i]) in ks {
        if i < |a| {
          assert key(a[i]) in init;
        }
      }
    }
  }

  /** Concatenating keyed groups with distinct keys keeps each key's elements together. */
  lemma {:induction false} ConcatContiguous<K, T>(ks: seq<K>, g: map<K, seq<T>>, key: T -> K)
    requires Distinct(ks)
    requires forall k :: k in ks ==> k in g && Keyed(g[k], key, k)
    ensures Contiguous(Concat(ks, g), key)
  {
    if ks != [] {
      var init, kl := ks[..|ks| - 1], ks[|ks| - 1];
      ConcatContiguous(init, g, key);
      ConcatKeysIn(init, g, key);
      var a, b := Concat(init, g), g[kl];
      var r := a + b;
      DistinctLast(ks);
      forall i, j, l | 0 <= i < j < l < |r|
        ensures key(r[i]) == key(r[l]) ==> key(r[j]) == key(r[i])
      {
        if l < |a| {
          assert r[i] == a[i] && r[j] == a[j] && r[l] == a[l];
        } else if i >= |a| {
          assert key(b[i - |a|]) == kl && key(b[j - |a|]) == kl;
        } else {
          assert key(a[i]) in init;
          assert key(b[l - |a|]) == kl;
          assert key(r[i]) != key(r[l]);
        }
      }
    }
  }

  lemma {:induction false} KeysAppendBlock<T, K>(a: seq<T>, b: seq<T>, key: T -> K, k: K)
    requires b != [] && Keyed(b, key, k) && k !in Keys(a, key)
    ensures Keys(a + b, key) == Keys(a, key) + [k]
    decreases |b|
  {
    var init := b[..|b| - 1];
    assert (a + b)[..|a + b| - 1] == a + init;
    if init == [] {
      assert a + init == a;
    } else {
      KeysAppendBlock(a, init, key, k);
    }
  }

  /**
   * Concatenating non-empty keyed groups in the order `ks` yields a sequence
   * whose keys, in order of first occurrence, are exactly `ks`.
   */
  lemma {:induction false} ConcatKeys<K, T>(ks: seq<K>, g: map<K, seq<T>>, key: T -> K)
    requires Distinct(ks)
    requires forall k :: k in ks ==> k in g && g[k] != [] && Keyed(g[k], key, k)
    ensures Keys(Concat(ks, g), key) == ks
  {
    if ks != [] {
      var init, kl := ks[..|ks| - 1], ks[|ks| - 1];
      ConcatKeys(init, g, key);
      DistinctLast(ks);
      KeysAppendBlock(Concat(init, g), g[kl], key, kl);
    }
  }

  lemma {:induction false} GroupAppend<T, K>(a: seq<T>, b: seq<T>, key: T -> K, k: K)
    ensures Group(a + b, key, k) == Group(a, key, k) + Group(b, key, k)
    decreases |b|
  {
    if b == [] {
      assert a + b == a;
    } else {
      var init := b[..|b| - 1];
      assert (a + b)[..|a + b| - 1] == a + init;
      GroupAppend(a, init, key, k);
    }
  }

  lemma {:induction false} GroupOfKeyed<T, K>(b: seq<T>, key: T -> K, kb: K, k: K)
    requires Keyed(b, key, kb)
    ensures Group(b, key, k) == if k == kb then b else []
  {
    if b != [] {
      GroupOfKeyed(b[..|b| - 1], key, kb, k);
      assert b == b[..|b| - 1] + [b[|b| - 1]];
    }
  }

  /** The group of `k` in a concatenation of keyed groups is the group given for `k`. */
  lemma {:induction false} ConcatGroup<K, T>(ks: seq<K>, g: map<K, seq<T>>, key: T -> K, k: K)
    requires Distinct(ks)
    requires forall k' :: k' in ks ==> k' in g && Keyed(g[k'], key, k')
    ensures Group(Concat(ks, g), key, k) == if k in ks then g[k] else []
  {
    if ks != [] {
      var init, kl := ks[..|ks| - 1], ks[|ks| - 1];
      ConcatGroup(init, g, key, k);
      GroupAppend(Concat(init, g), g[kl], key, k);
      GroupOfKeyed(g[kl], key, kl, k);
      DistinctLast(ks);
      assert k in ks <==> k in init || k == kl;
    } else {
      assert Group([], key, k) == [];
    }
  }

  lemma {:induction false} ConcatLength<T, K>(s: seq<T>, key: T -> K, ks: seq<K>)
    ensures |Concat(ks, GroupMap(s, key, ks))|
         == Total(seq(|ks|, i requires 0 <= i < |ks| => (ks[i], |Group(s, key, ks[i])|)))
  {
    if ks != [] {
      var init := ks[..|ks| - 1];
      ConcatLength(s, key, init);
      var m, mi := GroupMap(s, key, ks), GroupMap(s, key, init);
      assert Concat(init, m) == Concat(init, mi) by {
        ConcatSame(init, m, mi);
      }
      var cs := seq(|ks|, i requires 0 <= i < |ks| => (ks[i], |Group(s, key, ks[i])|));
      assert cs[..|cs| - 1] == seq(|init|, i requires 0 <= i < |init| => (init[i], |Group(s, key, init[i])|));
    }
  }

  lemma {:induction false} ConcatSame<K, T>(ks: seq<K>, g: map<K, seq<T>>, h: map<K, seq<T>>)
    requires forall k :: k in ks ==> k in g && k in h && g[k] == h[k]
    ensures Concat(ks, g) == Concat(ks, h)
  {
    if ks != [] {
      ConcatSame(ks[..|ks| - 1], g, h);
    }
  }

  /** The per-key counts add up to the number of elements. */
  lemma CountsTotal<T, K>(s: seq<T>, key: T -> K)
    ensures Total(Counts(s, key)) == |s|
  {
    var ks := Keys(s, key);
    KeysSpec(s, key);
    GroupsPartition(s, key, ks);
    ConcatLength(s, key, ks);
    var c := Concat(ks, GroupMap(s, key, ks));
    assert |multiset(c)| == |c|;
    assert |multiset(s)| == |s|;
  }

  /** The elements of `s` that satisfy `p`, in their order in `s`: a query's matches. */
  function Select<T>(s: seq<T>, p: T -> bool): seq<T>
  {
    if s == [] then [] else Select(s[..|s| - 1], p) + (if p(s[|s| - 1]) then [s[|s| - 1]] else [])
  }

  /** A selection keeps every element that satisfies `p`, as often as it occurs, and nothing else. */
  lemma {:induction false} SelectSpec<T>(s: seq<T>, p: T -> bool, x: T)
    ensures multiset(Select(s, p))[x] == if p(x) then multiset(s)[x] else 0
  {
    if s != [] {
      SelectSpec(s[..|s| - 1], p, x);
      assert s == s[..|s| - 1] + [s[|s| - 1]];
    }
  }

  /** `SelectSpec` for every element at once. */
  lemma SelectCounts<T>(s: seq<T>, p: T -> bool)
    ensures forall x :: multiset(Select(s, p))[x] == if p(x) then multiset(s)[x] else 0
  {
    forall x {
      SelectSpec(s, p, x);
    }
  }

  /** A selection that every element passes keeps the whole sequence. */
  lemma {:induction false} SelectAll<T>(s: seq<T>, p: T -> bool)
    requires forall i :: 0 <= i < |s| ==> p(s[i])
    ensures Select(s, p) == s
  {
    if s != [] {
      SelectAll(s[..|s| - 1], p);
      assert s == s[..|s| - 1] + [s[|s| - 1]];
    }
  }
}
