/** Sequence helpers standing in for the JavaScript array methods and lodash
    functions that the modelled code calls: `find`, `flat`/`flatMap`, `filter`,
    lodash `uniq` and `uniqBy` (first occurrence wins). */
module Sequences {
  import opened Results

  /** Index of the first element satisfying `p` (what `Array.prototype.find` returns). */
  function FindIndex<T>(s: seq<T>, p: T -> bool): (r: Option<nat>)
    ensures r.Some? ==> r.value < |s| && p(s[r.value])
    ensures r.Some? ==> forall j :: 0 <= j < r.value ==> !p(s[j])
    ensures r.None? ==> forall j :: 0 <= j < |s| ==> !p(s[j])
  {
    if s == [] then None
    else if p(s[0]) then Some(0)
    else
      match FindIndex(s[1..], p)
      case None => None
      case Some(i) => Some(i + 1)
  }

  /** `xs.map(f)` for an `f` that may throw: the first failure in order, or
      every result. */
  function MapResult<A, B>(xs: seq<A>, f: A -> Result<B>): (r: Result<seq<B>>)
    ensures r.Ok? <==> forall i :: 0 <= i < |xs| ==> f(xs[i]).Ok?
    ensures r.Ok? ==> |r.value| == |xs| && forall i :: 0 <= i < |xs| ==> r.value[i] == f(xs[i]).value
    ensures r.Err? ==> exists i :: 0 <= i < |xs| && f(xs[i]).Err? && r.error == f(xs[i]).error &&
                                   forall j :: 0 <= j < i ==> f(xs[j]).Ok?
  {
    if xs == [] then Ok([])
    else
      var head :- f(xs[0]);
      var tail :- MapResult(xs[1..], f);
      assert forall i :: 1 <= i < |xs| ==> xs[i] == xs[1..][i - 1];
      Ok([head] + tail)
  }

  /** `ss.flat()`: the sequences of `ss` one after the other. */
  function Concat<T>(ss: seq<seq<T>>): seq<T>
  {
    if ss == [] then [] else ss[0] + Concat(ss[1..])
  }

  /** The elements of `s` that satisfy `p`, in their original order. */
  function Filter<T>(s: seq<T>, p: T -> bool): (r: seq<T>)
    ensures |r| <= |s|
  {
    if s == [] then []
    else if p(s[0]) then [s[0]] + Filter(s[1..], p)
    else Filter(s[1..], p)
  }

  lemma {:induction false} FilterAppend<T>(a: seq<T>, b: seq<T>, p: T -> bool)
    ensures Filter(a + b, p) == Filter(a, p) + Filter(b, p)
  {
    if a == [] {
      assert a + b == b;
    } else {
      assert (a + b)[1..] == a[1..] + b;
      FilterAppend(a[1..], b, p);
    }
  }

  /** The keys of the elements of `s`. */
  function KeysOf<T, K>(s: seq<T>, key: T -> K): set<K>
  {
    set i | 0 <= i < |s| :: key(s[i])
  }

  lemma KeysOfAppend<T, K>(a: seq<T>, b: seq<T>, key: T -> K)
    ensures KeysOf(a + b, key) == KeysOf(a, key) + KeysOf(b, key)
  {
    var ab := a + b;
    forall k | k in KeysOf(ab, key) ensures k in KeysOf(a, key) + KeysOf(b, key) {
      var i :| 0 <= i < |ab| && key(ab[i]) == k;
      if i >= |a| { assert b[i - |a|] == ab[i]; } else { assert a[i] == ab[i]; }
    }
    forall k | k in KeysOf(a, key) ensures k in KeysOf(ab, key) {
      var i :| 0 <= i < |a| && key(a[i]) == k;
      assert ab[i] == a[i];
    }
    forall k | k in KeysOf(b, key) ensures k in KeysOf(ab, key) {
      var i :| 0 <= i < |b| && key(b[i]) == k;
      assert ab[|a| + i] == b[i];
    }
  }

  lemma KeysOfCons<T, K>(x: T, s: seq<T>, key: T -> K)
    ensures KeysOf([x] + s, key) == {key(x)} + KeysOf(s, key)
  {
    KeysOfAppend([x], s, key);
    assert [x][0] == x;
    assert key([x][0]) in KeysOf([x], key);
  }

  /** No two elements of `s` share a key. */
  predicate DistinctBy<T, K(==)>(s: seq<T>, key: T -> K)
  {
    forall i, j :: 0 <= i < j < |s| ==> key(s[i]) != key(s[j])
  }

  /** No element of `s` occurs twice. */
  predicate Distinct<T(==)>(s: seq<T>)
  {
    forall i, j :: 0 <= i < j < |s| ==> s[i] != s[j]
  }

  /** lodash `uniqBy` run after the keys in `seen` have already been met: keeps,
      in order, the first element of `s` for each key not in `seen`. */
  function UniqByFrom<T, K(==)>(s: seq<T>, key: T -> K, seen: set<K>): (r: seq<T>)
    ensures DistinctBy(r, key)
    ensures forall i :: 0 <= i < |r| ==> key(r[i]) !in seen
    ensures KeysOf(r, key) == KeysOf(s, key) - seen
    ensures multiset(r) <= multiset(s)
  {
    if s == [] then []
    else
      var x, tail := s[0], s[1..];
      assert s == [x] + tail;
      KeysOfCons(x, tail, key);
      if key(x) in seen then
        UniqByFrom(tail, key, seen)
      else
        var rest := UniqByFrom(tail, key, seen + {key(x)});
        KeysOfCons(x, rest, key);
        UniqByFromConsKeys(x, rest, key, seen);
        [x] + rest
  }

  lemma UniqByFromConsKeys<T, K>(x: T, rest: seq<T>, key: T -> K, seen: set<K>)
    requires DistinctBy(rest, key)
    requires forall i :: 0 <= i < |rest| ==> key(rest[i]) !in seen + {key(x)}
    ensures DistinctBy([x] + rest, key)
    ensures forall i :: 0 <= i < |[x] + rest| ==> key(([x] + rest)[i]) !in seen || i == 0
  {
  }

  /** `r` is `s` with some elements left out, the rest in their order: the
      elements of `r` are matched, greedily, at increasing positions of `s`. */
  predicate Subsequence<T(==)>(r: seq<T>, s: seq<T>)
  {
    if r == [] then true
    else if s == [] then false
    else if r[0] == s[0] then Subsequence(r[1..], s[1..])
    else Subsequence(r, s[1..])
  }

  /** `x` occurs in `s`, and no element before it shares its key. */
  ghost predicate FirstOfKey<T, K>(s: seq<T>, key: T -> K, x: T)
  {
    exists j :: 0 <= j < |s| && s[j] == x && forall k :: 0 <= k < j ==> key(s[k]) != key(x)
  }

  lemma {:induction false} UniqByFromSubsequence<T, K>(s: seq<T>, key: T -> K, seen: set<K>)
    ensures Subsequence(UniqByFrom(s, key, seen), s)
  {
    if s != [] {
      var x, tail := s[0], s[1..];
      if key(x) in seen {
        var r := UniqByFrom(tail, key, seen);
        UniqByFromSubsequence(tail, key, seen);
        assert r != [] ==> key(r[0]) !in seen;
      } else {
        UniqByFromSubsequence(tail, key, seen + {key(x)});
      }
    }
  }

  lemma {:induction false} UniqByFromFirst<T, K>(s: seq<T>, key: T -> K, seen: set<K>)
    ensures forall i :: 0 <= i < |UniqByFrom(s, key, seen)| ==> FirstOfKey(s, key, UniqByFrom(s, key, seen)[i])
  {
    if s != [] {
      var x, tail := s[0], s[1..];
      var r := UniqByFrom(s, key, seen);
      var seen' := if key(x) in seen then seen else seen + {key(x)};
      var rest := UniqByFrom(tail, key, seen');
      UniqByFromFirst(tail, key, seen');
      assert key(x) in seen';
      assert s == [x] + tail;
      assert r == if key(x) in seen then rest else [x] + rest;
      forall i | 0 <= i < |r| ensures FirstOfKey(s, key, r[i]) {
        if key(x) !in seen && i == 0 {
          assert s[0] == r[0];
        } else {
          var i' := if key(x) in seen then i else i - 1;
          assert r[i] == rest[i'];
          assert FirstOfKey(tail, key, rest[i']);
          var j' :| 0 <= j' < |tail| && tail[j'] == rest[i'] && forall k :: 0 <= k < j' ==> key(tail[k]) != key(rest[i']);
          assert key(rest[i']) !in seen';
          assert s[j' + 1] == r[i];
        }
      }
    }
  }

  /** lodash `uniqBy(s, key)`: the first element for every key, in order. */
  function UniqBy<T, K(==)>(s: seq<T>, key: T -> K): (r: seq<T>)
    ensures DistinctBy(r, key)
    ensures KeysOf(r, key) == KeysOf(s, key)
    ensures multiset(r) <= multiset(s)
  {
    UniqByFrom(s, key, {})
  }

  /** `uniqBy` keeps the input order, and what it keeps for each key is the
      first element with that key. */
  lemma UniqByKeepsFirst<T, K>(s: seq<T>, key: T -> K)
    ensures Subsequence(UniqBy(s, key), s)
    ensures forall i :: 0 <= i < |UniqBy(s, key)| ==> FirstOfKey(s, key, UniqBy(s, key)[i])
  {
    UniqByFromSubsequence(s, key, {});
    UniqByFromFirst(s, key, {});
  }

  /** lodash `uniq(s)`: the first occurrence of every element, in order. */
  function Uniq<T(==)>(s: seq<T>): seq<T>
  {
    UniqBy(s, x => x)
  }

  /** Splitting the input splits the output: the second half only loses the keys
      already met in the first. */
  lemma {:induction false} UniqByFromAppend<T, K>(a: seq<T>, b: seq<T>, key: T -> K, seen: set<K>)
    ensures UniqByFrom(a + b, key, seen) == UniqByFrom(a, key, seen) + UniqByFrom(b, key, seen + KeysOf(a, key))
    decreases |a|, 1
  {
    if a == [] {
      assert a + b == b;
      assert KeysOf(a, key) == {};
      assert seen + KeysOf(a, key) == seen;
    } else if key(a[0]) in seen {
      UniqByFromAppendSeen(a, b, key, seen);
    } else {
      UniqByFromAppendNew(a, b, key, seen);
    }
  }

  /** The head of `a` is dropped on both sides. */
  lemma {:induction false} UniqByFromAppendSeen<T, K>(a: seq<T>, b: seq<T>, key: T -> K, seen: set<K>)
    requires a != [] && key(a[0]) in seen
    ensures UniqByFrom(a + b, key, seen) == UniqByFrom(a, key, seen) + UniqByFrom(b, key, seen + KeysOf(a, key))
    decreases |a|, 0
  {
    var x := a[0];
    assert (a + b)[0] == x;
    assert (a + b)[1..] == a[1..] + b;
    KeysOfCons(x, a[1..], key);
    assert a == [x] + a[1..];
    UniqByFromAppend(a[1..], b, key, seen);
    assert seen + KeysOf(a, key) == seen + KeysOf(a[1..], key);
  }

  /** The head of `a` is kept on both sides, and its key joins `seen`. */
  lemma {:induction false} UniqByFromAppendNew<T, K>(a: seq<T>, b: seq<T>, key: T -> K, seen: set<K>)
    requires a != [] && key(a[0]) !in seen
    ensures UniqByFrom(a + b, key, seen) == UniqByFrom(a, key, seen) + UniqByFrom(b, key, seen + KeysOf(a, key))
    decreases |a|, 0
  {
    var x := a[0];
    assert (a + b)[0] == x;
    assert (a + b)[1..] == a[1..] + b;
    KeysOfCons(x, a[1..], key);
    assert a == [x] + a[1..];
    UniqByFromAppend(a[1..], b, key, seen + {key(x)});
    assert seen + {key(x)} + KeysOf(a[1..], key) == seen + KeysOf(a, key);
  }

  /** De-duplicating an already de-duplicated sequence again, against more keys,
      is the same as de-duplicating once against all of them. */
  lemma {:induction false} UniqByFromTwice<T, K>(s: seq<T>, key: T -> K, inner: set<K>, outer: set<K>)
    ensures UniqByFrom(UniqByFrom(s, key, inner), key, outer) == UniqByFrom(s, key, inner + outer)
  {
    if s != [] {
      var k := key(s[0]);
      if k in inner {
        UniqByFromTwice(s[1..], key, inner, outer);
      } else if k in outer {
        UniqByFromTwice(s[1..], key, inner + {k}, outer);
        assert inner + {k} + outer == inner + outer;
      } else {
        UniqByFromTwice(s[1..], key, inner + {k}, outer + {k});
        assert inner + {k} + (outer + {k}) == inner + outer + {k};
      }
    }
  }

  /** A sequence already free of repeated keys, none of them seen, is kept whole. */
  lemma {:induction false} UniqByFromDistinct<T, K>(s: seq<T>, key: T -> K, seen: set<K>)
    requires DistinctBy(s, key)
    requires forall i :: 0 <= i < |s| ==> key(s[i]) !in seen
    ensures UniqByFrom(s, key, seen) == s
  {
    if s != [] {
      var x, tail := s[0], s[1..];
      assert key(x) !in seen;
      assert DistinctBy(tail, key) by {
        assert forall i :: 0 <= i < |tail| ==> tail[i] == s[i + 1];
      }
      assert forall i :: 0 <= i < |tail| ==> key(tail[i]) !in seen + {key(x)} by {
        assert forall i :: 0 <= i < |tail| ==> tail[i] == s[i + 1];
      }
      UniqByFromDistinct(tail, key, seen + {key(x)});
      assert s == [x] + tail;
    }
  }

  /** `uniq([...prev, x])` on a duplicate-free `prev` appends `x` exactly when it is new. */
  lemma UniqAppendOne<T>(prev: seq<T>, x: T)
    requires Distinct(prev)
    ensures Uniq(prev + [x]) == if x in prev then prev else prev + [x]
    ensures Distinct(Uniq(prev + [x]))
  {
    var id := (y: T) => y;
    var keys := KeysOf(prev, id);
    UniqByFromAppend(prev, [x], id, {});
    UniqByFromDistinct(prev, id, {});
    assert {} + keys == keys;
    assert [x][1..] == [];
    assert x in keys <==> x in prev by {
      if x in prev {
        var i :| 0 <= i < |prev| && prev[i] == x;
        assert id(prev[i]) in keys;
      }
    }
    assert UniqByFrom([x], id, keys) == if x in prev then [] else [x];
  }

  /** Under the identity key, the keys of a sequence are its elements. */
  lemma KeysOfIdentity<T>(s: seq<T>)
    ensures forall x :: x in KeysOf(s, (y: T) => y) <==> x in s
  {
    var id := (y: T) => y;
    forall x | x in s ensures x in KeysOf(s, id) {
      var i :| 0 <= i < |s| && s[i] == x;
      assert id(s[i]) in KeysOf(s, id);
    }
  }

  /** `uniq` keeps every element once and nothing else. */
  lemma UniqMembers<T>(s: seq<T>)
    ensures Distinct(Uniq(s))
    ensures forall x :: x in Uniq(s) <==> x in s
  {
    var id := (y: T) => y;
    KeysOfIdentity(s);
    KeysOfIdentity(Uniq(s));
    assert DistinctBy(Uniq(s), id);
  }

  /** Appending one element to the input of `uniq` appends it to the output
      exactly when it is new. */
  lemma UniqSnoc<T>(s: seq<T>, x: T)
    ensures Uniq(s + [x]) == if x in s then Uniq(s) else Uniq(s) + [x]
  {
    var id := (y: T) => y;
    var keys := KeysOf(s, id);
    UniqByFromAppend(s, [x], id, {});
    KeysOfIdentity(s);
    assert {} + keys == keys;
    assert [x][1..] == [];
    assert UniqByFrom([x], id, keys) == if x in s then [] else [x];
  }

  /** Position of the first occurrence of `x` (`indexOf` on an element known to be present). */
  function IndexOf<T(==)>(s: seq<T>, x: T): (i: nat)
    requires x in s
    ensures i < |s| && s[i] == x
    ensures forall j :: 0 <= j < i ==> s[j] != x
  {
    if s[0] == x then 0 else 1 + IndexOf(s[1..], x)
  }

  lemma IndexOfAppend<T>(s: seq<T>, t: seq<T>, x: T)
    requires x in s
    ensures IndexOf(s + t, x) == IndexOf(s, x)
  {
    var i := IndexOf(s, x);
    assert (s + t)[i] == x;
    var k := IndexOf(s + t, x);
    assert k <= i;
  }

  /** `uniq` keeps the elements in the order of their first occurrences. */
  lemma {:induction false} UniqOrder<T>(s: seq<T>, a: T, b: T)
    requires a in s && b in s
    ensures a in Uniq(s) && b in Uniq(s)
    ensures IndexOf(Uniq(s), a) < IndexOf(Uniq(s), b) <==> IndexOf(s, a) < IndexOf(s, b)
  {
    UniqMembers(s);
    var t, x := s[..|s| - 1], s[|s| - 1];
    assert s == t + [x];
    UniqSnoc(t, x);
    UniqMembers(t);
    if a in t && b in t {
      UniqOrder(t, a, b);
      UniqOrderBothEarlier(t, x, a, b);
    } else if a in t {
      UniqOrderOneLast(t, x, a);
    } else if b in t {
      UniqOrderOneLast(t, x, b);
    }
  }

  /** Appending `x` leaves the first positions of elements already present unchanged. */
  lemma UniqOrderBothEarlier<T>(t: seq<T>, x: T, a: T, b: T)
    requires a in t && b in t
    requires a in Uniq(t) && b in Uniq(t)
    ensures IndexOf(t + [x], a) == IndexOf(t, a) && IndexOf(t + [x], b) == IndexOf(t, b)
    ensures IndexOf(Uniq(t) + [x], a) == IndexOf(Uniq(t), a)
    ensures IndexOf(Uniq(t) + [x], b) == IndexOf(Uniq(t), b)
  {
    IndexOfAppend(t, [x], a);
    IndexOfAppend(t, [x], b);
    IndexOfAppend(Uniq(t), [x], a);
    IndexOfAppend(Uniq(t), [x], b);
  }

  /** A new last element comes after every element already present, in both sequences. */
  lemma UniqOrderOneLast<T>(t: seq<T>, x: T, a: T)
    requires a in t && x !in t
    requires a in Uniq(t) && x !in Uniq(t)
    ensures IndexOf(t + [x], a) < IndexOf(t + [x], x)
    ensures IndexOf(Uniq(t) + [x], a) < IndexOf(Uniq(t) + [x], x)
  {
    var u := Uniq(t);
    IndexOfAppend(t, [x], a);
    IndexOfAppend(u, [x], a);
    assert (t + [x])[|t|] == x && (u + [x])[|u|] == x;
  }

  /** Index of the last element satisfying `p` (a later entry overriding an earlier one). */
  function FindLastIndex<T>(s: seq<T>, p: T -> bool): (r: Option<nat>)
    ensures r.Some? ==> r.value < |s| && p(s[r.value])
    ensures r.Some? ==> forall j :: r.value < j < |s| ==> !p(s[j])
    ensures r.None? ==> forall j :: 0 <= j < |s| ==> !p(s[j])
  {
    if s == [] then None
    else if p(s[|s| - 1]) then Some(|s| - 1)
    else FindLastIndex(s[..|s| - 1], p)
  }

  /** Filtering by two predicates that agree on `s` gives the same result. */
  lemma {:induction false} FilterCongruent<T>(s: seq<T>, p: T -> bool, q: T -> bool)
    requires forall x :: x in s ==> p(x) == q(x)
    ensures Filter(s, p) == Filter(s, q)
  {
    if s != [] {
      assert s[0] in s;
      FilterCongruent(s[1..], p, q);
    }
  }

  /** Filtering by a disjoint union splits the result's elements between the two parts. */
  lemma {:induction false} FilterUnion<T>(s: seq<T>, p: T -> bool, q: T -> bool, both: T -> bool)
    requires forall x :: x in s ==> both(x) == (p(x) || q(x)) && !(p(x) && q(x))
    ensures multiset(Filter(s, both)) == multiset(Filter(s, p)) + multiset(Filter(s, q))
  {
    if s != [] {
      assert s[0] in s;
      FilterUnion(s[1..], p, q, both);
    }
  }

  lemma {:induction false} FilterNone<T>(s: seq<T>, p: T -> bool)
    requires forall x :: x in s ==> !p(x)
    ensures Filter(s, p) == []
  {
    if s != [] {
      assert s[0] in s;
      FilterNone(s[1..], p);
    }
  }

  lemma {:induction false} FilterAll<T>(s: seq<T>, p: T -> bool)
    requires forall x :: x in s ==> p(x)
    ensures Filter(s, p) == s
  {
    if s != [] {
      assert s[0] in s;
      FilterAll(s[1..], p);
    }
  }

  /** What the filter keeps comes from the input and satisfies the predicate. */
  lemma {:induction false} FilterKeeps<T>(s: seq<T>, p: T -> bool, x: T)
    requires x in Filter(s, p)
    ensures x in s && p(x)
  {
    if s != [] && (x != s[0] || !p(s[0])) {
      FilterKeeps(s[1..], p, x);
    }
  }

  /** The filter keeps every element that satisfies the predicate. */
  lemma {:induction false} FilterHas<T>(s: seq<T>, p: T -> bool, i: nat)
    requires i < |s| && p(s[i])
    ensures s[i] in Filter(s, p)
  {
    if i > 0 {
      FilterHas(s[1..], p, i - 1);
    }
  }
}
