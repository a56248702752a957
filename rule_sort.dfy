/** Rule-driven sorting of facet values (`sort` in src/utils/sort.ts).

    Every value goes to the bucket of the first rule whose pattern matches its
    string form. Buckets keep the order in which their patterns first appear
    among the rules. A bucket is ordered by the sort of the LAST rule that
    shares its pattern, or by the default string order when that rule has
    none. The buckets are then concatenated. */
module RuleSort {
  import opened Results
  import opened Sequences

  /** `string | boolean | number`; numbers are modelled as integers. */
  datatype Value = Str(s: string) | Num(n: int) | Bool(b: bool)

  type Sorter = seq<Value> -> seq<Value>

  /** A sorting rule. Rules built from the same RegExp object share `pattern`,
      the identity that keys the pattern map; `test` is `pattern.test`. */
  datatype Rule = Rule(pattern: nat, test: string -> bool, sort: Option<Sorter>)

  function DigitChar(d: nat): (c: char)
    requires d < 10
    ensures '0' <= c <= '9' && c as int - '0' as int == d
  {
    "0123456789"[d]
  }

  predicate IsDigits(s: string)
  {
    forall i :: 0 <= i < |s| ==> '0' <= s[i] <= '9'
  }

  /** The number a string of decimal digits denotes. */
  function DigitsValue(s: string): nat
    requires IsDigits(s)
  {
    if s == [] then 0 else DigitsValue(s[..|s| - 1]) * 10 + (s[|s| - 1] as int - '0' as int)
  }

  /** Decimal digits of `n`, without leading zeros; they read back as `n`. */
  function NatToString(n: nat): (r: string)
    ensures |r| > 0 && IsDigits(r) && DigitsValue(r) == n
    ensures (r[0] == '0') <==> n == 0
  {
    if n < 10 then [DigitChar(n)]
    else
      var r := NatToString(n / 10) + [DigitChar(n % 10)];
      assert r[..|r| - 1] == NatToString(n / 10);
      r
  }

  /** `value.toString()`. The string form of a number is its decimal digits,
      with a minus sign exactly when it is negative, and reads back as that
      number. */
  function ToString(v: Value): (r: string)
    ensures v.Num? ==> |r| > 0 && (r[0] == '-' <==> v.n < 0)
    ensures v.Num? && v.n >= 0 ==> IsDigits(r) && DigitsValue(r) == v.n
    ensures v.Num? && v.n < 0 ==> IsDigits(r[1..]) && DigitsValue(r[1..]) == -v.n
  {
    match v
    case Str(s) => s
    case Num(n) =>
      if n < 0 then
        var r := "-" + NatToString(-n);
        assert r[1..] == NatToString(-n);
        r
      else NatToString(n)
    case Bool(b) => if b then "true" else "false"
  }

  /** The default order of `Array.prototype.sort`: code unit by code unit,
      a proper prefix first. */
  predicate StrLeq(a: string, b: string)
  {
    if a == [] then true
    else if b == [] then false
    else if a[0] != b[0] then a[0] < b[0]
    else StrLeq(a[1..], b[1..])
  }

  lemma {:induction false} StrLeqTotal(a: string, b: string)
    ensures StrLeq(a, b) || StrLeq(b, a)
  {
    if a != [] && b != [] && a[0] == b[0] {
      StrLeqTotal(a[1..], b[1..]);
    }
  }

  lemma {:induction false} StrLeqTransitive(a: string, b: string, c: string)
    requires StrLeq(a, b) && StrLeq(b, c)
    ensures StrLeq(a, c)
  {
    if a != [] && b != [] && c != [] && a[0] == b[0] && b[0] == c[0] {
      StrLeqTransitive(a[1..], b[1..], c[1..]);
    }
  }

  predicate SortedByString(s: seq<Value>)
  {
    forall i, j :: 0 <= i < j < |s| ==> StrLeq(ToString(s[i]), ToString(s[j]))
  }

  /** Inserts `x` after every element whose string does not exceed its own. */
  function Insert(x: Value, s: seq<Value>): (r: seq<Value>)
    ensures multiset(r) == multiset(s) + multiset{x}
  {
    if s == [] then [x]
    else if !StrLeq(ToString(s[0]), ToString(x)) then [x] + s
    else
      assert s == [s[0]] + s[1..];
      [s[0]] + Insert(x, s[1..])
  }

  lemma {:induction false} InsertSorted(x: Value, s: seq<Value>)
    requires SortedByString(s)
    ensures SortedByString(Insert(x, s))
  {
    if s != [] {
      var kx, k0 := ToString(x), ToString(s[0]);
      if !StrLeq(k0, kx) {
        StrLeqTotal(k0, kx);
        forall j | 1 <= j < |s| ensures StrLeq(kx, ToString(s[j])) {
          StrLeqTransitive(kx, k0, ToString(s[j]));
        }
      } else {
        var rest := Insert(x, s[1..]);
        InsertSorted(x, s[1..]);
        forall j | 0 <= j < |rest| ensures StrLeq(k0, ToString(rest[j])) {
          assert rest[j] in multiset(rest);
          if rest[j] != x {
            assert rest[j] in s[1..];
          }
        }
      }
    }
  }

  /** `values.sort()` without a comparator: a stable sort by string form. */
  function DefaultSort(s: seq<Value>): (r: seq<Value>)
    ensures multiset(r) == multiset(s)
  {
    if s == [] then []
    else
      assert s == s[..|s| - 1] + [s[|s| - 1]];
      Insert(s[|s| - 1], DefaultSort(s[..|s| - 1]))
  }

  lemma {:induction false} DefaultSortSorted(s: seq<Value>)
    ensures SortedByString(DefaultSort(s))
    ensures multiset(DefaultSort(s)) == multiset(s)
  {
    if s != [] {
      DefaultSortSorted(s[..|s| - 1]);
      InsertSorted(s[|s| - 1], DefaultSort(s[..|s| - 1]));
    }
  }

  /** The pattern of every rule, in rule order. */
  function Patterns(rules: seq<Rule>): (r: seq<nat>)
    ensures |r| == |rules| && forall i :: 0 <= i < |rules| ==> r[i] == rules[i].pattern
  {
    seq(|rules|, i requires 0 <= i < |rules| => rules[i].pattern)
  }

  /** The keys of the pattern map in insertion order. */
  function BucketOrder(rules: seq<Rule>): seq<nat>
  {
    Uniq(Patterns(rules))
  }

  /** Rule `i` is the first rule whose pattern matches `s`. */
  predicate FirstMatchAt(rules: seq<Rule>, s: string, i: int)
  {
    0 <= i < |rules| && rules[i].test(s) && forall j :: 0 <= j < i ==> !rules[j].test(s)
  }

  /** The pattern of the first rule matching the value's string form. */
  function MatchOf(rules: seq<Rule>, v: Value): (r: Option<nat>)
    ensures r.Some? <==> exists i :: 0 <= i < |rules| && rules[i].test(ToString(v))
    ensures r.Some? ==> r.value in Patterns(rules)
    ensures r.Some? ==> exists i :: FirstMatchAt(rules, ToString(v), i) && r.value == rules[i].pattern
  {
    match FindIndex(rules, (rule: Rule) => rule.test(ToString(v)))
    case Some(i) =>
      assert Patterns(rules)[i] == rules[i].pattern;
      Some(rules[i].pattern)
    case None => None
  }

  /** The values collected under pattern `p`, in input order. */
  function Bucket(values: seq<Value>, rules: seq<Rule>, p: nat): seq<Value>
  {
    Filter(values, v => MatchOf(rules, v) == Some(p))
  }

  /** The sort stored under pattern `p`: the later of two rules sharing a
      pattern overwrites the map entry of the earlier one. */
  function SortOf(rules: seq<Rule>, p: nat): Option<Sorter>
  {
    match FindLastIndex(rules, (rule: Rule) => rule.pattern == p)
    case Some(j) => rules[j].sort
    case None => None
  }

  /** `sort ? sort(values) : values.sort()`. */
  function Arrange(sort: Option<Sorter>, bucket: seq<Value>): seq<Value>
  {
    match sort
    case Some(f) => f(bucket)
    case None => DefaultSort(bucket)
  }

  /** The arranged buckets of `order`, one after the other. */
  function Assemble(values: seq<Value>, rules: seq<Rule>, order: seq<nat>): seq<Value>
  {
    if order == [] then []
    else
      var p := order[|order| - 1];
      Assemble(values, rules, order[..|order| - 1]) + Arrange(SortOf(rules, p), Bucket(values, rules, p))
  }

  /** What `sort(values, sortingRules)` returns. */
  function SortSpec(values: seq<Value>, rules: seq<Rule>): seq<Value>
  {
    Assemble(values, rules, BucketOrder(rules))
  }

  /** An entry of the pattern map: the values collected so far and the sort to apply. */
  datatype Slot = Slot(values: seq<Value>, sort: Option<Sorter>)

  /** `new Map(sortingRules.map(...))`: the key order of the map, and per key
      an empty bucket with the sort of the last rule carrying that key. */
  method NewPatternMap(rules: seq<Rule>) returns (order: seq<nat>, slots: map<nat, Slot>)
    ensures order == BucketOrder(rules)
    ensures forall p :: p in slots <==> p in Patterns(rules)
    ensures forall p :: p in slots ==> slots[p] == Slot([], SortOf(rules, p))
  {
    var patterns := Patterns(rules);
    order, slots := [], map[];
    for i := 0 to |rules|
      invariant order == Uniq(patterns[..i])
      invariant forall p :: p in slots <==> p in patterns[..i]
      invariant forall p :: p in slots ==> slots[p] == Slot([], SortOf(rules[..i], p))
    {
      var p := rules[i].pattern;
      ghost var prefix := patterns[..i];
      assert patterns[..i + 1] == prefix + [p];
      if p !in slots {
        order := order + [p];
      }
      assert order == Uniq(prefix + [p]) by {
        UniqSnoc(prefix, p);
      }
      SortOfSnoc(rules, i);
      slots := slots[p := Slot([], rules[i].sort)];
    }
    assert patterns[..|rules|] == patterns && rules[..|rules|] == rules;
  }

  /** `values.forEach(...)`: pushes every value onto the bucket of its first
      matching rule. A value no rule matches is reported (`console.error`,
      not modelled) and dropped. */
  method CollectValues(values: seq<Value>, rules: seq<Rule>, empty: map<nat, Slot>) returns (slots: map<nat, Slot>)
    requires forall p :: p in empty <==> p in Patterns(rules)
    requires forall p :: p in empty ==> empty[p].values == []
    ensures forall p :: p in slots <==> p in Patterns(rules)
    ensures forall p :: p in slots ==> slots[p] == Slot(Bucket(values, rules, p), empty[p].sort)
  {
    slots := empty;
    for j := 0 to |values|
      invariant forall p :: p in slots <==> p in Patterns(rules)
      invariant forall p :: p in slots ==> slots[p] == Slot(Bucket(values[..j], rules, p), empty[p].sort)
    {
      var v := values[j];
      BucketSnoc(values, rules, j);
      var m := MatchOf(rules, v);
      if m.Some? {
        if m.value in slots {
          var slot := slots[m.value];
          slots := slots[m.value := slot.(values := slot.values + [v])];
        }
      }
    }
    assert values[..|values|] == values;
  }

  /** `sort(values, sortingRules)`: build the pattern map, fill its buckets,
      then flatten the arranged buckets in key order. */
  method Sort(values: seq<Value>, rules: seq<Rule>) returns (result: seq<Value>)
    ensures result == SortSpec(values, rules)
  {
    var order, empty := NewPatternMap(rules);
    var slots := CollectValues(values, rules, empty);
    ghost var patterns := Patterns(rules);
    assert forall p :: p in order ==> p in patterns by {
      UniqMembers(patterns);
    }
    result := [];
    for k := 0 to |order|
      invariant result == Assemble(values, rules, order[..k])
    {
      var slot := slots[order[k]];
      AssembleSnoc(values, rules, order, k);
      result := result + Arrange(slot.sort, slot.values);
    }
    assert order[..|order|] == order;
  }

  lemma AssembleSnoc(values: seq<Value>, rules: seq<Rule>, order: seq<nat>, k: nat)
    requires k < |order|
    ensures Assemble(values, rules, order[..k + 1]) ==
            Assemble(values, rules, order[..k]) + Arrange(SortOf(rules, order[k]), Bucket(values, rules, order[k]))
  {
    assert order[..k + 1][..k] == order[..k];
  }

  lemma SortOfSnoc(rules: seq<Rule>, i: nat)
    requires i < |rules|
    ensures forall p: nat :: SortOf(rules[..i + 1], p) ==
                        if rules[i].pattern == p then rules[i].sort else SortOf(rules[..i], p)
  {
    var s := rules[..i + 1];
    assert s[|s| - 1] == rules[i] && s[..|s| - 1] == rules[..i];
    forall p: nat ensures SortOf(s, p) == if rules[i].pattern == p then rules[i].sort else SortOf(rules[..i], p) {
      var found := FindLastIndex(s, (rule: Rule) => rule.pattern == p);
      assert found == if rules[i].pattern == p then Some(i) else FindLastIndex(rules[..i], (rule: Rule) => rule.pattern == p);
    }
  }

  lemma BucketSnoc(values: seq<Value>, rules: seq<Rule>, j: nat)
    requires j < |values|
    ensures forall p: nat :: Bucket(values[..j + 1], rules, p) ==
                        Bucket(values[..j], rules, p) + (if MatchOf(rules, values[j]) == Some(p) then [values[j]] else [])
  {
    assert values[..j + 1] == values[..j] + [values[j]];
    forall p: nat ensures Bucket(values[..j + 1], rules, p) == Bucket(values[..j], rules, p) + Bucket([values[j]], rules, p) {
      FilterAppend(values[..j], [values[j]], x => MatchOf(rules, x) == Some(p));
    }
  }

  /** Custom sorts return a rearrangement of what they are given. */
  ghost predicate SortsPermute(rules: seq<Rule>)
  {
    forall i, s :: 0 <= i < |rules| && rules[i].sort.Some? ==> multiset(rules[i].sort.value(s)) == multiset(s)
  }

  lemma ArrangePermutes(values: seq<Value>, rules: seq<Rule>, p: nat)
    requires SortsPermute(rules)
    ensures multiset(Arrange(SortOf(rules, p), Bucket(values, rules, p))) == multiset(Bucket(values, rules, p))
  {
  }

  lemma {:induction false} AssemblePermutes(values: seq<Value>, rules: seq<Rule>, order: seq<nat>)
    requires SortsPermute(rules) && Distinct(order)
    ensures multiset(Assemble(values, rules, order)) ==
            multiset(Filter(values, v => MatchOf(rules, v).Some? && MatchOf(rules, v).value in order))
  {
    if order == [] {
      FilterCongruent(values, v => MatchOf(rules, v).Some? && MatchOf(rules, v).value in order, v => false);
      assert Filter(values, v => false) == [] by {
        FilterNone(values, v => false);
      }
    } else {
      var front, p := order[..|order| - 1], order[|order| - 1];
      assert order == front + [p];
      assert Distinct(front);
      assert p !in front;
      AssemblePermutes(values, rules, front);
      ArrangePermutes(values, rules, p);
      FilterUnion(values,
        v => MatchOf(rules, v).Some? && MatchOf(rules, v).value in front,
        v => MatchOf(rules, v) == Some(p),
        v => MatchOf(rules, v).Some? && MatchOf(rules, v).value in order);
    }
  }

  /** Sorting rearranges exactly the values some rule matches; unmatched
      values are dropped. */
  lemma SortIsPermutation(values: seq<Value>, rules: seq<Rule>)
    requires SortsPermute(rules)
    ensures multiset(SortSpec(values, rules)) == multiset(Filter(values, v => MatchOf(rules, v).Some?))
  {
    var order := BucketOrder(rules);
    UniqMembers(Patterns(rules));
    AssemblePermutes(values, rules, order);
    FilterCongruent(values,
      v => MatchOf(rules, v).Some? && MatchOf(rules, v).value in order,
      v => MatchOf(rules, v).Some?);
  }

  /** Position in `order` of the bucket a value goes to; -1 when it goes to none. */
  function BucketIndex(rules: seq<Rule>, order: seq<nat>, v: Value): int
  {
    var m := MatchOf(rules, v);
    if m.Some? && m.value in order then IndexOf(order, m.value) else -1
  }

  /** Position of a value's bucket in the result. */
  function Rank(rules: seq<Rule>, v: Value): int
  {
    BucketIndex(rules, BucketOrder(rules), v)
  }

  predicate MonotoneBy(s: seq<Value>, f: Value -> int)
  {
    forall i, j :: 0 <= i < j < |s| ==> f(s[i]) <= f(s[j])
  }

  lemma MonotoneAppend(a: seq<Value>, b: seq<Value>, f: Value -> int, k: int)
    requires MonotoneBy(a, f) && forall x :: x in a ==> f(x) < k
    requires forall x :: x in b ==> f(x) == k
    ensures MonotoneBy(a + b, f)
  {
    var r := a + b;
    forall i, j | 0 <= i < j < |r| ensures f(r[i]) <= f(r[j]) {
      if j < |a| {
        assert r[i] == a[i] && r[j] == a[j];
      } else if i >= |a| {
        assert r[i] == b[i - |a|] && r[j] == b[j - |a|];
      } else {
        assert r[i] == a[i] && r[j] == b[j - |a|];
        assert r[i] in a && r[j] in b;
      }
    }
  }

  /** The first `k` buckets hold only values whose bucket index is below `k`. */
  lemma {:induction false} AssembleBounded(values: seq<Value>, rules: seq<Rule>, order: seq<nat>, k: nat)
    requires SortsPermute(rules) && Distinct(order) && k <= |order|
    ensures forall x :: x in Assemble(values, rules, order[..k]) ==> 0 <= BucketIndex(rules, order, x) < k
  {
    if k > 0 {
      AssembleBounded(values, rules, order, k - 1);
      AssembleSnoc(values, rules, order, k - 1);
      BucketMembersIndex(values, rules, order, k - 1);
    }
  }

  /** The first `k` buckets, concatenated, are ordered by bucket index. */
  lemma {:induction false} AssembleGrouped(values: seq<Value>, rules: seq<Rule>, order: seq<nat>, k: nat)
    requires SortsPermute(rules) && Distinct(order) && k <= |order|
    ensures MonotoneBy(Assemble(values, rules, order[..k]), x => BucketIndex(rules, order, x))
  {
    if k > 0 {
      AssembleGrouped(values, rules, order, k - 1);
      AssembleBounded(values, rules, order, k - 1);
      AssembleSnoc(values, rules, order, k - 1);
      BucketMembersIndex(values, rules, order, k - 1);
      var p := order[k - 1];
      MonotoneAppend(Assemble(values, rules, order[..k - 1]), Arrange(SortOf(rules, p), Bucket(values, rules, p)),
                     x => BucketIndex(rules, order, x), k - 1);
    }
  }

  /** Every value of the `i`-th bucket in `order` has bucket index `i`. */
  lemma BucketMembersIndex(values: seq<Value>, rules: seq<Rule>, order: seq<nat>, i: nat)
    requires SortsPermute(rules) && Distinct(order) && i < |order|
    ensures forall x :: x in Arrange(SortOf(rules, order[i]), Bucket(values, rules, order[i])) ==>
              BucketIndex(rules, order, x) == i
  {
    var p := order[i];
    var bucket := Bucket(values, rules, p);
    ArrangePermutes(values, rules, p);
    assert IndexOf(order, p) == i;
    forall x | x in Arrange(SortOf(rules, p), bucket) ensures BucketIndex(rules, order, x) == i {
      assert x in multiset(bucket);
      FilterKeeps(values, v => MatchOf(rules, v) == Some(p), x);
    }
  }

  /** The result is grouped by bucket: the buckets come in the order in which
      their patterns first appear among the rules. */
  lemma SortIsGrouped(values: seq<Value>, rules: seq<Rule>)
    requires SortsPermute(rules)
    ensures forall x :: x in SortSpec(values, rules) ==> Rank(rules, x) >= 0
    ensures MonotoneBy(SortSpec(values, rules), x => Rank(rules, x))
  {
    var order := BucketOrder(rules);
    UniqMembers(Patterns(rules));
    AssembleBounded(values, rules, order, |order|);
    AssembleGrouped(values, rules, order, |order|);
    assert order[..|order|] == order;
  }

  /** Two patterns' buckets come in the order of the first rules that carry them,
      however often a pattern is repeated. */
  lemma BucketOrderFollowsFirstRule(rules: seq<Rule>, p: nat, q: nat)
    requires p in Patterns(rules) && q in Patterns(rules)
    ensures p in BucketOrder(rules) && q in BucketOrder(rules)
    ensures IndexOf(BucketOrder(rules), p) < IndexOf(BucketOrder(rules), q) <==>
            IndexOf(Patterns(rules), p) < IndexOf(Patterns(rules), q)
  {
    UniqOrder(Patterns(rules), p, q);
  }

  /** A bucket is ordered by the sort of the last rule carrying its pattern. */
  lemma SortOfIsLastRule(rules: seq<Rule>, p: nat)
    requires p in Patterns(rules)
    ensures exists j :: 0 <= j < |rules| && rules[j].pattern == p && SortOf(rules, p) == rules[j].sort &&
                        forall k :: j < k < |rules| ==> rules[k].pattern != p
  {
    var i :| 0 <= i < |rules| && Patterns(rules)[i] == p;
  }

  /** The default order sorts by string form and keeps every value. */
  lemma DefaultArrangeIsSorted(bucket: seq<Value>)
    ensures SortedByString(Arrange(None, bucket))
    ensures multiset(Arrange(None, bucket)) == multiset(bucket)
  {
    DefaultSortSorted(bucket);
  }

  /** Nothing to sort gives nothing back. */
  lemma SortEmpty(rules: seq<Rule>)
    requires SortsPermute(rules)
    ensures SortSpec([], rules) == []
  {
    SortIsPermutation([], rules);
  }
}
