/** `combine` from src/i18n/utils.ts, whose implementation is not part of this
    model: it is defined here by what its tests (src/i18n/utils.test.ts)
    require. It pairs every element of the first array with every element of
    the second, first array major, and rejects an empty array. */
module I18nUtils {
  import opened Results

  /** The callback applied to `x` and each element of `b`, in order. */
  function Row<A, B, C>(x: A, b: seq<B>, f: (A, B) -> C): (r: seq<C>)
    ensures |r| == |b| && forall j :: 0 <= j < |b| ==> r[j] == f(x, b[j])
  {
    seq(|b|, j requires 0 <= j < |b| => f(x, b[j]))
  }

  function Pairs<A, B, C>(a: seq<A>, b: seq<B>, f: (A, B) -> C): (r: seq<C>)
    ensures |r| == |a| * |b|
  {
    if a == [] then []
    else
      assert |a| * |b| == |b| + (|a| - 1) * |b|;
      Row(a[0], b, f) + Pairs(a[1..], b, f)
  }

  lemma {:induction false} PairsAt<A, B, C>(a: seq<A>, b: seq<B>, f: (A, B) -> C, i: nat, j: nat)
    requires i < |a| && j < |b|
    ensures i * |b| + j < |Pairs(a, b, f)| && Pairs(a, b, f)[i * |b| + j] == f(a[i], b[j])
  {
    if i > 0 {
      PairsAt(a[1..], b, f, i - 1, j);
      assert i * |b| + j == |b| + ((i - 1) * |b| + j);
    }
  }

  /** `combine(a, b, f)`: every pairing of the two arrays, an empty array
      being an error. */
  function Combine<A, B, C>(a: seq<A>, b: seq<B>, f: (A, B) -> C): (r: Result<seq<C>>)
    ensures r.Err? <==> |a| == 0 || |b| == 0
    ensures r.Err? ==> r.error == EmptyInput
    ensures r.Ok? ==> |r.value| == |a| * |b|
  {
    if |a| == 0 || |b| == 0 then Err(EmptyInput) else Ok(Pairs(a, b, f))
  }

  /** Position `i * |b| + j` of the result holds `f(a[i], b[j])`: first array major. */
  lemma CombineAt<A, B, C>(a: seq<A>, b: seq<B>, f: (A, B) -> C, i: nat, j: nat)
    requires i < |a| && j < |b|
    ensures Combine(a, b, f).Ok?
    ensures i * |b| + j < |Combine(a, b, f).value|
    ensures Combine(a, b, f).value[i * |b| + j] == f(a[i], b[j])
  {
    PairsAt(a, b, f, i, j);
  }

  function Dash(x: string, y: string): string
  {
    x + "-" + y
  }

  function Minus(x: int, y: int): int
  {
    x - y
  }

  /** The three rejected calls of the first test. */
  lemma CombineRejectsEmpty()
    ensures Combine([], [], Dash).Err?
    ensures Combine([], ["1", "2"], Dash).Err?
    ensures Combine(["it", "en"], [], Dash).Err?
  {
  }

  /** The string case of the second test. */
  lemma CombineLocales()
    ensures Combine(["it", "en"], ["1", "2"], Dash) == Ok(["it-1", "it-2", "en-1", "en-2"])
  {
    var b := ["1", "2"];
    assert Dash("it", "1") == "it-1" && Dash("it", "2") == "it-2";
    assert Dash("en", "1") == "en-1" && Dash("en", "2") == "en-2";
    assert Row("it", b, Dash) == ["it-1", "it-2"];
    assert Row("en", b, Dash) == ["en-1", "en-2"];
    assert ["it", "en"][1..] == ["en"] && ["en"][1..] == [];
    assert Pairs(["en"], b, Dash) == ["en-1", "en-2"];
    assert Pairs(["it", "en"], b, Dash) == ["it-1", "it-2"] + ["en-1", "en-2"];
    assert Combine(["it", "en"], b, Dash) == Ok(Pairs(["it", "en"], b, Dash));
    assert ["it-1", "it-2"] + ["en-1", "en-2"] == ["it-1", "it-2", "en-1", "en-2"];
  }

  /** The numeric case of the second test: the callback's result need not be a string. */
  lemma CombineDifferences()
    ensures Combine([10, 9], [1, 2], Minus) == Ok([9, 8, 8, 7])
  {
    var b, f := [1, 2], Minus;
    assert Row(10, b, f) == [9, 8];
    assert Row(9, b, f) == [8, 7];
    assert [10, 9][1..] == [9] && [9][1..] == [];
    assert Pairs([9], b, f) == [8, 7];
    assert Pairs([10, 9], b, f) == [9, 8] + [8, 7];
    assert Combine([10, 9], b, f) == Ok(Pairs([10, 9], b, f));
    assert [9, 8] + [8, 7] == [9, 8, 8, 7];
  }
}
