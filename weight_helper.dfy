/** The weight fold: `getTotalWeight` reduces a list of pets to the sum of
    their weights, starting from 0. */
module WeightHelper {
  import opened Schemas

  /** The reduce as the source runs it: left to right, `total + weight`. */
  function ReduceWeight(total: int, pets: seq<Pet>): int
    decreases |pets|
  {
    if pets == [] then total else ReduceWeight(total + pets[0].weight, pets[1..])
  }

  /** Reference definition: the sum of the `weight` fields. */
  function SumOfWeights(pets: seq<Pet>): int
  {
    if pets == [] then 0 else pets[0].weight + SumOfWeights(pets[1..])
  }

  lemma {:induction false} ReduceIsSum(total: int, pets: seq<Pet>)
    ensures ReduceWeight(total, pets) == total + SumOfWeights(pets)
    decreases |pets|
  {
    if pets != [] {
      ReduceIsSum(total + pets[0].weight, pets[1..]);
    }
  }

  /** `getTotalWeight`: the reduce started at 0 is the sum of the weights,
      and 0 for an empty list. */
  function GetTotalWeight(pets: seq<Pet>): (r: int)
    ensures r == SumOfWeights(pets)
    ensures pets == [] ==> r == 0
  {
    ReduceIsSum(0, pets);
    ReduceWeight(0, pets)
  }

  /** The total is additive over concatenation. */
  lemma {:induction false} TotalWeightAppend(a: seq<Pet>, b: seq<Pet>)
    ensures GetTotalWeight(a + b) == GetTotalWeight(a) + GetTotalWeight(b)
  {
    if a == [] {
      assert a + b == b;
    } else {
      assert (a + b)[1..] == a[1..] + b;
      TotalWeightAppend(a[1..], b);
    }
  }

  /** Taking one pet out of the list takes its weight out of the total. */
  lemma TotalWeightRemove(b: seq<Pet>, i: nat)
    requires i < |b|
    ensures GetTotalWeight(b) == b[i].weight + GetTotalWeight(b[..i] + b[i + 1..])
  {
    var x := b[i];
    assert b == b[..i] + ([x] + b[i + 1..]);
    TotalWeightAppend(b[..i], [x] + b[i + 1..]);
    TotalWeightAppend([x], b[i + 1..]);
    TotalWeightAppend(b[..i], b[i + 1..]);
    assert GetTotalWeight([x]) == x.weight;
  }

  /** Removing the same pet from two permutations of each other leaves
      permutations of each other. */
  lemma MultisetRemove(a: seq<Pet>, b: seq<Pet>, i: nat)
    requires multiset(a) == multiset(b)
    requires a != [] && i < |b| && b[i] == a[0]
    ensures multiset(a[1..]) == multiset(b[..i] + b[i + 1..])
  {
    var x := a[0];
    var rest := b[..i] + b[i + 1..];
    assert b == b[..i] + [x] + b[i + 1..];
    assert a == [x] + a[1..];
    assert multiset(b) == multiset(b[..i]) + multiset{x} + multiset(b[i + 1..]);
    assert multiset(a) == multiset{x} + multiset(a[1..]);
    assert multiset(rest) == multiset(b[..i]) + multiset(b[i + 1..]);
    forall y ensures multiset(a[1..])[y] == multiset(rest)[y] {
      assert multiset(a)[y] == multiset(b)[y];
    }
  }

  /** With exact arithmetic the total does not depend on the order of the pets. */
  lemma {:induction false} TotalWeightPermutation(a: seq<Pet>, b: seq<Pet>)
    requires multiset(a) == multiset(b)
    ensures GetTotalWeight(a) == GetTotalWeight(b)
    decreases |a|
  {
    if a == [] {
      assert |multiset(b)| == 0;
    } else {
      assert a[0] in multiset(b);
      var i :| 0 <= i < |b| && b[i] == a[0];
      MultisetRemove(a, b, i);
      TotalWeightPermutation(a[1..], b[..i] + b[i + 1..]);
      TotalWeightRemove(b, i);
      TotalWeightRemove(a, 0);
      assert a[..0] + a[1..] == a[1..];
    }
  }

  /** Only `weight` contributes: lists whose weights agree position by
      position have the same total, whatever their other fields. */
  lemma {:induction false} TotalWeightOnlyWeights(a: seq<Pet>, b: seq<Pet>)
    requires |a| == |b|
    requires forall i :: 0 <= i < |a| ==> a[i].weight == b[i].weight
    ensures GetTotalWeight(a) == GetTotalWeight(b)
  {
    if a != [] {
      TotalWeightOnlyWeights(a[1..], b[1..]);
    }
  }
}
