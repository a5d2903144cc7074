/**
 * All orderings of a sequence, in the order Python's itertools.permutations
 * yields them: lexicographic by input position, so first every ordering that
 * starts with element 0, then every one that starts with element 1, and so on,
 * each block ordered the same way over the remaining elements.
 */
module Orderings {

  /** s without the element at position i. */
  function RemoveAt<T>(s: seq<T>, i: nat): (r: seq<T>)
    requires i < |s|
    ensures |r| == |s| - 1
    ensures multiset(r) == multiset(s) - multiset{s[i]}
  {
    assert s == s[..i] + [s[i]] + s[i + 1..];
    s[..i] + s[i + 1..]
  }

  /** Put x in front of each of the sequences ps, keeping their order. */
  function PrependAll<T>(x: T, ps: seq<seq<T>>): (r: seq<seq<T>>)
    ensures |r| == |ps|
    ensures forall k :: 0 <= k < |ps| ==> r[k] == [x] + ps[k]
  {
    seq(|ps|, k requires 0 <= k < |ps| => [x] + ps[k])
  }

  /** Every ordering of s, in itertools order. */
  function Permutations<T>(s: seq<T>): (r: seq<seq<T>>)
    ensures r != []
    decreases |s|, 1
  {
    if |s| == 0 then [[]] else PermutationsFrom(s, 0)
  }

  /** The orderings of s that start with s[i], then those that start with s[i + 1], ... */
  function PermutationsFrom<T>(s: seq<T>, i: nat): (r: seq<seq<T>>)
    requires i <= |s|
    ensures |r| >= |s| - i
    decreases |s|, 0, |s| - i
  {
    if i == |s| then []
    else PrependAll(s[i], Permutations(RemoveAt(s, i))) + PermutationsFrom(s, i + 1)
  }

  function Factorial(n: nat): (r: nat)
    ensures r >= 1
  {
    if n == 0 then 1 else n * Factorial(n - 1)
  }

  /** Each enumerated ordering holds exactly the elements of s. */
  lemma {:induction false} PermutationsSound<T>(s: seq<T>)
    ensures forall k :: 0 <= k < |Permutations(s)| ==> multiset(Permutations(s)[k]) == multiset(s)
    decreases |s|, 1
  {
    if |s| > 0 {
      PermutationsFromSound(s, 0);
    }
  }

  lemma {:induction false} PermutationsFromSound<T>(s: seq<T>, i: nat)
    requires i <= |s|
    ensures forall k :: 0 <= k < |PermutationsFrom(s, i)| ==> multiset(PermutationsFrom(s, i)[k]) == multiset(s)
    decreases |s|, 0, |s| - i
  {
    if i < |s| {
      var rest := RemoveAt(s, i);
      var block := PrependAll(s[i], Permutations(rest));
      PermutationsSound(rest);
      PermutationsFromSound(s, i + 1);
      forall k | 0 <= k < |block|
        ensures multiset(block[k]) == multiset(s)
      {
        assert block[k] == [s[i]] + Permutations(rest)[k];
      }
    }
  }

  /** Every ordering of the elements of s is enumerated. */
  lemma {:induction false} PermutationsComplete<T>(s: seq<T>, p: seq<T>)
    requires multiset(p) == multiset(s)
    ensures p in Permutations(s)
    decreases |s|
  {
    assert |p| == |multiset(p)| == |s|;
    if |s| == 0 {
      assert p == [];
    } else {
      assert p[0] in multiset(s);
      var j :| 0 <= j < |s| && s[j] == p[0];
      var rest := RemoveAt(s, j);
      assert p == [p[0]] + p[1..];
      assert multiset(p[1..]) == multiset(rest);
      PermutationsComplete(rest, p[1..]);
      PermutationsFromContains(s, 0, j, p[1..]);
    }
  }

  lemma {:induction false} PermutationsFromContains<T>(s: seq<T>, i: nat, j: nat, q: seq<T>)
    requires i <= j < |s|
    requires q in Permutations(RemoveAt(s, j))
    ensures [s[j]] + q in PermutationsFrom(s, i)
    decreases j - i
  {
    var block := PrependAll(s[i], Permutations(RemoveAt(s, i)));
    if i == j {
      var k :| 0 <= k < |Permutations(RemoveAt(s, j))| && Permutations(RemoveAt(s, j))[k] == q;
      assert block[k] == [s[j]] + q;
    } else {
      PermutationsFromContains(s, i + 1, j, q);
    }
  }

  /** p is enumerated exactly when it is a reordering of s. */
  lemma PermutationsCharacterization<T>(s: seq<T>, p: seq<T>)
    ensures p in Permutations(s) <==> multiset(p) == multiset(s)
  {
    PermutationsSound(s);
    if multiset(p) == multiset(s) {
      PermutationsComplete(s, p);
    }
  }

  /** The first ordering enumerated is s itself. */
  lemma {:induction false} PermutationsFirst<T>(s: seq<T>)
    ensures |Permutations(s)| > 0 && Permutations(s)[0] == s
    decreases |s|
  {
    if |s| > 0 {
      var rest := RemoveAt(s, 0);
      assert rest == s[1..];
      PermutationsFirst(rest);
      assert PermutationsFrom(s, 0)[0] == [s[0]] + rest;
    }
  }

  /** One element has the one ordering. */
  lemma PermutationsOfOne<T>(a: T)
    ensures Permutations([a]) == [[a]]
  {
    var empty: seq<T> := [];
    assert RemoveAt([a], 0) == empty;
    assert Permutations(empty) == [empty];
    PrependAllOne(a, empty);
    assert PermutationsFrom([a], 1) == [];
    assert [a] + empty == [a];
    assert PermutationsFrom([a], 0) == [[a] + empty] + [];
  }

  lemma PrependAllOne<T>(x: T, p: seq<T>)
    ensures PrependAll(x, [p]) == [[x] + p]
  {
  }

  /** Two elements: the input order first, then the swap. */
  lemma PermutationsOfTwo<T>(s: seq<T>)
    requires |s| == 2
    ensures Permutations(s) == [[s[0], s[1]], [s[1], s[0]]]
  {
    BlockOfTwo(s, 0);
    BlockOfTwo(s, 1);
    assert PermutationsFrom(s, 2) == [];
  }

  /** The orderings of a two-element s that start with s[i]: just one. */
  lemma BlockOfTwo<T>(s: seq<T>, i: nat)
    requires |s| == 2 && i < 2
    ensures PermutationsFrom(s, i) == [[s[i], s[1 - i]]] + PermutationsFrom(s, i + 1)
  {
    assert RemoveAt(s, i) == [s[1 - i]];
    PermutationsOfOne(s[1 - i]);
    PrependAllOne(s[i], [s[1 - i]]);
    assert [s[i]] + [s[1 - i]] == [s[i], s[1 - i]];
  }

  /**
   * Three elements, in itertools order: the orderings that start with the
   * first element, then the second, then the third, each block continuing
   * with the remaining two in their input order.
   */
  lemma PermutationsOfThree<T>(s: seq<T>)
    requires |s| == 3
    ensures Permutations(s) == [[s[0], s[1], s[2]], [s[0], s[2], s[1]],
                                [s[1], s[0], s[2]], [s[1], s[2], s[0]],
                                [s[2], s[0], s[1]], [s[2], s[1], s[0]]]
  {
    var first := [[s[0], s[1], s[2]], [s[0], s[2], s[1]]];
    var second := [[s[1], s[0], s[2]], [s[1], s[2], s[0]]];
    var third := [[s[2], s[0], s[1]], [s[2], s[1], s[0]]];
    assert PermutationsFrom(s, 2) == third by {
      BlockOfThree(s, 2, 0, 1);
      assert PermutationsFrom(s, 3) == [];
      assert third + [] == third;
    }
    assert PermutationsFrom(s, 1) == second + third by {
      BlockOfThree(s, 1, 0, 2);
    }
    assert Permutations(s) == first + (second + third) by {
      BlockOfThree(s, 0, 1, 2);
    }
    ConcatPairs(first, second, third);
  }

  lemma ConcatPairs<T>(first: seq<T>, second: seq<T>, third: seq<T>)
    requires |first| == |second| == |third| == 2
    ensures first + (second + third) == [first[0], first[1], second[0], second[1], third[0], third[1]]
  {
  }

  /** The orderings of a three-element s that start with s[i]; j < k are the other two positions. */
  lemma BlockOfThree<T>(s: seq<T>, i: nat, j: nat, k: nat)
    requires |s| == 3 && i < 3 && j < k < 3 && i != j && i != k
    ensures PermutationsFrom(s, i) == [[s[i], s[j], s[k]], [s[i], s[k], s[j]]] + PermutationsFrom(s, i + 1)
  {
    PermutationsFromStep(s, i);
    RestOfThree(s, i, j, k);
    PrependAllPair(s[i], s[j], s[k]);
  }

  /** Removing s[i] from a three-element s leaves the other two, whose orderings are known. */
  lemma RestOfThree<T>(s: seq<T>, i: nat, j: nat, k: nat)
    requires |s| == 3 && i < 3 && j < k < 3 && i != j && i != k
    ensures Permutations(RemoveAt(s, i)) == [[s[j], s[k]], [s[k], s[j]]]
  {
    var rest := RemoveAt(s, i);
    assert rest[0] == s[j] && rest[1] == s[k];
    PermutationsOfTwo(rest);
  }

  lemma PermutationsFromStep<T>(s: seq<T>, i: nat)
    requires i < |s|
    ensures PermutationsFrom(s, i) == PrependAll(s[i], Permutations(RemoveAt(s, i))) + PermutationsFrom(s, i + 1)
  {
  }

  lemma PrependAllPair<T>(x: T, y: T, z: T)
    ensures PrependAll(x, [[y, z], [z, y]]) == [[x, y, z], [x, z, y]]
  {
    assert [x] + [y, z] == [x, y, z];
    assert [x] + [z, y] == [x, z, y];
  }

  /** There are n! orderings of n elements. */
  lemma {:induction false} PermutationsCount<T>(s: seq<T>)
    ensures |Permutations(s)| == Factorial(|s|)
    decreases |s|, 1
  {
    if |s| > 0 {
      PermutationsFromCount(s, 0);
    }
  }

  lemma {:induction false} PermutationsFromCount<T>(s: seq<T>, i: nat)
    requires i <= |s| && |s| > 0
    ensures |PermutationsFrom(s, i)| == (|s| - i) * Factorial(|s| - 1)
    decreases |s|, 0, |s| - i
  {
    if i < |s| {
      var f := Factorial(|s| - 1);
      var rest := RemoveAt(s, i);
      var head := PrependAll(s[i], Permutations(rest));
      var tail := PermutationsFrom(s, i + 1);
      assert PermutationsFrom(s, i) == head + tail;
      PermutationsCount(rest);
      assert |head| == f;
      PermutationsFromCount(s, i + 1);
      assert |tail| == (|s| - (i + 1)) * f;
      AddMultiple(|s| - (i + 1), f);
    }
  }

  lemma AddMultiple(a: nat, f: nat)
    ensures f + a * f == (a + 1) * f
  {
  }
}
