/**
 * Stable ranking of catalogue positions by a key, highest key first
 * (`sorted(products, key=score_product, reverse=True)` in backend/main.py).
 *
 * Python's sort is stable also with `reverse=True`: positions with equal keys
 * keep their original order. So the ranking is the unique arrangement of the
 * positions under the strict total order "higher key, or equal key and earlier
 * position". It is computed here by insertion sort; `RankedUnique` shows that
 * every stable sort yields the same arrangement.
 */
module Ranking {
  import opened Seqs

  /** Position `a` is ranked before position `b`. */
  predicate Before(keys: seq<int>, a: nat, b: nat)
    requires a < |keys| && b < |keys|
  {
    keys[a] > keys[b] || (keys[a] == keys[b] && a < b)
  }

  /** Every element of `s` is below `n`. */
  predicate Within(s: seq<nat>, n: nat) {
    forall i :: 0 <= i < |s| ==> s[i] < n
  }

  /** `s` is strictly ordered by `Before` (so it holds no position twice). */
  predicate Ranked(keys: seq<int>, s: seq<nat>)
    requires Within(s, |keys|)
  {
    forall i, j :: 0 <= i < j < |s| ==> Before(keys, s[i], s[j])
  }

  /** The positions 0, 1, ..., n - 1 in catalogue order. */
  function Positions(n: nat): (s: seq<nat>)
    ensures |s| == n && forall i :: 0 <= i < n ==> s[i] == i
  {
    seq(n, i => i)
  }

  /** The elements of `p` at the positions `s`, in the order of `s`. */
  function Apply<T>(p: seq<T>, s: seq<nat>): (r: seq<T>)
    requires Within(s, |p|)
    ensures |r| == |s| && forall k :: 0 <= k < |s| ==> r[k] == p[s[k]]
  {
    seq(|s|, k requires 0 <= k < |s| => p[s[k]])
  }

  /** Puts position `x` into the sequence `s` in front of the first position it is ranked before. */
  function Insert(keys: seq<int>, x: nat, s: seq<nat>): (r: seq<nat>)
    requires x < |keys| && Within(s, |keys|)
    ensures Within(r, |keys|)
    ensures multiset(r) == multiset(s) + multiset{x}
  {
    if s == [] then [x]
    else if Before(keys, x, s[0]) then [x] + s
    else
      assert s == [s[0]] + s[1..];
      [s[0]] + Insert(keys, x, s[1..])
  }

  /** A ranked sequence stays ranked when a position ranked before all of it is put in front. */
  lemma RankedCons(keys: seq<int>, y: nat, t: seq<nat>)
    requires y < |keys| && Within(t, |keys|) && Ranked(keys, t)
    requires forall z :: z in t ==> Before(keys, y, z)
    ensures Within([y] + t, |keys|) && Ranked(keys, [y] + t)
  {
    forall i, j | 0 <= i < j < |[y] + t| ensures Before(keys, ([y] + t)[i], ([y] + t)[j]) {
      if i == 0 {
        assert ([y] + t)[j] in t;
      } else {
        assert ([y] + t)[i] == t[i - 1] && ([y] + t)[j] == t[j - 1];
      }
    }
  }

  /** Inserting a new position into a ranked sequence keeps it ranked. */
  lemma {:induction false} InsertRanked(keys: seq<int>, x: nat, s: seq<nat>)
    requires x < |keys| && Within(s, |keys|) && Ranked(keys, s) && x !in s
    ensures Ranked(keys, Insert(keys, x, s))
  {
    if s == [] {
    } else if Before(keys, x, s[0]) {
      RankedCons(keys, x, s);
    } else {
      var tail := s[1..];
      assert Within(tail, |keys|) && Ranked(keys, tail);
      InsertRanked(keys, x, tail);
      var rest := Insert(keys, x, tail);
      forall z | z in rest ensures Before(keys, s[0], z) {
        assert z in multiset(rest);
        if z != x {
          assert z in tail;
        }
      }
      RankedCons(keys, s[0], rest);
    }
  }

  /** Insertion sort of positions by `Before`. */
  function Sort(keys: seq<int>, s: seq<nat>): (r: seq<nat>)
    requires Within(s, |keys|)
    ensures Within(r, |keys|)
    ensures multiset(r) == multiset(s)
    ensures NoDuplicates(s) ==> Ranked(keys, r)
  {
    if s == [] then []
    else
      var init, last := s[..|s| - 1], s[|s| - 1];
      assert s == init + [last];
      var sorted := Sort(keys, init);
      var r := Insert(keys, last, sorted);
      assert NoDuplicates(s) ==> Ranked(keys, r) by {
        if NoDuplicates(s) {
          assert NoDuplicates(init);
          assert last !in multiset(init);
          InsertRanked(keys, last, sorted);
        }
      }
      r
  }

  /** The ranking of all positions of `keys`: a stable sort by key, highest first. */
  function Order(keys: seq<int>): (order: seq<nat>)
    ensures |order| == |keys| && Within(order, |keys|)
    ensures multiset(order) == multiset(Positions(|keys|))
    ensures Ranked(keys, order)
  {
    var order := Sort(keys, Positions(|keys|));
    assert |multiset(order)| == |order| && |multiset(Positions(|keys|))| == |keys|;
    order
  }

  /** A ranked sequence is sorted by key, highest first, and equal keys keep their position order. */
  lemma RankedSortedStable(keys: seq<int>, s: seq<nat>)
    requires Within(s, |keys|) && Ranked(keys, s)
    ensures forall k, l :: 0 <= k < l < |s| ==> keys[s[k]] >= keys[s[l]]
    ensures forall k, l :: 0 <= k < l < |s| && keys[s[k]] == keys[s[l]] ==> s[k] < s[l]
  {
    forall k, l | 0 <= k < l < |s| ensures keys[s[k]] >= keys[s[l]] && (keys[s[k]] == keys[s[l]] ==> s[k] < s[l]) {
      assert Before(keys, s[k], s[l]);
    }
  }

  /** The tail of a ranked sequence is ranked. */
  lemma RankedTail(keys: seq<int>, a: seq<nat>)
    requires Within(a, |keys|) && Ranked(keys, a) && a != []
    ensures Within(a[1..], |keys|) && Ranked(keys, a[1..])
    ensures multiset(a[1..]) == multiset(a) - multiset{a[0]}
  {
    assert a == [a[0]] + a[1..];
  }

  /** Two ranked arrangements of the same positions start with the same position. */
  lemma RankedSameHead(keys: seq<int>, a: seq<nat>, b: seq<nat>)
    requires Within(a, |keys|) && Within(b, |keys|)
    requires Ranked(keys, a) && Ranked(keys, b)
    requires multiset(a) == multiset(b) && a != []
    ensures b != [] && a[0] == b[0]
  {
    assert a[0] in multiset(b);
    assert b[0] in multiset(a);
  }

  /**
   * Two ranked arrangements of the same positions are equal: the ranking does not
   * depend on the sorting algorithm, so it is what any stable sort produces.
   */
  lemma {:induction false} RankedUnique(keys: seq<int>, a: seq<nat>, b: seq<nat>)
    requires Within(a, |keys|) && Within(b, |keys|)
    requires Ranked(keys, a) && Ranked(keys, b)
    requires multiset(a) == multiset(b)
    ensures a == b
  {
    if a != [] {
      RankedSameHead(keys, a, b);
      RankedTail(keys, a);
      RankedTail(keys, b);
      RankedUnique(keys, a[1..], b[1..]);
      assert a == [a[0]] + a[1..] && b == [b[0]] + b[1..];
    } else {
      assert |multiset(b)| == 0;
    }
  }

  lemma ApplyAppend<T>(p: seq<T>, x: seq<nat>, y: seq<nat>)
    requires Within(x, |p|) && Within(y, |p|)
    ensures Within(x + y, |p|)
    ensures Apply(p, x + y) == Apply(p, x) + Apply(p, y)
  {
    forall i | 0 <= i < |x + y| ensures (x + y)[i] < |p| {
      if i >= |x| { assert (x + y)[i] == y[i - |x|]; }
    }
  }

  /** Removing the element at `j` removes one copy of it from the multiset. */
  lemma RemoveAt(t: seq<nat>, j: nat)
    requires j < |t|
    ensures multiset(t[..j] + t[j + 1..]) == multiset(t) - multiset{t[j]}
  {
    assert t == t[..j] + [t[j]] + t[j + 1..];
  }

  /** Picking at `t` picks the same as picking at `t` without `j`, plus the element at `t[j]`. */
  lemma ApplyRemoveAt<T>(p: seq<T>, t: seq<nat>, j: nat)
    requires Within(t, |p|) && j < |t|
    ensures Within(t[..j] + t[j + 1..], |p|)
    ensures multiset(Apply(p, t)) == multiset(Apply(p, t[..j] + t[j + 1..])) + multiset{p[t[j]]}
  {
    var left, right := t[..j], t[j + 1..];
    assert t == left + ([t[j]] + right);
    assert Within(left, |p|) && Within(right, |p|);
    ApplyAppend(p, [t[j]], right);
    ApplyAppend(p, left, [t[j]] + right);
    ApplyAppend(p, left, right);
    ghost var pl, pr := Apply(p, left), Apply(p, right);
    assert Apply(p, [t[j]]) == [p[t[j]]];
    assert Apply(p, t) == pl + ([p[t[j]]] + pr);
    assert multiset(Apply(p, t)) == multiset(pl) + multiset{p[t[j]]} + multiset(pr);
    assert multiset(Apply(p, left + right)) == multiset(pl) + multiset(pr);
  }

  /** Picking the elements at two arrangements of the same positions picks the same multiset. */
  lemma {:induction false} ApplyPermutation<T>(p: seq<T>, s: seq<nat>, t: seq<nat>)
    requires Within(s, |p|) && Within(t, |p|)
    requires multiset(s) == multiset(t)
    ensures multiset(Apply(p, s)) == multiset(Apply(p, t))
    decreases |s|
  {
    if s != [] {
      assert s[0] in multiset(t);
      var j := FirstIndex(t, s[0]);
      var rest := t[..j] + t[j + 1..];
      RemoveAt(t, j);
      assert s == [s[0]] + s[1..];
      assert multiset(s) == multiset{s[0]} + multiset(s[1..]);
      assert multiset(s[1..]) == multiset(rest);
      ApplyRemoveAt(p, t, j);
      ApplyHead(p, s);
      ApplyPermutation(p, s[1..], rest);
      assert multiset(Apply(p, s)) == multiset{p[s[0]]} + multiset(Apply(p, rest));
    } else {
      assert |multiset(t)| == 0;
    }
  }

  /** Picking at `s` picks the element at its head plus what picking at its tail picks. */
  lemma ApplyHead<T>(p: seq<T>, s: seq<nat>)
    requires Within(s, |p|) && s != []
    ensures Within(s[1..], |p|)
    ensures multiset(Apply(p, s)) == multiset{p[s[0]]} + multiset(Apply(p, s[1..]))
  {
    assert Apply(p, s) == [p[s[0]]] + Apply(p, s[1..]);
  }

  /** Arranging a sequence by a permutation of its positions keeps its elements. */
  lemma ApplyOrderKeepsElements<T>(p: seq<T>, order: seq<nat>)
    requires Within(order, |p|)
    requires multiset(order) == multiset(Positions(|p|))
    ensures multiset(Apply(p, order)) == multiset(p)
  {
    ApplyPermutation(p, order, Positions(|p|));
    assert Apply(p, Positions(|p|)) == p;
  }

  /** When all keys are equal the ranking is the catalogue order itself. */
  lemma OrderOfTies(keys: seq<int>)
    requires forall i, j :: 0 <= i < j < |keys| ==> keys[i] == keys[j]
    ensures Order(keys) == Positions(|keys|)
  {
    RankedUnique(keys, Order(keys), Positions(|keys|));
  }

  /** Of two positions, the one with the higher key is ranked first. */
  lemma OrderOfTwo(keys: seq<int>)
    requires |keys| == 2 && keys[1] > keys[0]
    ensures Order(keys) == [1, 0]
  {
    var swapped: seq<nat> := [1, 0];
    assert multiset(swapped) == multiset(Positions(2)) by {
      assert Positions(2) == [0, 1];
    }
    RankedUnique(keys, swapped, Order(keys));
  }
}
