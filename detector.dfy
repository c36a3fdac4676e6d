/**
 * The tail of the placeholder issue detector (`detect_issues_from_image` in
 * backend/main.py): whatever tags the image heuristics produced are followed
 * by the two default tags "dryness" and "acne", and the list is then
 * de-duplicated with `list(dict.fromkeys(...))`, which keeps the first
 * occurrence of every tag in its original position order.
 */
module Detector {

  import opened Seqs

  /**
   * `list(dict.fromkeys(s))`: the distinct tags of `s`, each kept where it first
   * occurs. Inserting keys left to right into a dict ignores a key already present.
   */
  function Dedup(s: seq<string>): (r: seq<string>)
    ensures NoDuplicates(r)
    ensures forall x :: x in r <==> x in s
    ensures |r| <= |s|
  {
    if s == [] then []
    else
      var d := Dedup(s[..|s| - 1]);
      var last := s[|s| - 1];
      if last in d then d else d + [last]
  }

  /** A tag that occurs in a prefix has the same first position in the whole sequence. */
  lemma {:induction false} FirstIndexPrefix(s: seq<string>, n: nat, x: string)
    requires n <= |s| && x in s[..n]
    ensures FirstIndex(s, x) == FirstIndex(s[..n], x)
  {
    if s[0] != x {
      assert s[1..][..n - 1] == s[..n][1..];
      FirstIndexPrefix(s[1..], n - 1, x);
    }
  }

  /** A tag whose first occurrence is the last element sits at the last position. */
  lemma {:induction false} FirstIndexLast(s: seq<string>)
    requires |s| > 0 && s[|s| - 1] !in s[..|s| - 1]
    ensures FirstIndex(s, s[|s| - 1]) == |s| - 1
  {
  }

  /** The de-duplicated tags appear in the order of their first occurrences. */
  lemma {:induction false} DedupKeepsFirstOccurrenceOrder(s: seq<string>)
    ensures forall i, j :: 0 <= i < j < |Dedup(s)| ==> FirstIndex(s, Dedup(s)[i]) < FirstIndex(s, Dedup(s)[j])
  {
    if s != [] {
      var init := s[..|s| - 1];
      var last := s[|s| - 1];
      var d := Dedup(init);
      DedupKeepsFirstOccurrenceOrder(init);
      assert init == s[..|s| - 1];
      forall x | x in d
        ensures FirstIndex(s, x) == FirstIndex(init, x) < |s| - 1
      {
        FirstIndexPrefix(s, |s| - 1, x);
      }
      if last !in d {
        FirstIndexLast(s);
      }
    }
  }

  /** A sequence without duplicates is left unchanged. */
  lemma {:induction false} DedupOfDistinct(s: seq<string>)
    requires NoDuplicates(s)
    ensures Dedup(s) == s
  {
    if s != [] {
      var init := s[..|s| - 1];
      DedupOfDistinct(init);
      assert s[|s| - 1] !in init;
      assert init + [s[|s| - 1]] == s;
    }
  }

  /** De-duplicating twice is the same as de-duplicating once. */
  lemma DedupIdempotent(s: seq<string>)
    ensures Dedup(Dedup(s)) == Dedup(s)
  {
    DedupOfDistinct(Dedup(s));
  }

  /** The tags of `r` all occur in `s` and appear in the order of their first occurrences in `s`. */
  predicate InFirstOccurrenceOrder(s: seq<string>, r: seq<string>) {
    && (forall x :: x in r ==> x in s)
    && (forall i, j :: 0 <= i < j < |r| ==> FirstIndex(s, r[i]) < FirstIndex(s, r[j]))
  }

  /** Dropping the head keeps the order, and the head does not occur again. */
  lemma OrderedTail(s: seq<string>, a: seq<string>)
    requires InFirstOccurrenceOrder(s, a) && a != []
    ensures InFirstOccurrenceOrder(s, a[1..]) && a[0] !in a[1..]
  {
    forall i, j | 0 <= i < j < |a[1..]|
      ensures FirstIndex(s, a[1..][i]) < FirstIndex(s, a[1..][j])
    {
      assert a[1..][i] == a[i + 1] && a[1..][j] == a[j + 1];
    }
  }

  /** Two such sequences with the same tags start with the same tag. */
  lemma OrderedSameHead(s: seq<string>, a: seq<string>, b: seq<string>)
    requires InFirstOccurrenceOrder(s, a) && InFirstOccurrenceOrder(s, b)
    requires forall x :: x in a <==> x in b
    requires a != []
    ensures b != [] && a[0] == b[0]
  {
    assert a[0] in b;
    assert b[0] in a;
  }

  /** Two sequences with the same tags, both in first-occurrence order of `s`, are equal. */
  lemma {:induction false} FirstOccurrenceOrderUnique(s: seq<string>, a: seq<string>, b: seq<string>)
    requires InFirstOccurrenceOrder(s, a) && InFirstOccurrenceOrder(s, b)
    requires forall x :: x in a <==> x in b
    ensures a == b
  {
    if a != [] {
      OrderedSameHead(s, a, b);
      OrderedTail(s, a);
      OrderedTail(s, b);
      assert forall x :: x in a[1..] <==> x in a && x != a[0];
      assert forall x :: x in b[1..] <==> x in b && x != b[0];
      FirstOccurrenceOrderUnique(s, a[1..], b[1..]);
      assert a == [a[0]] + a[1..] && b == [b[0]] + b[1..];
    } else if b != [] {
      OrderedSameHead(s, b, a);
    }
  }

  /**
   * `Dedup` is the only sequence that holds exactly the tags of `s`, in the order of
   * their first occurrences (such a sequence has no duplicates).
   */
  lemma DedupCharacterized(s: seq<string>, r: seq<string>)
    requires InFirstOccurrenceOrder(s, r)
    requires forall x :: x in s ==> x in r
    ensures r == Dedup(s)
  {
    DedupKeepsFirstOccurrenceOrder(s);
    FirstOccurrenceOrderUnique(s, r, Dedup(s));
  }

  /** The two tags the scaffold detector always reports. */
  const DefaultIssues: seq<string> := ["dryness", "acne"]

  /**
   * The end of the detector: the heuristic tags found so far are extended with the
   * default tags and the list is de-duplicated.
   */
  method DetectIssuesTail(heuristicTags: seq<string>) returns (issues: seq<string>)
    ensures issues == Dedup(heuristicTags + DefaultIssues)
    ensures "dryness" in issues && "acne" in issues
    ensures NoDuplicates(issues)
    ensures forall t :: t in issues <==> t in heuristicTags || t in DefaultIssues
  {
    var found := heuristicTags;
    found := found + DefaultIssues;
    issues := Dedup(found);
  }
}
