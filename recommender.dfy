/**
 * The recommendation scorer (`recommend_products` and its inner
 * `score_product` in backend/main.py).
 *
 * A product scores one point for every entry of its `concern_tags` list that
 * also occurs among the issues (duplicated tags count each time), plus the
 * dryness answer read as an integer when that answer is truthy, the product is
 * tagged "dryness" and the conversion succeeds. The catalogue is stably sorted
 * by score, highest first, and cut to the first `top_n` entries.
 */
module Recommender {
  import opened Wrappers
  import opened Answers
  import opened Ranking

  /**
   * A catalogue record: its `concern_tags` list when the record has that field,
   * and the rest of the record, which is passed through untouched.
   */
  datatype Product = Product(concernTags: Option<seq<string>>, rest: string)

  /** `prod.get("concern_tags", [])`. */
  function Tags(p: Product): seq<string> {
    p.concernTags.GetOr([])
  }

  /** The number of entries of `tags` that occur in `issues`, counting repeated entries each time. */
  function MatchCount(tags: seq<string>, issues: seq<string>): (n: nat)
    ensures n <= |tags|
  {
    if tags == [] then 0
    else MatchCount(tags[..|tags| - 1], issues) + (if tags[|tags| - 1] in issues then 1 else 0)
  }

  /**
   * The dryness bonus: `int(answers["dryness"])` when that answer is present and
   * truthy, "dryness" is one of the product's tags and the conversion does not
   * raise; 0 otherwise.
   */
  function DrynessBonus(answers: map<string, Answer>, tags: seq<string>): (b: int)
    ensures b != 0 ==> "dryness" in answers && Truthy(answers["dryness"]) && "dryness" in tags
                       && ToInt(answers["dryness"]) == Some(b)
    ensures ("dryness" in answers && Truthy(answers["dryness"]) && "dryness" in tags
             && ToInt(answers["dryness"]).Some?) ==> b == ToInt(answers["dryness"]).value
  {
    if "dryness" in answers && Truthy(answers["dryness"]) && "dryness" in tags then
      match ToInt(answers["dryness"])
      case Some(level) => level
      case None => 0
    else 0
  }

  /** The score of one product. */
  function Score(issues: seq<string>, answers: map<string, Answer>, p: Product): int {
    MatchCount(Tags(p), issues) + DrynessBonus(answers, Tags(p))
  }

  /** `score_product`: counts the matching tags in a loop, then adds the dryness bonus. */
  method ScoreProduct(issues: seq<string>, answers: map<string, Answer>, prod: Product) returns (score: int)
    ensures score == Score(issues, answers, prod)
  {
    score := 0;
    var tags := prod.concernTags.GetOr([]);
    for i := 0 to |tags|
      invariant score == MatchCount(tags[..i], issues)
    {
      assert tags[..i + 1][..i] == tags[..i];
      if tags[i] in issues {
        score := score + 1;
      }
    }
    assert tags[..|tags|] == tags;
    var drynessLevel := if "dryness" in answers then answers["dryness"] else Null;
    if Truthy(drynessLevel) && "dryness" in tags {
      var level := ToInt(drynessLevel);
      if level.Some? {
        score := score + level.value;
      }
    }
  }

  /** The score of every product, in catalogue order (the sort keys). */
  function Scores(issues: seq<string>, answers: map<string, Answer>, products: seq<Product>): (keys: seq<int>)
    ensures |keys| == |products|
    ensures forall i :: 0 <= i < |products| ==> keys[i] == Score(issues, answers, products[i])
  {
    seq(|products|, i requires 0 <= i < |products| => Score(issues, answers, products[i]))
  }

  /**
   * The catalogue positions in ranked order: a permutation of the positions, by
   * score highest first, equal scores in catalogue order.
   */
  function RankOrder(issues: seq<string>, answers: map<string, Answer>, products: seq<Product>): (order: seq<nat>)
    ensures |order| == |products| && Within(order, |products|)
    ensures multiset(order) == multiset(Positions(|products|))
    ensures Ranked(Scores(issues, answers, products), order)
  {
    Order(Scores(issues, answers, products))
  }

  /**
   * The ranking puts higher scores first, and among equal scores keeps catalogue
   * order (Python's sort is stable also with `reverse=True`).
   */
  lemma RankOrderSortedStable(issues: seq<string>, answers: map<string, Answer>, products: seq<Product>)
    ensures var order := RankOrder(issues, answers, products);
      && (forall k, l :: 0 <= k < l < |order| ==>
            Score(issues, answers, products[order[k]]) >= Score(issues, answers, products[order[l]]))
      && (forall k, l :: (0 <= k < l < |order| &&
            Score(issues, answers, products[order[k]]) == Score(issues, answers, products[order[l]])) ==>
            order[k] < order[l])
  {
    RankedSortedStable(Scores(issues, answers, products), RankOrder(issues, answers, products));
  }

  /** How many elements Python's slice `s[:topN]` keeps of a list of length `n`. */
  function SliceEnd(n: nat, topN: int): (m: nat)
    ensures m <= n
    ensures 0 <= topN ==> m == if topN < n then topN else n
    ensures topN < 0 ==> m == if n + topN > 0 then n + topN else 0
  {
    if topN >= 0 then (if topN < n then topN else n)
    else if n + topN > 0 then n + topN else 0
  }

  /** `sorted(products, key=score_product, reverse=True)`: the whole catalogue in ranked order. */
  function RankedCatalogue(issues: seq<string>, answers: map<string, Answer>, products: seq<Product>): (ranked: seq<Product>)
    ensures |ranked| == |products| && multiset(ranked) == multiset(products)
    ensures forall k :: 0 <= k < |ranked| ==> ranked[k] == products[RankOrder(issues, answers, products)[k]]
  {
    var order := RankOrder(issues, answers, products);
    ApplyOrderKeepsElements(products, order);
    Apply(products, order)
  }

  /** `recommend_products`: the ranked catalogue, cut to its first `topN` entries. */
  function Recommend(issues: seq<string>, answers: map<string, Answer>, products: seq<Product>, topN: int): (r: seq<Product>)
    ensures |r| == SliceEnd(|products|, topN)
    ensures 0 <= topN ==> |r| == if topN < |products| then topN else |products|
    ensures r == RankedCatalogue(issues, answers, products)[..|r|]
    ensures multiset(r) <= multiset(products)
  {
    var ranked := RankedCatalogue(issues, answers, products);
    var m := SliceEnd(|products|, topN);
    PrefixIsSubMultiset(ranked, m);
    ranked[..m]
  }

  /** A prefix holds no element more often than the whole sequence. */
  lemma PrefixIsSubMultiset(s: seq<Product>, m: nat)
    requires m <= |s|
    ensures multiset(s[..m]) <= multiset(s)
  {
    assert s == s[..m] + s[m..];
    assert multiset(s) == multiset(s[..m]) + multiset(s[m..]);
  }

  /** The recommended products are in the order of their catalogue positions picked by the ranking. */
  lemma RecommendPicks(issues: seq<string>, answers: map<string, Answer>, products: seq<Product>, topN: int)
    ensures var r, order := Recommend(issues, answers, products, topN), RankOrder(issues, answers, products);
      forall k :: 0 <= k < |r| ==> r[k] == products[order[k]]
  {
  }

  /** Recommended products come with scores that never increase. */
  lemma RecommendSortedByScore(issues: seq<string>, answers: map<string, Answer>, products: seq<Product>, topN: int)
    ensures var r := Recommend(issues, answers, products, topN);
      forall k, l :: 0 <= k < l < |r| ==> Score(issues, answers, r[k]) >= Score(issues, answers, r[l])
  {
    RankOrderSortedStable(issues, answers, products);
  }

  /**
   * Stability: two recommended products with equal scores appear in the order of
   * their catalogue positions.
   */
  lemma RecommendStable(issues: seq<string>, answers: map<string, Answer>, products: seq<Product>, topN: int, k: nat, l: nat)
    requires k < l < |Recommend(issues, answers, products, topN)|
    requires Score(issues, answers, Recommend(issues, answers, products, topN)[k])
             == Score(issues, answers, Recommend(issues, answers, products, topN)[l])
    ensures RankOrder(issues, answers, products)[k] < RankOrder(issues, answers, products)[l]
  {
    RankOrderSortedStable(issues, answers, products);
  }

  /** No product left out of the recommendation scores higher than a recommended one. */
  lemma RecommendIsTop(issues: seq<string>, answers: map<string, Answer>, products: seq<Product>, topN: int, i: nat)
    requires i < |products|
    requires i !in RankOrder(issues, answers, products)[..|Recommend(issues, answers, products, topN)|]
    ensures forall k :: 0 <= k < |Recommend(issues, answers, products, topN)| ==>
              Score(issues, answers, products[i]) <= Score(issues, answers, Recommend(issues, answers, products, topN)[k])
  {
    var order := RankOrder(issues, answers, products);
    var r := Recommend(issues, answers, products, topN);
    assert i in multiset(Positions(|products|)) by {
      assert Positions(|products|)[i] == i;
    }
    assert i in multiset(order);
    var l :| 0 <= l < |order| && order[l] == i;
    RankOrderSortedStable(issues, answers, products);
  }

  /** The recommendation keeps its tied products in catalogue order, so with all scores equal it is a catalogue prefix. */
  lemma RecommendAllTied(issues: seq<string>, answers: map<string, Answer>, products: seq<Product>, topN: int)
    requires forall i, j :: 0 <= i < j < |products| ==>
               Score(issues, answers, products[i]) == Score(issues, answers, products[j])
    ensures Recommend(issues, answers, products, topN) == products[..SliceEnd(|products|, topN)]
  {
    var keys := Scores(issues, answers, products);
    OrderOfTies(keys);
    assert Apply(products, Positions(|products|)) == products;
  }

  /**
   * The recommendation is what any stable descending sort would give: every
   * arrangement of the catalogue positions that is sorted by score, highest first,
   * with ties in catalogue order, yields the same products.
   */
  lemma RecommendIsStableSort(issues: seq<string>, answers: map<string, Answer>, products: seq<Product>, topN: int, order: seq<nat>)
    requires Within(order, |products|) && multiset(order) == multiset(Positions(|products|))
    requires forall k, l :: 0 <= k < l < |order| ==>
               Score(issues, answers, products[order[k]]) > Score(issues, answers, products[order[l]])
               || (Score(issues, answers, products[order[k]]) == Score(issues, answers, products[order[l]]) && order[k] < order[l])
    ensures |order| == |products|
    ensures Recommend(issues, answers, products, topN) == Apply(products, order)[..SliceEnd(|products|, topN)]
  {
    var keys := Scores(issues, answers, products);
    assert Ranked(keys, order);
    RankedUnique(keys, order, Order(keys));
  }

  /** An empty catalogue yields no recommendation. */
  lemma RecommendEmptyCatalogue(issues: seq<string>, answers: map<string, Answer>, topN: int)
    ensures Recommend(issues, answers, [], topN) == []
  {
  }

  /** The tag count only depends on which tags are issues, not on their order or repetition. */
  lemma {:induction false} MatchCountSetOnly(tags: seq<string>, issues: seq<string>, issues': seq<string>)
    requires forall x :: x in issues <==> x in issues'
    ensures MatchCount(tags, issues) == MatchCount(tags, issues')
  {
    if tags != [] {
      MatchCountSetOnly(tags[..|tags| - 1], issues, issues');
    }
  }

  /** Counting splits over concatenated tag lists, so a tag listed twice counts twice. */
  lemma {:induction false} MatchCountAppend(a: seq<string>, b: seq<string>, issues: seq<string>)
    ensures MatchCount(a + b, issues) == MatchCount(a, issues) + MatchCount(b, issues)
    decreases |b|
  {
    if b == [] {
      assert a + b == a;
    } else {
      var init := b[..|b| - 1];
      assert (a + b)[..|a + b| - 1] == a + init;
      assert (a + b)[|a + b| - 1] == b[|b| - 1];
      MatchCountAppend(a, init, issues);
    }
  }

  /** A tag listed twice that is an issue contributes two points. */
  lemma RepeatedTagCounts(t: string, issues: seq<string>)
    requires t in issues
    ensures MatchCount([t, t], issues) == 2
  {
    MatchCountAppend([t], [t], issues);
    assert [t] + [t] == [t, t];
  }

  /** Every tag matches exactly when the count is the number of tags. */
  lemma {:induction false} MatchCountAll(tags: seq<string>, issues: seq<string>)
    ensures MatchCount(tags, issues) == |tags| <==> forall i :: 0 <= i < |tags| ==> tags[i] in issues
  {
    if tags != [] {
      var init := tags[..|tags| - 1];
      MatchCountAll(init, issues);
      assert forall i :: 0 <= i < |init| ==> init[i] == tags[i];
    }
  }

  /** No tag matches exactly when the count is zero. */
  lemma {:induction false} MatchCountNone(tags: seq<string>, issues: seq<string>)
    ensures MatchCount(tags, issues) == 0 <==> forall i :: 0 <= i < |tags| ==> tags[i] !in issues
  {
    if tags != [] {
      var init := tags[..|tags| - 1];
      MatchCountNone(init, issues);
      assert forall i :: 0 <= i < |init| ==> init[i] == tags[i];
    }
  }

  /** A product without a `concern_tags` field is treated as having no tags, so it scores 0. */
  lemma ScoreWithoutTags(issues: seq<string>, answers: map<string, Answer>, p: Product)
    requires p.concernTags.None?
    ensures Score(issues, answers, p) == 0
  {
  }

  /** Without a usable dryness answer the score is just the tag count. */
  lemma ScoreWithoutDrynessAnswer(issues: seq<string>, answers: map<string, Answer>, p: Product)
    requires "dryness" !in answers || !Truthy(answers["dryness"]) || ToInt(answers["dryness"]).None?
    ensures Score(issues, answers, p) == MatchCount(Tags(p), issues)
  {
  }

  /** A `NaN` dryness answer is truthy, but `int()` rejects it, so it adds nothing. */
  lemma NaNGivesNoBonus(answers: map<string, Answer>, tags: seq<string>)
    requires "dryness" in answers && answers["dryness"] == NaN
    ensures Truthy(answers["dryness"]) && DrynessBonus(answers, tags) == 0
  {
  }

  /** The dryness bonus of an answer reading as `level`, for a product tagged "dryness". */
  lemma BonusForLevel(answers: map<string, Answer>, tags: seq<string>, level: int)
    requires "dryness" in answers && Truthy(answers["dryness"]) && "dryness" in tags
    requires ToInt(answers["dryness"]) == Some(level)
    ensures DrynessBonus(answers, tags) == level
  {
  }

  /** Of two products, the one with the higher score is recommended first. */
  lemma TwoProductsRanked(issues: seq<string>, answers: map<string, Answer>, a: Product, b: Product, topN: int)
    requires Score(issues, answers, b) > Score(issues, answers, a)
    requires topN >= 2
    ensures Recommend(issues, answers, [a, b], topN) == [b, a]
  {
    RankOrderOfTwo(issues, answers, a, b);
    RecommendSwapped(issues, answers, [a, b], topN);
  }

  /** Helper: with the second product scoring higher, the ranking swaps the two. */
  lemma RankOrderOfTwo(issues: seq<string>, answers: map<string, Answer>, a: Product, b: Product)
    requires Score(issues, answers, b) > Score(issues, answers, a)
    ensures RankOrder(issues, answers, [a, b]) == [1, 0]
  {
    var keys := Scores(issues, answers, [a, b]);
    assert keys[1] > keys[0] by {
      assert keys[0] == Score(issues, answers, a) && keys[1] == Score(issues, answers, b);
    }
    OrderOfTwo(keys);
  }

  /** Helper: a swapping ranking of two products recommends them swapped. */
  lemma RecommendSwapped(issues: seq<string>, answers: map<string, Answer>, products: seq<Product>, topN: int)
    requires |products| == 2 && RankOrder(issues, answers, products) == [1, 0]
    requires topN >= 2
    ensures Recommend(issues, answers, products, topN) == [products[1], products[0]]
  {
    var ranked := RankedCatalogue(issues, answers, products);
    assert ranked == [products[1], products[0]];
    assert ranked[..2] == ranked;
  }

  /**
   * Products A (tagged dryness) and B (tagged acne and dryness), issues dryness and
   * acne, dryness answer "3": A scores 1 + 3, B scores 2 + 3, so B comes first.
   */
  lemma DrynessScenario(issues: seq<string>, answers: map<string, Answer>, a: Product, b: Product)
    requires issues == ["dryness", "acne"] && answers == map["dryness" := Str("3")]
    requires a.concernTags == Some(["dryness"]) && b.concernTags == Some(["acne", "dryness"])
    ensures Score(issues, answers, a) == 4 && Score(issues, answers, b) == 5
    ensures Recommend(issues, answers, [a, b], DefaultTopN) == [b, a]
  {
    var ta, tb := Tags(a), Tags(b);
    assert ta == ["dryness"] && tb == ["acne", "dryness"];
    ParseThree();
    assert ToInt(answers["dryness"]) == Some(3);
    BonusForLevel(answers, ta, 3);
    BonusForLevel(answers, tb, 3);
    assert MatchCount(ta, issues) == 1 by {
      assert ta[..0] == [];
    }
    assert MatchCount(tb, issues) == 2 by {
      assert tb[..1] == ["acne"] && ["acne"][..0] == [];
    }
    TwoProductsRanked(issues, answers, a, b, DefaultTopN);
  }

  /** The default `top_n` of `recommend_products`, which the HTTP handler relies on. */
  const DefaultTopN := 5
}
