/**
 * The rule-based follow-up questionnaire (`generate_followup_questions` in
 * backend/main.py and the `Question` record of backend/schemas.py).
 *
 * The generator walks the detected issue tags in input order and, for every
 * tag that is a key of a fixed five-entry table, emits one question whose id
 * is the tag and whose text, input type and options come from the table.
 * Unknown tags produce nothing.
 */
module Questionnaire {
  import opened Wrappers

  /** A follow-up question. `kind` is the record's `type` field ("text", "number" or "select"). */
  datatype Question = Question(id: string, text: string, kind: string, options: Option<seq<string>>)

  /** One entry of the issue-to-question table; `kind` is None for an entry without a "type". */
  datatype Template = Template(text: string, kind: Option<string>, options: Option<seq<string>>)

  /** The input type a question gets when its table entry names none. */
  const DefaultKind := "text"

  /** The fixed table of the five known issue tags. */
  const Mapping: map<string, Template> := map[
    "dryness" := Template("On a scale of 1–5, how dry does your skin feel?", Some("number"), None),
    "acne" := Template("Are your breakouts occasional or frequent?", Some("select"),
                       Some(["Occasional", "Frequent", "Severe"])),
    "redness" := Template("Do you experience redness throughout the day?", Some("select"), Some(["Yes", "No"])),
    "dullness" := Template("Would you describe your complexion as dull?", Some("select"), Some(["Yes", "No"])),
    "oily" := Template("How oily does your skin get during the day?", Some("select"),
                       Some(["Slightly", "Moderately", "Very"]))
  ]

  /**
   * A question is well formed when its type is one of the three input types and
   * it carries a non-empty option list exactly when its type is "select".
   */
  predicate WellFormed(q: Question) {
    && q.kind in {"text", "number", "select"}
    && (q.kind == "select" <==> q.options.Some? && |q.options.value| > 0)
  }

  /** The question emitted for a tag of the table. */
  function QuestionFor(tag: string): (q: Question)
    requires tag in Mapping
    ensures q.id == tag && q.text == Mapping[tag].text && q.options == Mapping[tag].options
    ensures WellFormed(q)
    ensures tag == "dryness" ==> q.kind == "number" && q.options.None?
    ensures tag != "dryness" ==> q.kind == "select"
  {
    var meta := Mapping[tag];
    Question(tag, meta.text, meta.kind.GetOr(DefaultKind), meta.options)
  }

  /** The questionnaire for `issues`: one question per known tag, in input order. */
  function Generate(issues: seq<string>): (qs: seq<Question>)
    ensures |qs| <= |issues|
    ensures forall k :: 0 <= k < |qs| ==> qs[k].id in Mapping && qs[k].id in issues && qs[k] == QuestionFor(qs[k].id)
  {
    if issues == [] then []
    else
      var last := issues[|issues| - 1];
      Generate(issues[..|issues| - 1]) + (if last in Mapping then [QuestionFor(last)] else [])
  }

  /** Builds the questionnaire the way `generate_followup_questions` does, appending in a loop. */
  method GenerateFollowupQuestions(issues: seq<string>) returns (questions: seq<Question>)
    ensures questions == Generate(issues)
  {
    questions := [];
    for i := 0 to |issues|
      invariant questions == Generate(issues[..i])
    {
      var issue := issues[i];
      assert issues[..i + 1][..i] == issues[..i];
      if issue in Mapping {
        var meta := Mapping[issue];
        questions := questions + [Question(issue, meta.text, meta.kind.GetOr(DefaultKind), meta.options)];
      }
    }
    assert issues[..|issues|] == issues;
  }

  /** Number of occurrences of `t` in `s`. */
  function Count(s: seq<string>, t: string): nat {
    if s == [] then 0 else Count(s[..|s| - 1], t) + (if s[|s| - 1] == t then 1 else 0)
  }

  /** Number of questions in `qs` whose id is `t`. */
  function CountId(qs: seq<Question>, t: string): nat {
    if qs == [] then 0 else CountId(qs[..|qs| - 1], t) + (if qs[|qs| - 1].id == t then 1 else 0)
  }

  /** Number of tags of `s` that the table knows. */
  function KnownCount(s: seq<string>): nat {
    if s == [] then 0 else KnownCount(s[..|s| - 1]) + (if s[|s| - 1] in Mapping then 1 else 0)
  }

  /** The questionnaire of a concatenation is the concatenation of the questionnaires. */
  lemma {:induction false} GenerateAppend(a: seq<string>, b: seq<string>)
    ensures Generate(a + b) == Generate(a) + Generate(b)
    decreases |b|
  {
    if b == [] {
      assert a + b == a;
    } else {
      var b' := b[..|b| - 1];
      assert (a + b)[..|a + b| - 1] == a + b';
      GenerateAppend(a, b');
    }
  }

  /** A single tag yields its question when it is known and nothing otherwise. */
  lemma GenerateSingle(t: string)
    ensures Generate([t]) == if t in Mapping then [QuestionFor(t)] else []
  {
    assert [t][..0] == [];
  }

  /** The questionnaire has exactly one question per known tag of the input. */
  lemma {:induction false} GenerateLength(issues: seq<string>)
    ensures |Generate(issues)| == KnownCount(issues)
  {
    if issues != [] {
      GenerateLength(issues[..|issues| - 1]);
    }
  }

  /**
   * For every tag, the questionnaire holds as many questions with that id as the
   * input holds copies of the tag when the table knows it, and none otherwise.
   */
  lemma {:induction false} GenerateCount(issues: seq<string>, t: string)
    ensures CountId(Generate(issues), t) == if t in Mapping then Count(issues, t) else 0
  {
    if issues != [] {
      var init := issues[..|issues| - 1];
      var last := issues[|issues| - 1];
      GenerateCount(init, t);
      var tail := if last in Mapping then [QuestionFor(last)] else [];
      CountIdAppend(Generate(init), tail, t);
      if last in Mapping {
        assert tail[..0] == [];
      }
    }
  }

  lemma {:induction false} CountIdAppend(a: seq<Question>, b: seq<Question>, t: string)
    ensures CountId(a + b, t) == CountId(a, t) + CountId(b, t)
    decreases |b|
  {
    if b == [] {
      assert a + b == a;
    } else {
      assert (a + b)[..|a + b| - 1] == a + b[..|b| - 1];
      CountIdAppend(a, b[..|b| - 1], t);
    }
  }

  /**
   * Questions follow the input order, not the table order: two known tags at
   * positions i < j give questions at positions k < l.
   */
  lemma GenerateOrder(issues: seq<string>, i: nat, j: nat)
    requires i < j < |issues| && issues[i] in Mapping && issues[j] in Mapping
    ensures exists k, l :: 0 <= k < l < |Generate(issues)|
                           && Generate(issues)[k] == QuestionFor(issues[i])
                           && Generate(issues)[l] == QuestionFor(issues[j])
  {
    var a, b, c := issues[..i], issues[i + 1..j], issues[j + 1..];
    assert issues == a + [issues[i]] + b + [issues[j]] + c;
    GenerateAppend(a + [issues[i]] + b + [issues[j]], c);
    GenerateAppend(a + [issues[i]] + b, [issues[j]]);
    GenerateAppend(a + [issues[i]], b);
    GenerateAppend(a, [issues[i]]);
    GenerateSingle(issues[i]);
    GenerateSingle(issues[j]);
    var qs := Generate(issues);
    var k := |Generate(a)|;
    var l := k + 1 + |Generate(b)|;
    assert qs == Generate(a) + [QuestionFor(issues[i])] + Generate(b) + [QuestionFor(issues[j])] + Generate(c);
    assert qs[k] == QuestionFor(issues[i]);
    assert qs[l] == QuestionFor(issues[j]);
  }

  /** Every question of every questionnaire is well formed. */
  lemma GenerateWellFormed(issues: seq<string>)
    ensures forall q :: q in Generate(issues) ==> WellFormed(q)
  {
  }

  /** When every tag is known, the questionnaire is exactly their questions, position by position. */
  lemma {:induction false} GenerateAllKnown(issues: seq<string>)
    requires forall i :: 0 <= i < |issues| ==> issues[i] in Mapping
    ensures |Generate(issues)| == |issues|
    ensures forall k :: 0 <= k < |issues| ==> Generate(issues)[k] == QuestionFor(issues[k])
  {
    if issues != [] {
      var init := issues[..|issues| - 1];
      var last := issues[|issues| - 1];
      GenerateAllKnown(init);
      assert Generate(issues) == Generate(init) + [QuestionFor(last)];
      forall k | 0 <= k < |issues|
        ensures Generate(issues)[k] == QuestionFor(issues[k])
      {
        if k < |init| {
          assert issues[k] == init[k];
        }
      }
    }
  }

  /** All five known tags, in input order, give five questions in that order. */
  lemma AllFiveTags(issues: seq<string>)
    requires issues == ["dryness", "acne", "redness", "dullness", "oily"]
    ensures var qs := Generate(issues);
      && |qs| == 5
      && qs[0].id == "dryness" && qs[1].id == "acne" && qs[2].id == "redness"
      && qs[3].id == "dullness" && qs[4].id == "oily"
      && qs[1].kind == "select" && qs[1].options == Some(["Occasional", "Frequent", "Severe"])
  {
    GenerateAllKnown(issues);
    assert Generate(issues)[1] == QuestionFor("acne");
  }

}
