/**
 * The keyword emotion classifier of backend/services/emotionAnalyzer.js. Each keyword
 * contributes its number of non-overlapping left-to-right matches times its category's weight;
 * the weights 1, 1 and 0.5 are doubled to 2, 2 and 1 so every score is a natural number, which
 * changes no comparison between scores.
 */
module EmotionAnalysis {
  import opened Strings

  datatype Emotion = Positive | Negative | Neutral

  const PositiveKeywords: seq<string> := [
    "嬉しい", "楽しい", "好き", "可愛い", "素敵", "最高", "良い", "面白い", "素晴らしい",
    "愛してる", "大好き", "幸せ", "\U{266A}", "\U{2661}", "\U{1F495}", "\U{1F60A}", "\U{1F970}",
    "\U{263A}\U{FE0F}"]
  const NegativeKeywords: seq<string> := [
    "悲しい", "辛い", "嫌い", "怒り", "腹立つ", "最悪", "ダメ", "むかつく", "疲れた", "落ち込む",
    "\U{1F622}", "\U{1F62D}", "\U{1F620}", "\U{1F4A2}"]
  const NeutralKeywords: seq<string> := ["普通", "まあまあ", "そうですね", "なるほど", "そうなんですね"]

  /** The weights, doubled. */
  const PositiveWeight: nat := 2
  const NegativeWeight: nat := 2
  const NeutralWeight: nat := 1

  predicate NonEmptyWords(kws: seq<string>)
  {
    forall i :: 0 <= i < |kws| ==> kws[i] != []
  }

  lemma DictionariesNonEmpty()
    ensures NonEmptyWords(PositiveKeywords) && NonEmptyWords(NegativeKeywords) && NonEmptyWords(NeutralKeywords)
  {
  }

  /** `(text.match(new RegExp(kw, 'g')) || []).length`: matches found left to right, each resuming after the previous one. */
  function Occurrences(text: string, kw: string): nat
    requires kw != []
    decreases |text|
  {
    if |text| < |kw| then 0
    else if IsPrefix(kw, text) then 1 + Occurrences(text[|kw|..], kw)
    else Occurrences(text[1..], kw)
  }

  lemma {:induction false} ContainsFits(s: string, sub: string)
    requires Contains(s, sub)
    ensures |sub| <= |s|
    decreases |s|
  {
    if !IsPrefix(sub, s) {
      ContainsFits(s[1..], sub);
    }
  }

  /** A keyword is counted at least once exactly when the text contains it, so `match` is non-null iff it occurs. */
  lemma {:induction false} OccurrencesPositiveIff(text: string, kw: string)
    requires kw != []
    ensures Occurrences(text, kw) > 0 <==> Contains(text, kw)
    decreases |text|
  {
    if |text| < |kw| {
      if Contains(text, kw) {
        ContainsFits(text, kw);
      }
    } else if !IsPrefix(kw, text) {
      OccurrencesPositiveIff(text[1..], kw);
    }
  }

  /** The counted matches do not overlap: together they fit in the text. */
  lemma {:induction false} OccurrencesFit(text: string, kw: string)
    requires kw != []
    ensures Occurrences(text, kw) * |kw| <= |text|
    decreases |text|
  {
    if |text| >= |kw| {
      if IsPrefix(kw, text) {
        OccurrencesFit(text[|kw|..], kw);
      } else {
        OccurrencesFit(text[1..], kw);
      }
    }
  }

  /** 好き inside 大好き is counted on its own as well: 大好き scores for both keywords. */
  lemma OverlappingKeywordsBothCount()
    ensures Occurrences("大好き", "好き") == 1
    ensures Occurrences("大好き", "大好き") == 1
  {
    var t := "大好き";
    assert !IsPrefix("好き", t) by { assert t[0] != "好き"[0]; }
    assert t[1..] == "好き";
    assert IsPrefix("好き", t[1..]);
    assert IsPrefix("大好き", t);
  }

  /** A category's score: the sum over its keywords of occurrences times weight. */
  function Score(text: string, kws: seq<string>, weight: nat): nat
    requires NonEmptyWords(kws)
  {
    if kws == [] then 0
    else Score(text, kws[..|kws| - 1], weight) + weight * Occurrences(text, kws[|kws| - 1])
  }

  /** A score is zero exactly when no keyword of the category occurs (for a positive weight). */
  lemma {:induction false} ScoreZeroIff(text: string, kws: seq<string>, weight: nat)
    requires NonEmptyWords(kws) && weight > 0
    ensures Score(text, kws, weight) == 0 <==> forall i :: 0 <= i < |kws| ==> !Contains(text, kws[i])
  {
    if kws != [] {
      var front := kws[..|kws| - 1];
      ScoreZeroIff(text, front, weight);
      OccurrencesPositiveIff(text, kws[|kws| - 1]);
      if Score(text, kws, weight) == 0 {
        forall i | 0 <= i < |kws| ensures !Contains(text, kws[i]) {
          if i < |kws| - 1 {
            assert kws[i] == front[i];
          }
        }
      } else if Score(text, front, weight) > 0 {
        var i :| 0 <= i < |front| && Contains(text, front[i]);
        assert kws[i] == front[i];
      }
    }
  }

  /** The final argmax with ties resolved positive, then negative, then neutral. */
  function Decide(positive: nat, negative: nat, neutral: nat): (e: Emotion)
    ensures positive == 0 && negative == 0 && neutral == 0 ==> e == Neutral
    ensures e == Positive <==> positive > 0 && positive >= negative && positive >= neutral
    ensures e == Negative <==> negative > 0 && negative > positive && negative >= neutral
    ensures e == Neutral <==> (positive == 0 && negative == 0 && neutral == 0) || (neutral > positive && neutral > negative)
  {
    var maxScore := if positive >= negative && positive >= neutral then positive
                    else if negative >= neutral then negative else neutral;
    if maxScore == 0 then Neutral
    else if positive == maxScore then Positive
    else if negative == maxScore then Negative
    else Neutral
  }

  /** What `analyze` returns for a text. */
  function Classify(text: string): Emotion
  {
    DictionariesNonEmpty();
    Decide(Score(text, PositiveKeywords, PositiveWeight), Score(text, NegativeKeywords, NegativeWeight),
           Score(text, NeutralKeywords, NeutralWeight))
  }

  /** A text with no keyword at all is neutral. */
  lemma NoKeywordIsNeutral(text: string)
    requires forall i :: 0 <= i < |PositiveKeywords| ==> !Contains(text, PositiveKeywords[i])
    requires forall i :: 0 <= i < |NegativeKeywords| ==> !Contains(text, NegativeKeywords[i])
    requires forall i :: 0 <= i < |NeutralKeywords| ==> !Contains(text, NeutralKeywords[i])
    ensures Classify(text) == Neutral
  {
    DictionariesNonEmpty();
    ScoreZeroIff(text, PositiveKeywords, PositiveWeight);
    ScoreZeroIff(text, NegativeKeywords, NegativeWeight);
    ScoreZeroIff(text, NeutralKeywords, NeutralWeight);
  }

  /** One `foundKeywords` record. */
  datatype Found = Found(keyword: string, kind: Emotion, count: nat)

  /** The records one category contributes: its matching keywords in dictionary order. */
  function FoundIn(text: string, kws: seq<string>, kind: Emotion): (r: seq<Found>)
    requires NonEmptyWords(kws)
  {
    if kws == [] then []
    else
      var kw := kws[|kws| - 1];
      var n := Occurrences(text, kw);
      FoundIn(text, kws[..|kws| - 1], kind) + (if n > 0 then [Found(kw, kind, n)] else [])
  }

  /** Every record names a keyword of the category that occurs, with its true count and the category's type. */
  lemma {:induction false} FoundInSound(text: string, kws: seq<string>, kind: Emotion)
    requires NonEmptyWords(kws)
    ensures forall f :: f in FoundIn(text, kws, kind) ==>
              f.keyword in kws && f.kind == kind && f.count > 0 && f.count == Occurrences(text, f.keyword)
  {
    if kws != [] {
      FoundInSound(text, kws[..|kws| - 1], kind);
    }
  }

  /** Every keyword of the category that the text contains has a record. */
  lemma {:induction false} FoundInComplete(text: string, kws: seq<string>, kind: Emotion)
    requires NonEmptyWords(kws)
    ensures forall i :: 0 <= i < |kws| && Contains(text, kws[i]) ==>
              Found(kws[i], kind, Occurrences(text, kws[i])) in FoundIn(text, kws, kind)
  {
    if kws != [] {
      var front := kws[..|kws| - 1];
      FoundInComplete(text, front, kind);
      OccurrencesPositiveIff(text, kws[|kws| - 1]);
      forall i | 0 <= i < |kws| && Contains(text, kws[i])
        ensures Found(kws[i], kind, Occurrences(text, kws[i])) in FoundIn(text, kws, kind)
      {
        if i < |kws| - 1 {
          assert kws[i] == front[i];
        }
      }
    }
  }

  function WeightedTotal(found: seq<Found>, weight: nat): nat
  {
    if found == [] then 0 else WeightedTotal(found[..|found| - 1], weight) + weight * found[|found| - 1].count
  }

  lemma {:induction false} WeightedTotalAppend(a: seq<Found>, b: seq<Found>, weight: nat)
    ensures WeightedTotal(a + b, weight) == WeightedTotal(a, weight) + WeightedTotal(b, weight)
    decreases |b|
  {
    if b == [] {
      assert a + b == a;
    } else {
      WeightedTotalAppend(a, b[..|b| - 1], weight);
      assert (a + b)[..|a + b| - 1] == a + b[..|b| - 1];
    }
  }

  /** A category's score is the weighted total of the counts its records report. */
  lemma {:induction false} ScoreIsFoundTotal(text: string, kws: seq<string>, kind: Emotion, weight: nat)
    requires NonEmptyWords(kws)
    ensures Score(text, kws, weight) == WeightedTotal(FoundIn(text, kws, kind), weight)
  {
    if kws != [] {
      var front := kws[..|kws| - 1];
      ScoreIsFoundTotal(text, front, kind, weight);
      var n := Occurrences(text, kws[|kws| - 1]);
      WeightedTotalAppend(FoundIn(text, front, kind), if n > 0 then [Found(kws[|kws| - 1], kind, n)] else [], weight);
    }
  }

  /** The result of getDetailedAnalysis. */
  datatype Analysis = Analysis(emotion: Emotion, positive: nat, negative: nat, neutral: nat, found: seq<Found>)

  /** One category loop of `analyze`. */
  method AccumulateScore(text: string, kws: seq<string>, weight: nat) returns (score: nat)
    requires NonEmptyWords(kws)
    ensures score == Score(text, kws, weight)
  {
    score := 0;
    for i := 0 to |kws|
      invariant score == Score(text, kws[..i], weight)
    {
      assert kws[..i + 1][..i] == kws[..i];
      var count := Occurrences(text, kws[i]);
      score := score + count * weight;
    }
    assert kws[..|kws|] == kws;
  }

  /** `analyze`. */
  method Analyze(text: string) returns (e: Emotion)
    ensures e == Classify(text)
  {
    DictionariesNonEmpty();
    var positiveScore := AccumulateScore(text, PositiveKeywords, PositiveWeight);
    var negativeScore := AccumulateScore(text, NegativeKeywords, NegativeWeight);
    var neutralScore := AccumulateScore(text, NeutralKeywords, NeutralWeight);
    var maxScore := if positiveScore >= negativeScore && positiveScore >= neutralScore then positiveScore
                    else if negativeScore >= neutralScore then negativeScore else neutralScore;
    if maxScore == 0 {
      return Neutral;
    }
    if positiveScore == maxScore {
      e := Positive;
    } else if negativeScore == maxScore {
      e := Negative;
    } else {
      e := Neutral;
    }
  }

  /** One category loop of getDetailedAnalysis: adds the score and pushes a record per matching keyword. */
  method AccumulateFound(text: string, kws: seq<string>, kind: Emotion, weight: nat, found: seq<Found>)
    returns (score: nat, found': seq<Found>)
    requires NonEmptyWords(kws)
    ensures score == Score(text, kws, weight)
    ensures found' == found + FoundIn(text, kws, kind)
  {
    score, found' := 0, found;
    for i := 0 to |kws|
      invariant score == Score(text, kws[..i], weight)
      invariant found' == found + FoundIn(text, kws[..i], kind)
    {
      assert kws[..i + 1][..i] == kws[..i];
      var count := Occurrences(text, kws[i]);
      if count > 0 {
        score := score + count * weight;
        found' := found' + [Found(kws[i], kind, count)];
      }
    }
    assert kws[..|kws|] == kws;
  }

  /** getDetailedAnalysis: the three scores, the records in dictionary order, and `analyze`'s emotion. */
  method GetDetailedAnalysis(text: string) returns (a: Analysis)
    ensures a.emotion == Classify(text)
    ensures a.emotion == Decide(a.positive, a.negative, a.neutral)
    ensures a.positive == Score(text, PositiveKeywords, PositiveWeight)
    ensures a.negative == Score(text, NegativeKeywords, NegativeWeight)
    ensures a.neutral == Score(text, NeutralKeywords, NeutralWeight)
    ensures a.found == FoundIn(text, PositiveKeywords, Positive) + FoundIn(text, NegativeKeywords, Negative)
                       + FoundIn(text, NeutralKeywords, Neutral)
  {
    DictionariesNonEmpty();
    var found: seq<Found> := [];
    var positiveScore, negativeScore, neutralScore;
    positiveScore, found := AccumulateFound(text, PositiveKeywords, Positive, PositiveWeight, found);
    negativeScore, found := AccumulateFound(text, NegativeKeywords, Negative, NegativeWeight, found);
    neutralScore, found := AccumulateFound(text, NeutralKeywords, Neutral, NeutralWeight, found);
    var emotion := Analyze(text);
    a := Analysis(emotion, positiveScore, negativeScore, neutralScore, found);
  }
}
