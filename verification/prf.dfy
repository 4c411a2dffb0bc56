/**
 * The answer and context metrics of the QA benchmark: token precision,
 * recall and F1 over token sets, filename precision, recall and F1 over
 * retrieved and gold file lists, and the normalisation of a stored
 * comma-separated file list.
 */
module Prf {
  import opened Wrappers
  import opened Text
  import opened Fractions

  datatype Scores = Scores(precision: real, recall: real, f1: real)

  const Perfect := Scores(1.0, 1.0, 1.0)
  const Zero := Scores(0.0, 0.0, 0.0)

  /** `2pr / (p + r)`, and 0.0 when `p + r` is zero. */
  function HarmonicMean(p: real, r: real): (f: real)
    ensures p + r != 0.0 ==> f * (p + r) == 2.0 * p * r
    ensures p + r == 0.0 ==> f == 0.0
  {
    if p + r != 0.0 then 2.0 * p * r / (p + r) else 0.0
  }

  /**
   * For ratios in [0, 1] the harmonic mean is in [0, 1], symmetric, zero
   * iff one ratio is zero, and 1.0 iff both ratios are 1.0.
   */
  lemma HarmonicMeanFacts(p: real, r: real)
    requires 0.0 <= p <= 1.0 && 0.0 <= r <= 1.0
    ensures HarmonicMean(p, r) == HarmonicMean(r, p)
    ensures 0.0 <= HarmonicMean(p, r) <= 1.0
    ensures HarmonicMean(p, r) == 0.0 <==> p == 0.0 || r == 0.0
    ensures HarmonicMean(p, r) == 1.0 <==> p == 1.0 && r == 1.0
  {
    assert r * p == p * r;
    if p + r != 0.0 {
      HarmonicMeanBounds(p, r);
      HarmonicMeanZero(p, r);
      HarmonicMeanOne(p, r);
    }
  }

  /** `2pr <= p + r` for ratios in [0, 1]. */
  lemma ProductBound(p: real, r: real)
    requires 0.0 <= p <= 1.0 && 0.0 <= r <= 1.0
    ensures 0.0 <= p * r && 2.0 * p * r <= p + r
    ensures 2.0 * p * r == p + r ==> p == r && p * (1.0 - p) == 0.0
  {
    NonNegativeProduct(p, 1.0 - r);
    NonNegativeProduct(r, 1.0 - p);
    NonNegativeProduct(p, r);
    assert p * (1.0 - r) == p - p * r;
    assert r * (1.0 - p) == r - p * r;
  }

  lemma HarmonicMeanBounds(p: real, r: real)
    requires 0.0 <= p <= 1.0 && 0.0 <= r <= 1.0 && p + r != 0.0
    ensures 0.0 <= HarmonicMean(p, r) <= 1.0
  {
    ProductBound(p, r);
    var f, s := HarmonicMean(p, r), p + r;
    assert f * s == 2.0 * p * r;
    SignOfQuotient(2.0 * p * r, s);
    UnitFraction(2.0 * p * r, s);
  }

  lemma HarmonicMeanZero(p: real, r: real)
    requires 0.0 <= p <= 1.0 && 0.0 <= r <= 1.0 && p + r != 0.0
    ensures HarmonicMean(p, r) == 0.0 <==> p == 0.0 || r == 0.0
  {
    var f, s := HarmonicMean(p, r), p + r;
    assert f * s == 2.0 * p * r;
    if f == 0.0 {
      ZeroProduct(p, r);
    }
    if p == 0.0 || r == 0.0 {
      assert f * s == 0.0;
      CancelPositive(s, f);
    }
  }

  lemma HarmonicMeanOne(p: real, r: real)
    requires 0.0 <= p <= 1.0 && 0.0 <= r <= 1.0 && p + r != 0.0
    ensures HarmonicMean(p, r) == 1.0 <==> p == 1.0 && r == 1.0
  {
    var f, s := HarmonicMean(p, r), p + r;
    assert f * s == 2.0 * p * r;
    if f == 1.0 {
      ProductBound(p, r);
      assert p > 0.0;
      CancelPositive(p, 1.0 - p);
    }
  }

  // ---------------------------------------------------------------------
  // Answers: token sets

  /** The token ids a tokenizer yields for a text, as a set. */
  function TokenSet(tokens: seq<int>): (ts: set<int>)
    ensures forall t :: t in ts <==> t in tokens
  {
    set i | 0 <= i < |tokens| :: tokens[i]
  }

  /**
   * `token_f1` on the prediction's and the ground truth's token sets:
   * (1, 1, 1) when both are empty, (0, 0, 0) when exactly one is.
   */
  function TokenF1(pred: set<int>, gold: set<int>): (s: Scores)
    ensures |pred| == 0 && |gold| == 0 ==> s == Perfect
    ensures (|pred| == 0) != (|gold| == 0) ==> s == Zero
    ensures |pred| > 0 && |gold| > 0 ==>
      && s.precision * (|pred| as real) == |pred * gold| as real
      && s.recall * (|gold| as real) == |pred * gold| as real
  {
    if |pred| == 0 && |gold| == 0 then Perfect
    else if |pred| == 0 || |gold| == 0 then Zero
    else
      var tp := |pred * gold| as real;
      var p := tp / (|pred| as real);
      var r := tp / (|gold| as real);
      Scores(p, r, HarmonicMean(p, r))
  }

  /** `|a ∩ b|` is at most `|a|`. */
  lemma IntersectionBound(a: set<int>, b: set<int>)
    ensures |a * b| <= |a| && |a * b| <= |b|
  {
    assert |a| == |a - b| + |a * b|;
    assert |b| == |b - a| + |a * b|;
  }

  /** Every token score lies in [0, 1]; F1 is the harmonic mean of the other two. */
  lemma TokenF1Bounds(pred: set<int>, gold: set<int>)
    ensures var s := TokenF1(pred, gold);
      && 0.0 <= s.precision <= 1.0 && 0.0 <= s.recall <= 1.0 && 0.0 <= s.f1 <= 1.0
      && s.f1 == HarmonicMean(s.precision, s.recall)
  {
    if |pred| > 0 && |gold| > 0 {
      IntersectionBound(pred, gold);
      var tp := |pred * gold| as real;
      UnitFraction(tp, |pred| as real);
      UnitFraction(tp, |gold| as real);
      var s := TokenF1(pred, gold);
      HarmonicMeanFacts(s.precision, s.recall);
    }
  }

  /** Swapping prediction and ground truth swaps precision and recall and keeps F1. */
  lemma TokenF1Swap(pred: set<int>, gold: set<int>)
    ensures var s, t := TokenF1(pred, gold), TokenF1(gold, pred);
      t == Scores(s.recall, s.precision, s.f1)
  {
    assert pred * gold == gold * pred;
    TokenF1Bounds(pred, gold);
    var s := TokenF1(pred, gold);
    HarmonicMeanFacts(s.precision, s.recall);
  }

  /** F1 is 1.0 exactly when the two token sets are equal. */
  lemma TokenF1Perfect(pred: set<int>, gold: set<int>)
    ensures TokenF1(pred, gold).f1 == 1.0 <==> pred == gold
  {
    TokenF1Bounds(pred, gold);
    if |pred| > 0 && |gold| > 0 {
      var s := TokenF1(pred, gold);
      HarmonicMeanFacts(s.precision, s.recall);
      assert |pred| == |pred - gold| + |pred * gold|;
      assert |gold| == |gold - pred| + |pred * gold|;
      if s.f1 == 1.0 {
        assert |pred * gold| == |pred| && |pred * gold| == |gold|;
        assert pred - gold == {} && gold - pred == {};
        assert pred == gold by {
          forall x | x in pred ensures x in gold { assert x !in pred - gold; }
          forall x | x in gold ensures x in pred { assert x !in gold - pred; }
        }
      }
      if pred == gold {
        assert pred * gold == pred;
      }
    } else if |pred| != |gold| {
      assert pred != gold;
    } else {
      assert pred == {} && gold == {};
    }
  }

  // ---------------------------------------------------------------------
  // Context: file lists

  /** How many entries of `xs`, counted with multiplicity, occur in `ys`. */
  function Occurring(xs: seq<string>, ys: seq<string>): (n: nat)
    ensures n <= |xs|
    decreases |xs|
  {
    if xs == [] then 0 else (if xs[0] in ys then 1 else 0) + Occurring(xs[1..], ys)
  }

  /** `n / d` as a real, and 0.0 for an empty denominator. */
  function Rate(n: nat, d: nat): (q: real)
    ensures d > 0 ==> q * (d as real) == n as real
    ensures d == 0 ==> q == 0.0
  {
    if d == 0 then 0.0 else n as real / d as real
  }

  /**
   * `calculate_filename_score_improved` as written: `matched` counts the
   * expected entries found among the retrieved ones, and divides both
   * precision and recall. The weights and the similarity score it also
   * computes never reach the result.
   */
  function FilenameScore(actual: seq<string>, expected: seq<string>): (s: Scores)
    ensures |expected| == 0 ==> s == Perfect
    ensures |expected| > 0 ==>
      && s.precision == Rate(Occurring(expected, actual), |actual|)
      && s.recall == Rate(Occurring(expected, actual), |expected|)
      && s.f1 == HarmonicMean(s.precision, s.recall)
  {
    if |expected| == 0 then Perfect
    else
      var matched := Occurring(expected, actual);
      RateScores(matched, |actual|, matched, |expected|)
  }

  /** Precision `pn / pd`, recall `rn / rd` and their harmonic mean. */
  function RateScores(pn: nat, pd: nat, rn: nat, rd: nat): (s: Scores)
    ensures pd == 0 ==> s.precision == 0.0
    ensures pd > 0 ==> s.precision * (pd as real) == pn as real
    ensures rd == 0 ==> s.recall == 0.0
    ensures rd > 0 ==> s.recall * (rd as real) == rn as real
    ensures s.f1 == HarmonicMean(s.precision, s.recall)
  {
    var p := Rate(pn, pd);
    var r := Rate(rn, rd);
    Scores(p, r, HarmonicMean(p, r))
  }

  /** Recall never exceeds 1, and an empty retrieval scores zero precision and F1. */
  lemma FilenameScoreRecall(actual: seq<string>, expected: seq<string>)
    requires |expected| > 0
    ensures 0.0 <= FilenameScore(actual, expected).recall <= 1.0
    ensures |actual| == 0 ==> FilenameScore(actual, expected) == Zero
  {
    UnitFraction(Occurring(expected, actual) as real, |expected| as real);
    if |actual| == 0 {
      assert Occurring(expected, actual) == 0 by { NothingOccursInEmpty(expected); }
    }
  }

  lemma {:induction false} NothingOccursInEmpty(xs: seq<string>)
    ensures Occurring(xs, []) == 0
    decreases |xs|
  {
    if xs != [] {
      NothingOccursInEmpty(xs[1..]);
    }
  }

  /** A gold list repeating a file it shares with the retrieval lifts precision above 1. */
  lemma FilenamePrecisionAboveOne()
    ensures FilenameScore(["a"], ["a", "a"]).precision == 2.0
  {
    assert Occurring(["a", "a"], ["a"]) == 2 by {
      assert ["a", "a"][1..] == ["a"];
      assert ["a"][1..] == [];
    }
  }

  /**
   * The filename score with precision counting the RETRIEVED entries found
   * in the gold list, so that it is the share of the retrieval that is
   * relevant; recall is as before.
   */
  function FilenameScoreCorrected(actual: seq<string>, expected: seq<string>): (s: Scores)
    ensures |expected| == 0 ==> s == Perfect
    ensures |expected| > 0 ==>
      && s.precision == Rate(Occurring(actual, expected), |actual|)
      && s.recall == Rate(Occurring(expected, actual), |expected|)
      && s.f1 == HarmonicMean(s.precision, s.recall)
  {
    if |expected| == 0 then Perfect
    else RateScores(Occurring(actual, expected), |actual|, Occurring(expected, actual), |expected|)
  }

  /** Every corrected score lies in [0, 1]. */
  lemma FilenameScoreCorrectedBounds(actual: seq<string>, expected: seq<string>)
    ensures var s := FilenameScoreCorrected(actual, expected);
      0.0 <= s.precision <= 1.0 && 0.0 <= s.recall <= 1.0 && 0.0 <= s.f1 <= 1.0
  {
    if |expected| > 0 {
      FilenameScoreRecall(actual, expected);
      if |actual| > 0 {
        UnitFraction(Occurring(actual, expected) as real, |actual| as real);
      }
      var s := FilenameScoreCorrected(actual, expected);
      HarmonicMeanFacts(s.precision, s.recall);
    }
  }

  function Elems(xs: seq<string>): set<string> {
    set x | x in xs
  }

  /** For a list without repeats, the count of entries found in `ys` is the size of the overlap. */
  lemma {:induction false} OccurringIsOverlap(xs: seq<string>, ys: seq<string>)
    requires Distinct(xs)
    ensures Occurring(xs, ys) == |Elems(xs) * Elems(ys)|
    decreases |xs|
  {
    if xs == [] {
      assert Elems(xs) == {};
    } else {
      DistinctCons(xs);
      OccurringIsOverlap(xs[1..], ys);
      OverlapCons(xs[0], Elems(xs[1..]), Elems(ys));
    }
  }

  /** A repeat-free list is its head, absent from the rest, and a repeat-free rest. */
  lemma DistinctCons(xs: seq<string>)
    requires Distinct(xs) && xs != []
    ensures Distinct(xs[1..]) && xs[0] !in Elems(xs[1..])
    ensures Elems(xs) == {xs[0]} + Elems(xs[1..])
  {
    var rest := xs[1..];
    forall k | 0 <= k < |rest| ensures rest[k] != xs[0] {
      assert rest[k] == xs[k + 1];
    }
    assert xs == [xs[0]] + rest;
  }

  /** Adding a new element to a set adds one to its overlap with `b` exactly when `b` holds it. */
  lemma OverlapCons(x: string, a: set<string>, b: set<string>)
    requires x !in a
    ensures |({x} + a) * b| == (if x in b then 1 else 0) + |a * b|
  {
    if x in b {
      assert ({x} + a) * b == {x} + a * b;
    } else {
      assert ({x} + a) * b == a * b;
    }
  }

  /** On lists without repeats the two definitions agree. */
  lemma FilenameScoresAgree(actual: seq<string>, expected: seq<string>)
    requires Distinct(actual) && Distinct(expected)
    ensures FilenameScore(actual, expected) == FilenameScoreCorrected(actual, expected)
  {
    OccurringIsOverlap(actual, expected);
    OccurringIsOverlap(expected, actual);
    assert Elems(actual) * Elems(expected) == Elems(expected) * Elems(actual);
  }

  // ---------------------------------------------------------------------
  // Stored file lists

  /** No entry contains a comma. */
  predicate CommaFree(xs: seq<string>) {
    forall i :: 0 <= i < |xs| ==> ',' !in xs[i]
  }

  /** Strip every piece and keep the non-empty results, in order. */
  function StripNonEmpty(pieces: seq<string>): (xs: seq<string>)
    ensures |xs| <= |pieces|
    ensures forall i :: 0 <= i < |xs| ==> xs[i] != [] && Stripped(xs[i])
    ensures CommaFree(pieces) ==> CommaFree(xs)
  {
    if pieces == [] then []
    else
      var t := Strip(pieces[0]);
      var rest := StripNonEmpty(pieces[1..]);
      assert CommaFree(pieces) ==> CommaFree(pieces[1..]) && ',' !in t;
      if t != [] then [t] + rest else rest
  }

  /** Entries already non-empty and stripped pass through unchanged. */
  lemma {:induction false} StripNonEmptyKeeps(xs: seq<string>)
    requires forall i :: 0 <= i < |xs| ==> xs[i] != [] && Stripped(xs[i])
    ensures StripNonEmpty(xs) == xs
  {
    if xs != [] {
      StripNonEmptyKeeps(xs[1..]);
      assert [xs[0]] + xs[1..] == xs;
    }
  }

  /**
   * The list normalisation of `prf_eval`: a missing value reads as the
   * empty string, which is split on commas, each piece stripped, empty
   * pieces dropped.
   */
  function NormaliseList(stored: Option<string>): (xs: seq<string>)
    ensures forall i :: 0 <= i < |xs| ==> xs[i] != [] && Stripped(xs[i])
    ensures CommaFree(xs)
    ensures stored.None? ==> xs == []
  {
    StripNonEmpty(Split(stored.GetOr(""), ','))
  }
}
