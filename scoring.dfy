/** The daily colour classification of app.py: the mean of the answer choices,
    bucketed by the closed lower thresholds 4.5, 3.5, 2.5 and 1.5. The mean is
    never formed: `mean >= t / 2` is decided exactly as `2 * sum >= t * n`. */
module Scoring {
  import opened Models

  /** Sum of the answer choices, left to right. */
  function ChoiceSum(answers: seq<AnswerData>): int
  {
    if answers == [] then 0 else answers[0].answerChoice + ChoiceSum(answers[1..])
  }

  /** Colour class of the mean `sum / n` of `n > 0` answers. */
  function Bucket(sum: int, n: nat): (c: int)
    requires n > 0
    ensures 1 <= c <= 5
  {
    if 2 * sum >= 9 * n then 5
    else if 2 * sum >= 7 * n then 4
    else if 2 * sum >= 5 * n then 3
    else if 2 * sum >= 3 * n then 2
    else 1
  }

  /** generate_color_id_from_answers: neutral 3 without answers, else the bucket of the mean. */
  function ColorFromAnswers(answers: seq<AnswerData>): (c: int)
    ensures 1 <= c <= 5
    ensures answers == [] ==> c == 3
  {
    if answers == [] then 3 else Bucket(ChoiceSum(answers), |answers|)
  }

  /** The thresholds are closed below: the class reaches `c` exactly when the mean
      is at least `c - 1/2`. Together with the bound 1..5 this determines Bucket. */
  lemma BucketThresholds(sum: int, n: nat, c: int)
    requires n > 0 && 2 <= c <= 5
    ensures Bucket(sum, n) >= c <==> 2 * sum >= (2 * c - 1) * n
  {
    if c == 2 {
    } else if c == 3 {
    } else if c == 4 {
    } else {
    }
  }

  /** A larger sum never gives a lower class. */
  lemma BucketMonotone(s: int, t: int, n: nat)
    requires n > 0 && s <= t
    ensures Bucket(s, n) <= Bucket(t, n)
  {
  }

  lemma ColorExamples()
    ensures ColorFromAnswers([]) == 3
    ensures ColorFromAnswers([AnswerData(1, 5), AnswerData(2, 4)]) == 5
    ensures ColorFromAnswers([AnswerData(1, 3), AnswerData(2, 2)]) == 3
    ensures ColorFromAnswers([AnswerData(1, 1), AnswerData(2, 2)]) == 2
    ensures ColorFromAnswers([AnswerData(1, 1), AnswerData(2, 1)]) == 1
    ensures ColorFromAnswers([AnswerData(1, 5), AnswerData(2, 5), AnswerData(3, 5)]) == 5
  {
    assert ChoiceSum([AnswerData(2, 4)]) == 4;
    assert ChoiceSum([AnswerData(2, 2)]) == 2;
    assert ChoiceSum([AnswerData(2, 1)]) == 1;
    assert ChoiceSum([AnswerData(3, 5)]) == 5;
    assert ChoiceSum([AnswerData(2, 5), AnswerData(3, 5)]) == 10;
  }

  lemma {:induction false} ChoiceSumAppend(a: seq<AnswerData>, b: seq<AnswerData>)
    ensures ChoiceSum(a + b) == ChoiceSum(a) + ChoiceSum(b)
  {
    if a == [] {
      assert a + b == b;
    } else {
      assert (a + b)[1..] == a[1..] + b;
      ChoiceSumAppend(a[1..], b);
    }
  }

  /** Removing the answer at `i` takes exactly its choice off the sum. */
  lemma {:induction false} ChoiceSumRemove(a: seq<AnswerData>, i: nat)
    requires i < |a|
    ensures ChoiceSum(a) == a[i].answerChoice + ChoiceSum(a[..i] + a[i + 1..])
  {
    var pre, post := a[..i], a[i + 1..];
    var tail := [a[i]] + post;
    assert a == pre + tail;
    assert tail[1..] == post;
    assert ChoiceSum(tail) == a[i].answerChoice + ChoiceSum(post);
    ChoiceSumAppend(pre, tail);
    ChoiceSumAppend(pre, post);
  }

  /** Taking out the element at `i` takes one copy of it out of the multiset. */
  lemma MultisetRemove(b: seq<AnswerData>, i: nat)
    requires i < |b|
    ensures multiset(b[..i] + b[i + 1..]) == multiset(b) - multiset{b[i]}
  {
    assert b == b[..i] + [b[i]] + b[i + 1..];
    assert multiset(b) == multiset(b[..i]) + multiset{b[i]} + multiset(b[i + 1..]);
  }

  /** The sum depends only on the multiset of answers. */
  lemma {:induction false} ChoiceSumPermutation(a: seq<AnswerData>, b: seq<AnswerData>)
    requires multiset(a) == multiset(b)
    ensures ChoiceSum(a) == ChoiceSum(b)
  {
    if a == [] {
      assert |b| == |multiset(b)| == 0;
    } else {
      assert a[0] in multiset(b);
      var i :| 0 <= i < |b| && b[i] == a[0];
      MultisetRemove(b, i);
      MultisetRemove(a, 0);
      assert a[..0] + a[1..] == a[1..];
      ChoiceSumPermutation(a[1..], b[..i] + b[i + 1..]);
      ChoiceSumRemove(b, i);
    }
  }

  /** Reordering the answers never changes the colour. */
  lemma ColorPermutationInvariant(a: seq<AnswerData>, b: seq<AnswerData>)
    requires multiset(a) == multiset(b)
    ensures ColorFromAnswers(a) == ColorFromAnswers(b)
  {
    assert |a| == |multiset(a)| == |multiset(b)| == |b|;
    ChoiceSumPermutation(a, b);
  }

  lemma {:induction false} ChoiceSumConstant(a: seq<AnswerData>, c: int)
    requires forall i :: 0 <= i < |a| ==> a[i].answerChoice == c
    ensures ChoiceSum(a) == c * |a|
  {
    if a != [] {
      ChoiceSumConstant(a[1..], c);
    }
  }

  /** When every answer chooses the same class value `c`, the colour is `c`. */
  lemma ColorOfUniformAnswers(a: seq<AnswerData>, c: int)
    requires a != [] && 1 <= c <= 5
    requires forall i :: 0 <= i < |a| ==> a[i].answerChoice == c
    ensures ColorFromAnswers(a) == c
  {
    ChoiceSumConstant(a, c);
    var n := |a|;
    if c == 1 {
      assert 2 * ChoiceSum(a) == 2 * n;
    } else if c == 2 {
      assert 2 * ChoiceSum(a) == 4 * n;
    } else if c == 3 {
      assert 2 * ChoiceSum(a) == 6 * n;
    } else if c == 4 {
      assert 2 * ChoiceSum(a) == 8 * n;
    } else {
      assert 2 * ChoiceSum(a) == 10 * n;
    }
  }

  lemma ChoiceSumUpdate(a: seq<AnswerData>, i: nat, x: AnswerData)
    requires i < |a|
    ensures ChoiceSum(a[i := x]) == ChoiceSum(a) - a[i].answerChoice + x.answerChoice
  {
    ChoiceSumRemove(a, i);
    ChoiceSumRemove(a[i := x], i);
    assert a[i := x][..i] == a[..i];
    assert a[i := x][i + 1..] == a[i + 1..];
  }

  /** Raising one answer's choice never lowers the colour. */
  lemma ColorMonotone(a: seq<AnswerData>, i: nat, x: AnswerData)
    requires i < |a| && a[i].answerChoice <= x.answerChoice
    ensures ColorFromAnswers(a) <= ColorFromAnswers(a[i := x])
  {
    ChoiceSumUpdate(a, i, x);
    BucketMonotone(ChoiceSum(a), ChoiceSum(a[i := x]), |a|);
  }
}
