/** `completionProgress` of `ExerciseSetDetailViewModel`: the share of
    completed exercises of a set, in percent. Computed over `real` rather
    than IEEE doubles. */
module Progress {
  import opened Domain

  /** `exercises.count { it.isCompleted }`. */
  function CountCompleted(xs: seq<Exercise>): (n: nat)
    ensures n <= |xs|
    decreases |xs|
  {
    if |xs| == 0 then 0
    else CountCompleted(xs[..|xs| - 1]) + (if xs[|xs| - 1].isCompleted then 1 else 0)
  }

  /** The count is 0 exactly when nothing is completed, and the whole
      length exactly when everything is. */
  lemma {:induction false} CountExtremes(xs: seq<Exercise>)
    ensures CountCompleted(xs) == 0 <==> forall i :: 0 <= i < |xs| ==> !xs[i].isCompleted
    ensures CountCompleted(xs) == |xs| <==> forall i :: 0 <= i < |xs| ==> xs[i].isCompleted
    decreases |xs|
  {
    if |xs| > 0 {
      var n := |xs| - 1;
      CountExtremes(xs[..n]);
      assert forall i :: 0 <= i < n ==> xs[..n][i] == xs[i];
    }
  }

  /** The progress value: 0 for an empty list, else the completed share
      times 100. */
  function CompletionProgress(xs: seq<Exercise>): (p: real)
    ensures 0.0 <= p <= 100.0
    ensures p == 0.0 <==> |xs| == 0 || forall i :: 0 <= i < |xs| ==> !xs[i].isCompleted
    ensures p == 100.0 <==> |xs| > 0 && forall i :: 0 <= i < |xs| ==> xs[i].isCompleted
    ensures |xs| > 0 ==> p * (|xs| as real) == 100.0 * (CountCompleted(xs) as real)
  {
    if |xs| == 0 then 0.0
    else
      CountExtremes(xs);
      Percentage(CountCompleted(xs), |xs|);
      (CountCompleted(xs) as real / |xs| as real) * 100.0
  }

  /** `c.toDouble() / n * 100` over the reals, for `0 <= c <= n`, `n > 0`. */
  lemma Percentage(c: nat, n: nat)
    requires 0 < n && c <= n
    ensures var p := (c as real / n as real) * 100.0;
            && p * (n as real) == 100.0 * (c as real)
            && 0.0 <= p <= 100.0
            && (p == 0.0 <==> c == 0)
            && (p == 100.0 <==> c == n)
  {
    var q := c as real / n as real;
    var p := q * 100.0;
    assert q * (n as real) == c as real;
    assert p * (n as real) == 100.0 * (c as real) by {
      assert p * (n as real) == (q * (n as real)) * 100.0;
    }
    assert 0.0 <= q;
  }

  /** The value the progress holds before any list is loaded: that of the
      initial empty list. */
  const InitialProgress: real := 0.0

  lemma InitialProgressIsEmptyProgress()
    ensures CompletionProgress([]) == InitialProgress
  {
  }

  /** The count of a concatenation is the sum of the counts. */
  lemma {:induction false} CountAppend(a: seq<Exercise>, b: seq<Exercise>)
    ensures CountCompleted(a + b) == CountCompleted(a) + CountCompleted(b)
    decreases |b|
  {
    if |b| == 0 {
      assert a + b == a;
    } else {
      var m := |b| - 1;
      assert (a + b)[..|a| + m] == a + b[..m];
      assert (a + b)[|a| + m] == b[m];
      CountAppend(a, b[..m]);
    }
  }

  /** Completing one exercise that was not completed adds one to the count. */
  lemma CompleteOneCount(xs: seq<Exercise>, i: nat)
    requires i < |xs| && !xs[i].isCompleted
    ensures CountCompleted(xs[i := xs[i].(isCompleted := true)]) == CountCompleted(xs) + 1
  {
    var ys := xs[i := xs[i].(isCompleted := true)];
    var front, back := xs[..i], xs[i + 1..];
    assert xs == front + [xs[i]] + back;
    assert ys == front + [ys[i]] + back;
    CountAppend(front + [xs[i]], back);
    CountAppend(front, [xs[i]]);
    CountAppend(front + [ys[i]], back);
    CountAppend(front, [ys[i]]);
    assert CountCompleted([ys[i]]) == 1 && CountCompleted([xs[i]]) == 0 by {
      assert [ys[i]][..0] == [] && [xs[i]][..0] == [];
    }
  }

  /** ... and so adds one list element's share, 100 / size, to the progress. */
  lemma CompleteOneRaisesProgress(xs: seq<Exercise>, i: nat)
    requires i < |xs| && !xs[i].isCompleted
    ensures CompletionProgress(xs[i := xs[i].(isCompleted := true)]) == CompletionProgress(xs) + 100.0 / (|xs| as real)
  {
    CompleteOneCount(xs, i);
    ShareStep(CountCompleted(xs) as real, |xs| as real);
  }

  lemma ShareStep(c: real, len: real)
    requires len > 0.0
    ensures ((c + 1.0) / len) * 100.0 == (c / len) * 100.0 + 100.0 / len
  {
    assert (c + 1.0) / len == c / len + 1.0 / len;
    assert 100.0 / len == (1.0 / len) * 100.0;
  }

  /** Two of three completed gives 200/3 percent, 66.67 within 0.01. */
  lemma TwoOfThree(xs: seq<Exercise>)
    requires |xs| == 3 && xs[0].isCompleted && !xs[1].isCompleted && xs[2].isCompleted
    ensures CompletionProgress(xs) == 200.0 / 3.0
    ensures 66.66 <= CompletionProgress(xs) <= 66.68
  {
    assert xs[..1][..0] == [];
    assert CountCompleted(xs[..1]) == 1;
    assert xs[..2][..1] == xs[..1];
    assert CountCompleted(xs[..2]) == 1;
    assert CountCompleted(xs) == 2;
  }
}
