/** The glob matcher (src/invalidation/PatternMatcher.ts): greedy, with one backtracking point. */
module PatternMatcher {

  /** What a pattern means: `*` stands for any characters, `?` for any one character. */
  predicate Matches(pattern: string, value: string)
    decreases |pattern| + |value|
  {
    if pattern == [] then value == []
    else if pattern[0] == '*' then
      Matches(pattern[1..], value) || (value != [] && Matches(pattern, value[1..]))
    else
      value != [] && (pattern[0] == '?' || pattern[0] == value[0]) && Matches(pattern[1..], value[1..])
  }

  /** The same, for the rest of the pattern from `p` and the rest of the value from `v`. */
  ghost predicate At(pattern: string, value: string, p: nat, v: nat)
    requires p <= |pattern| && v <= |value|
    decreases |pattern| - p + |value| - v
  {
    if p == |pattern| then v == |value|
    else if pattern[p] == '*' then
      At(pattern, value, p + 1, v) || (v < |value| && At(pattern, value, p, v + 1))
    else
      v < |value| && Fits(pattern[p], value[v]) && At(pattern, value, p + 1, v + 1)
  }

  predicate Fits(patternChar: char, valueChar: char) {
    patternChar == '?' || patternChar == valueChar
  }

  lemma {:induction false} AtIsMatches(pattern: string, value: string, p: nat, v: nat)
    requires p <= |pattern| && v <= |value|
    ensures At(pattern, value, p, v) == Matches(pattern[p..], value[v..])
    decreases |pattern| - p + |value| - v
  {
    if p < |pattern| {
      assert pattern[p..][1..] == pattern[p+1..];
      if v < |value| {
        assert value[v..][1..] == value[v+1..];
        AtIsMatches(pattern, value, p + 1, v + 1);
        AtIsMatches(pattern, value, p, v + 1);
      }
      AtIsMatches(pattern, value, p + 1, v);
    }
  }

  /** A star absorbs whatever precedes a match. */
  lemma {:induction false} StarAbsorbs(pattern: string, value: string, p: nat, v: nat, w: nat)
    requires p < |pattern| && pattern[p] == '*' && v <= w <= |value|
    requires At(pattern, value, p, w)
    ensures At(pattern, value, p, v)
    decreases w - v
  {
    if v < w {
      StarAbsorbs(pattern, value, p, v + 1, w);
    }
  }

  /** A match at a star is a match of what follows the star, from some later position. */
  lemma {:induction false} StarChooses(pattern: string, value: string, p: nat, v: nat) returns (w: nat)
    requires p < |pattern| && pattern[p] == '*' && v <= |value|
    requires At(pattern, value, p, v)
    ensures v <= w <= |value| && At(pattern, value, p + 1, w)
    decreases |value| - v
  {
    if At(pattern, value, p + 1, v) {
      w := v;
    } else {
      w := StarChooses(pattern, value, p, v + 1);
    }
  }

  /** `pattern[s..p]` has no star. */
  ghost predicate Literal(pattern: string, s: nat, p: nat) {
    forall i :: s <= i < p && i < |pattern| ==> pattern[i] != '*'
  }

  /** `pattern[s..p]` fits `value` character by character from `b`. */
  ghost predicate Aligned(pattern: string, value: string, s: nat, p: nat, b: nat) {
    && s <= p <= |pattern| && b + (p - s) <= |value|
    && forall i :: s <= i < p ==> Fits(pattern[i], value[b + (i - s)])
  }

  /** A star-free stretch of pattern matches in exactly one way. */
  lemma {:induction false} LiteralMatch(pattern: string, value: string, s: nat, p: nat, b: nat)
    requires s <= p <= |pattern| && b <= |value| && Literal(pattern, s, p)
    ensures At(pattern, value, s, b) <==>
            Aligned(pattern, value, s, p, b) && At(pattern, value, p, b + (p - s))
    decreases p - s
  {
    if s < p {
      if b < |value| {
        LiteralMatch(pattern, value, s + 1, p, b + 1);
        if Aligned(pattern, value, s, p, b) {
          assert Fits(pattern[s], value[b + (s - s)]);
        }
      }
    }
  }

  /** Committing to a later star loses no match: greedy backtracking to the last star is complete. */
  lemma LaterStarIsEnough(pattern: string, value: string, s: nat, b: nat, p: nat, v: nat)
    requires s < p < |pattern| && pattern[s] == '*' && pattern[p] == '*' && Literal(pattern, s + 1, p)
    requires Aligned(pattern, value, s + 1, p, b) && v == b + (p - s - 1)
    ensures At(pattern, value, s, b) <==> At(pattern, value, p, v)
  {
    LiteralMatch(pattern, value, s + 1, p, b);
    if At(pattern, value, s, b) {
      var w := StarChooses(pattern, value, s, b);
      LiteralMatch(pattern, value, s + 1, p, w);
      StarAbsorbs(pattern, value, p, v, w + (p - s - 1));
    }
  }

  /** At a mismatch, the star before it must take one more character. */
  lemma MismatchMovesStar(pattern: string, value: string, s: nat, b: nat, p: nat, v: nat)
    requires s < p <= |pattern| && pattern[s] == '*' && Literal(pattern, s + 1, p)
    requires Aligned(pattern, value, s + 1, p, b) && v == b + (p - s - 1) < |value|
    requires p < |pattern| ==> pattern[p] != '*' && !Fits(pattern[p], value[v])
    ensures At(pattern, value, s, b) <==> At(pattern, value, s, b + 1)
  {
    LiteralMatch(pattern, value, s + 1, p, b);
  }

  /** With the value used up, the last alignment is the only one left. */
  lemma EndOfValue(pattern: string, value: string, s: nat, b: nat, p: nat)
    requires s < p <= |pattern| && pattern[s] == '*' && Literal(pattern, s + 1, p)
    requires Aligned(pattern, value, s + 1, p, b) && |value| == b + (p - s - 1)
    ensures At(pattern, value, s, b) <==> At(pattern, value, p, |value|)
  {
    LiteralMatch(pattern, value, s + 1, p, b);
    if At(pattern, value, s, b) {
      var w := StarChooses(pattern, value, s, b);
      LiteralMatch(pattern, value, s + 1, p, w);
    }
  }

  /** The first star at or after `i`, or the end of the pattern. */
  ghost function NextStar(pattern: string, i: nat): (n: nat)
    requires i <= |pattern|
    ensures i <= n <= |pattern| && Literal(pattern, i, n)
    ensures n < |pattern| ==> pattern[n] == '*'
    decreases |pattern| - i
  {
    if i == |pattern| || pattern[i] == '*' then i else NextStar(pattern, i + 1)
  }

  lemma {:induction false} NextStarIsUnique(pattern: string, i: nat, p: nat)
    requires i <= p < |pattern| && Literal(pattern, i, p) && pattern[p] == '*'
    ensures NextStar(pattern, i) == p
    decreases p - i
  {
    if i < p {
      NextStarIsUnique(pattern, i + 1, p);
    }
  }

  /** A bound on the iterations so far.  Before the last star every (pattern, value) position was visited at
      most once; since then each of the `b - b0` completed attempts took at most `next - s` iterations. */
  ghost function Budget(s: int, b: int, b0: int, next: int, p: int, n: int): int {
    (s + 1) * n + (b - b0) * (next - s) + (p - s - 1)
  }

  lemma BudgetAtStar(s: int, b: int, b0: int, p: int, next: int, n: int)
    requires -1 <= s < p && 0 <= b0 <= b < n
    ensures Budget(s, b, b0, p, p, n) + 1 <= Budget(p, b, b, next, p + 1, n)
  {
    assert (b - b0) * (p - s) + (p - s) == (b - b0 + 1) * (p - s);
    assert (b - b0 + 1) * (p - s) <= n * (p - s) by {
      MulMonotone(b - b0 + 1, n, p - s);
    }
    assert (s + 1) * n + n * (p - s) == (p + 1) * n;
  }

  lemma MulMonotone(a: int, b: int, c: int)
    requires a <= b && 0 <= c
    ensures a * c <= b * c
  {
  }

  lemma BudgetAtMismatch(s: int, b: int, b0: int, next: int, p: int, n: int)
    requires p <= next
    ensures Budget(s, b, b0, next, p, n) + 1 <= Budget(s, b + 1, b0, next, s + 1, n)
  {
    assert (b + 1 - b0) * (next - s) == (b - b0) * (next - s) + (next - s);
  }

  lemma BudgetIsBounded(s: int, b: int, b0: int, next: int, p: int, m: int, n: int)
    requires -1 <= s < p <= next <= m && 0 <= b0 <= b <= n
    requires b == n ==> p == s + 1
    ensures Budget(s, b, b0, next, p, n) <= (m + 1) * n
  {
    if b == n {
      MulMonotone(b - b0, n, next - s);
    } else {
      assert (b - b0) * (next - s) + (p - s - 1) <= (b - b0 + 1) * (next - s);
      MulMonotone(b - b0 + 1, n, next - s);
    }
    assert (s + 1) * n + n * (next - s) == (next + 1) * n;
    MulMonotone(next + 1, m + 1, n);
  }

  /** What the main loop knows: the last star (or -1), the position it backtracks to, and that the pattern
      between the star and `p` is aligned with the value between `b` and `v`. */
  ghost predicate Searching(pattern: string, value: string, s: int, b: nat, p: nat, v: nat) {
    && -1 <= s < p <= |pattern|
    && b <= v <= |value| && v == b + (p - s - 1)
    && Literal(pattern, s + 1, p)
    && Aligned(pattern, value, s + 1, p, b)
    && (s == -1 ==> b == 0)
    && (s >= 0 ==> pattern[s] == '*')
    && Matches(pattern, value) == At(pattern, value, if s == -1 then 0 else s, b)
  }

  ghost function Spent(pattern: string, s: int, b: nat, b0: nat, p: nat, n: nat): int
    requires -1 <= s < |pattern|
  {
    Budget(s, b, b0, NextStar(pattern, s + 1), p, n)
  }

  lemma AtStar(pattern: string, value: string, s: int, b: nat, p: nat, v: nat)
    requires Searching(pattern, value, s, b, p, v) && p < |pattern| && pattern[p] == '*'
    ensures Searching(pattern, value, p, v, p + 1, v)
  {
    if s == -1 {
      LiteralMatch(pattern, value, 0, p, 0);
    } else {
      LaterStarIsEnough(pattern, value, s, b, p, v);
    }
  }

  lemma AtStarSpent(pattern: string, value: string, s: int, b: nat, b0: nat, p: nat, v: nat)
    requires Searching(pattern, value, s, b, p, v) && p < |pattern| && pattern[p] == '*'
    requires b0 <= b && v < |value|
    ensures Spent(pattern, s, b, b0, p, |value|) + 1 <= Spent(pattern, p, v, v, p + 1, |value|)
  {
    NextStarIsUnique(pattern, s + 1, p);
    BudgetAtStar(s, b, b0, p, NextStar(pattern, p + 1), |value|);
  }

  lemma AtFit(pattern: string, value: string, s: int, b: nat, b0: nat, p: nat, v: nat)
    requires Searching(pattern, value, s, b, p, v) && p < |pattern| && v < |value|
    requires pattern[p] != '*' && Fits(pattern[p], value[v])
    ensures Searching(pattern, value, s, b, p + 1, v + 1)
    ensures Spent(pattern, s, b, b0, p, |value|) + 1 <= Spent(pattern, s, b, b0, p + 1, |value|)
  {
  }

  /** A mismatch with no star to go back to: the value does not match, after one more iteration. */
  lemma AtDeadEnd(pattern: string, value: string, b: nat, b0: nat, p: nat, v: nat)
    requires Searching(pattern, value, -1, b, p, v) && v < |value| && b0 <= b
    requires p < |pattern| ==> pattern[p] != '*' && !Fits(pattern[p], value[v])
    ensures !Matches(pattern, value)
    ensures Spent(pattern, -1, b, b0, p, |value|) + 1 <= (|pattern| + 1) * |value|
  {
    LiteralMatch(pattern, value, 0, p, 0);
    MulMonotone(1, |value|, |pattern| + 1);
  }

  lemma AtMismatch(pattern: string, value: string, s: int, b: nat, b0: nat, p: nat, v: nat)
    requires Searching(pattern, value, s, b, p, v) && s >= 0 && v < |value| && b0 <= b
    requires p < |pattern| ==> pattern[p] != '*' && !Fits(pattern[p], value[v])
    ensures Searching(pattern, value, s, b + 1, s + 1, b + 1)
    ensures Spent(pattern, s, b, b0, p, |value|) + 1 <= Spent(pattern, s, b + 1, b0, s + 1, |value|)
  {
    MismatchMovesStar(pattern, value, s, b, p, v);
    LiteralReachesNextStar(pattern, s + 1, p);
    BudgetAtMismatch(s, b, b0, NextStar(pattern, s + 1), p, |value|);
  }

  lemma {:induction false} LiteralReachesNextStar(pattern: string, i: nat, p: nat)
    requires i <= p <= |pattern| && Literal(pattern, i, p)
    ensures p <= NextStar(pattern, i)
    decreases p - i
  {
    if i < p {
      LiteralReachesNextStar(pattern, i + 1, p);
    }
  }

  lemma AtEnd(pattern: string, value: string, s: int, b: nat, p: nat, v: nat)
    requires Searching(pattern, value, s, b, p, v) && v == |value|
    ensures Matches(pattern, value) == At(pattern, value, p, |value|)
  {
    if s == -1 {
      LiteralMatch(pattern, value, 0, p, 0);
    } else {
      EndOfValue(pattern, value, s, b, p);
    }
  }

  lemma SpentIsBounded(pattern: string, value: string, s: int, b: nat, b0: nat, p: nat, v: nat)
    requires Searching(pattern, value, s, b, p, v) && b0 <= b
    ensures Spent(pattern, s, b, b0, p, |value|) <= (|pattern| + 1) * |value|
  {
    LiteralReachesNextStar(pattern, s + 1, p);
    BudgetIsBounded(s, b, b0, NextStar(pattern, s + 1), p, |pattern|, |value|);
  }

  /** The iterations of the main loop from a state on: the number of steps it takes until the value is used up or
      there is no star to go back to. */
  function Steps(pattern: string, value: string, s: int, b: nat, p: nat, v: nat): nat
    requires -1 <= s < p <= |pattern| && b <= v <= |value|
    decreases |pattern| - s, |value| - b, |value| - v
  {
    if v == |value| then 0
    else if p < |pattern| && pattern[p] == '*' then 1 + Steps(pattern, value, p, v, p + 1, v)
    else if p < |pattern| && Fits(pattern[p], value[v]) then 1 + Steps(pattern, value, s, b, p + 1, v + 1)
    else if s != -1 then 1 + Steps(pattern, value, s, b + 1, s + 1, b + 1)
    else 1
  }

  /** From every state of the search, what was spent so far and the steps still to come are within the bound. */
  lemma {:induction false} StepsAreBounded(pattern: string, value: string, s: int, b: nat, b0: nat, p: nat, v: nat)
    requires Searching(pattern, value, s, b, p, v) && b0 <= b
    ensures Spent(pattern, s, b, b0, p, |value|) + Steps(pattern, value, s, b, p, v) <= (|pattern| + 1) * |value|
    decreases |pattern| - s, |value| - b, |value| - v
  {
    if v == |value| {
      SpentIsBounded(pattern, value, s, b, b0, p, v);
    } else if p < |pattern| && pattern[p] == '*' {
      AtStar(pattern, value, s, b, p, v);
      AtStarSpent(pattern, value, s, b, b0, p, v);
      StepsAreBounded(pattern, value, p, v, v, p + 1, v);
    } else if p < |pattern| && Fits(pattern[p], value[v]) {
      AtFit(pattern, value, s, b, b0, p, v);
      StepsAreBounded(pattern, value, s, b, b0, p + 1, v + 1);
    } else if s != -1 {
      AtMismatch(pattern, value, s, b, b0, p, v);
      StepsAreBounded(pattern, value, s, b + 1, b0, s + 1, b + 1);
    } else {
      AtDeadEnd(pattern, value, b, b0, p, v);
    }
  }

  // ---- the bound is reached, up to a factor of two ----

  function Letters(n: nat): string {
    seq(n, _ => 'a')
  }

  function Worst(m: nat): string {
    "*" + Letters(m) + "b"
  }

  /** One attempt: the letters left fit, and then the `b` does not. */
  lemma {:induction false} OneAttempt(m: nat, n: nat, b: nat, i: nat)
    requires i <= m && b + m <= n
    ensures Steps(Worst(m), Letters(n), 0, b, 1 + i, b + i) ==
            if b + m == n then m - i else m - i + 1 + Steps(Worst(m), Letters(n), 0, b + 1, 1, b + 1)
    decreases m - i
  {
    if i == m {
    } else {
      OneAttempt(m, n, b, i + 1);
    }
  }

  lemma {:induction false} AllAttempts(m: nat, n: nat, b: nat)
    requires b + m <= n
    ensures Steps(Worst(m), Letters(n), 0, b, 1, b) == (n - m - b) * (m + 1) + m
    decreases n - b
  {
    OneAttempt(m, n, b, 0);
    if b + m < n {
      AllAttempts(m, n, b + 1);
      assert (n - m - b) * (m + 1) == (n - m - (b + 1)) * (m + 1) + (m + 1);
    }
  }

  /** The exact number of iterations for a star, `m` letters and a `b` on `n` letters. */
  lemma WorstTakes(m: nat, n: nat)
    requires m <= n && n > 0
    ensures Steps(Worst(m), Letters(n), -1, 0, 0, 0) == 1 + (n - m) * (m + 1) + m
  {
    AllAttempts(m, n, 0);
  }

  /** The loop is not linear: on these inputs of every size it makes more than half as many iterations as the
      product of the two lengths. */
  lemma LoopIsQuadratic(m: nat)
    requires m > 0
    ensures 2 * Steps(Worst(m), Letters(2 * m), -1, 0, 0, 0) > |Worst(m)| * |Letters(2 * m)|
  {
    WorstTakes(m, 2 * m);
    assert 2 * (1 + m * (m + 1) + m) == (m + 2) * (2 * m) + 2;
  }

  /** True exactly when the pattern matches, after exactly as many iterations of the main loop as the steps of the
      search, at most (|pattern| + 1) * |value|. */
  method MatchLinear(pattern: string, value: string) returns (matched: bool, ghost iterations: nat)
    ensures matched == Matches(pattern, value)
    ensures iterations == Steps(pattern, value, -1, 0, 0, 0)
    ensures iterations <= (|pattern| + 1) * |value|
  {
    var patternIndex := 0;
    var valueIndex := 0;
    var starIndex := -1;
    var backtrackValueIndex := 0;
    iterations := 0;
    AtIsMatches(pattern, value, 0, 0);
    StepsAreBounded(pattern, value, -1, 0, 0, 0, 0);
    while valueIndex < |value|
      invariant Searching(pattern, value, starIndex, backtrackValueIndex, patternIndex, valueIndex)
      invariant iterations + Steps(pattern, value, starIndex, backtrackValueIndex, patternIndex, valueIndex)
                == Steps(pattern, value, -1, 0, 0, 0)
      decreases |pattern| - starIndex, |value| - backtrackValueIndex, |value| - valueIndex
    {
      if patternIndex < |pattern| && pattern[patternIndex] == '*' {
        AtStar(pattern, value, starIndex, backtrackValueIndex, patternIndex, valueIndex);
        starIndex := patternIndex;
        patternIndex := patternIndex + 1;
        backtrackValueIndex := valueIndex;
        iterations := iterations + 1;
        continue;
      }

      if patternIndex < |pattern| && Fits(pattern[patternIndex], value[valueIndex]) {
        AtFit(pattern, value, starIndex, backtrackValueIndex, 0, patternIndex, valueIndex);
        patternIndex := patternIndex + 1;
        valueIndex := valueIndex + 1;
        iterations := iterations + 1;
        continue;
      }

      if starIndex != -1 {
        AtMismatch(pattern, value, starIndex, backtrackValueIndex, 0, patternIndex, valueIndex);
        patternIndex := starIndex + 1;
        backtrackValueIndex := backtrackValueIndex + 1;
        valueIndex := backtrackValueIndex;
        iterations := iterations + 1;
        continue;
      }

      AtDeadEnd(pattern, value, backtrackValueIndex, 0, patternIndex, valueIndex);
      return false, iterations + 1;
    }
    AtEnd(pattern, value, starIndex, backtrackValueIndex, patternIndex, valueIndex);

    matched := OnlyStarsLeft(pattern, value, patternIndex);
  }

  /** The loop over trailing stars. */
  method OnlyStarsLeft(pattern: string, ghost value: string, start: nat) returns (matched: bool)
    requires start <= |pattern|
    ensures matched == At(pattern, value, start, |value|)
  {
    var patternIndex := start;
    while patternIndex < |pattern| && pattern[patternIndex] == '*'
      invariant start <= patternIndex <= |pattern|
      invariant At(pattern, value, start, |value|) == At(pattern, value, patternIndex, |value|)
    {
      patternIndex := patternIndex + 1;
    }
    return patternIndex == |pattern|;
  }
}
