/** Search scores extended with the two infinities the search uses as its
    initial bounds, with the order, max/min and clamping used to state what
    alpha-beta pruning preserves. */
module ExtScores {

  datatype ExtInt = NegInf | Fin(n: int) | PosInf

  predicate Le(a: ExtInt, b: ExtInt)
  {
    a.NegInf? || b.PosInf? || (a.Fin? && b.Fin? && a.n <= b.n)
  }

  predicate Lt(a: ExtInt, b: ExtInt)
  {
    !Le(b, a)
  }

  function Max(a: ExtInt, b: ExtInt): (r: ExtInt)
    ensures Le(a, r) && Le(b, r)
    ensures r == a || r == b
  {
    if Le(a, b) then b else a
  }

  function Min(a: ExtInt, b: ExtInt): (r: ExtInt)
    ensures Le(r, a) && Le(r, b)
    ensures r == a || r == b
  {
    if Le(a, b) then a else b
  }

  /** `x` forced into the window [lo, hi]. */
  function Clamp(x: ExtInt, lo: ExtInt, hi: ExtInt): ExtInt
  {
    Min(Max(x, lo), hi)
  }

  lemma LeTotal(a: ExtInt, b: ExtInt)
    ensures Le(a, b) || Le(b, a)
    ensures Le(a, b) && Le(b, a) ==> a == b
  {
  }

  lemma LeTrans(a: ExtInt, b: ExtInt, c: ExtInt)
    requires Le(a, b) && Le(b, c)
    ensures Le(a, c)
  {
  }

  /** With infinite bounds, clamping changes nothing. */
  lemma ClampFullWindow(x: ExtInt)
    ensures Clamp(x, NegInf, PosInf) == x
  {
  }

  /** Clamping is monotone, so it commutes with max and min. */
  lemma ClampMax(x: ExtInt, y: ExtInt, lo: ExtInt, hi: ExtInt)
    ensures Clamp(Max(x, y), lo, hi) == Max(Clamp(x, lo, hi), Clamp(y, lo, hi))
  {
  }

  lemma ClampMin(x: ExtInt, y: ExtInt, lo: ExtInt, hi: ExtInt)
    ensures Clamp(Min(x, y), lo, hi) == Min(Clamp(x, lo, hi), Clamp(y, lo, hi))
  {
  }

  lemma MaxAssoc(a: ExtInt, b: ExtInt, c: ExtInt)
    ensures Max(Max(a, b), c) == Max(a, Max(b, c))
  {
  }

  lemma MinAssoc(a: ExtInt, b: ExtInt, c: ExtInt)
    ensures Min(Min(a, b), c) == Min(a, Min(b, c))
  {
  }

  /** Two values at or above `lo2` that agree when clamped to [lo2, hi] also
      agree when clamped to a wider window [lo1, hi] with lo1 <= lo2. */
  lemma ClampWidenLow(x: ExtInt, y: ExtInt, lo1: ExtInt, lo2: ExtInt, hi: ExtInt)
    requires Le(lo1, lo2) && Le(lo2, x) && Le(lo2, y)
    requires Clamp(x, lo2, hi) == Clamp(y, lo2, hi)
    ensures Clamp(x, lo1, hi) == Clamp(y, lo1, hi)
  {
  }

  /** Symmetrically for values at or below `hi2` and a window widened upwards. */
  lemma ClampWidenHigh(x: ExtInt, y: ExtInt, lo: ExtInt, hi1: ExtInt, hi2: ExtInt)
    requires Le(hi2, hi1) && Le(x, hi2) && Le(y, hi2)
    requires Clamp(x, lo, hi2) == Clamp(y, lo, hi2)
    ensures Clamp(x, lo, hi1) == Clamp(y, lo, hi1)
  {
  }

  /** Inside a non-empty window, a value clamps to the upper bound exactly
      when it reaches it, and to the lower bound exactly when it does not
      exceed it. */
  lemma ClampAtBounds(x: ExtInt, lo: ExtInt, hi: ExtInt)
    requires Lt(lo, hi)
    ensures Clamp(x, lo, hi) == hi <==> Le(hi, x)
    ensures Clamp(x, lo, hi) == lo <==> Le(x, lo)
  {
  }
  /** When a maximizing loop does not stop after a child scoring `s`, the
      raised window is still non-empty and the running best stays inside it. */
  lemma MaxLoopContinues(alpha: ExtInt, beta: ExtInt, best: ExtInt, s: ExtInt)
    requires Lt(alpha, beta) && Le(best, alpha) && !best.PosInf? && s.Fin?
    ensures !Max(best, s).PosInf?
    ensures !Le(beta, Max(alpha, s)) ==> Lt(Max(alpha, s), beta) && Le(Max(best, s), Max(alpha, s))
  {
  }

  lemma MinLoopContinues(alpha: ExtInt, beta: ExtInt, best: ExtInt, s: ExtInt)
    requires Lt(alpha, beta) && Le(beta, best) && !best.NegInf? && s.Fin?
    ensures !Min(best, s).NegInf?
    ensures !Le(Min(beta, s), alpha) ==> Lt(alpha, Min(beta, s)) && Le(Min(beta, s), Min(best, s))
  {
  }

  /** One step of a maximizing alpha-beta loop. The child searched with the
      window (alpha, beta) returned `s`; its true value is `t`; `rest` is the
      true maximum of the remaining children and `r` what the loop returns.
      If the loop stops (beta <= max(alpha, s)) it returns max(best, s);
      otherwise the rest of the loop is sound for the raised window. Either
      way the loop is sound for (alpha, beta). */
  lemma MaxLoopStep(alpha: ExtInt, beta: ExtInt, best: ExtInt, s: ExtInt, t: ExtInt, rest: ExtInt, r: ExtInt)
    requires Lt(alpha, beta) && Le(best, alpha)
    requires Clamp(s, alpha, beta) == Clamp(t, alpha, beta)
    requires Le(beta, Max(alpha, s)) ==> r == Max(best, s)
    requires !Le(beta, Max(alpha, s)) ==>
      Le(Max(best, s), r) && Clamp(r, Max(alpha, s), beta) == Clamp(Max(Max(best, s), rest), Max(alpha, s), beta)
    ensures Clamp(r, alpha, beta) == Clamp(Max(best, Max(t, rest)), alpha, beta)
  {
    var best' := Max(best, s);
    var alpha' := Max(alpha, s);
    ClampMax(best, Max(t, rest), alpha, beta);
    ClampMax(t, rest, alpha, beta);
    ClampMax(best', rest, alpha, beta);
    ClampMax(best, s, alpha, beta);
    MaxAssoc(Clamp(best, alpha, beta), Clamp(s, alpha, beta), Clamp(rest, alpha, beta));
    assert Clamp(Max(best, Max(t, rest)), alpha, beta) == Clamp(Max(best', rest), alpha, beta);
    if Le(beta, alpha') {
      ClampAtBounds(s, alpha, beta);
      ClampAtBounds(t, alpha, beta);
      ClampAtBounds(best', alpha, beta);
      ClampAtBounds(Max(best, Max(t, rest)), alpha, beta);
    } else if Lt(alpha, s) {
      LeTrans(alpha', best', r);
      ClampWidenLow(r, Max(best', rest), alpha, alpha', beta);
    }
  }

  /** The mirror image of `MaxLoopStep` for a minimizing loop. */
  lemma MinLoopStep(alpha: ExtInt, beta: ExtInt, best: ExtInt, s: ExtInt, t: ExtInt, rest: ExtInt, r: ExtInt)
    requires Lt(alpha, beta) && Le(beta, best)
    requires Clamp(s, alpha, beta) == Clamp(t, alpha, beta)
    requires Le(Min(beta, s), alpha) ==> r == Min(best, s)
    requires !Le(Min(beta, s), alpha) ==>
      Le(r, Min(best, s)) && Clamp(r, alpha, Min(beta, s)) == Clamp(Min(Min(best, s), rest), alpha, Min(beta, s))
    ensures Clamp(r, alpha, beta) == Clamp(Min(best, Min(t, rest)), alpha, beta)
  {
    var best' := Min(best, s);
    var beta' := Min(beta, s);
    ClampMin(best, Min(t, rest), alpha, beta);
    ClampMin(t, rest, alpha, beta);
    ClampMin(best', rest, alpha, beta);
    ClampMin(best, s, alpha, beta);
    MinAssoc(Clamp(best, alpha, beta), Clamp(s, alpha, beta), Clamp(rest, alpha, beta));
    assert Clamp(Min(best, Min(t, rest)), alpha, beta) == Clamp(Min(best', rest), alpha, beta);
    if Le(beta', alpha) {
      ClampAtBounds(s, alpha, beta);
      ClampAtBounds(t, alpha, beta);
      ClampAtBounds(best', alpha, beta);
      ClampAtBounds(Min(best, Min(t, rest)), alpha, beta);
    } else if Lt(s, beta) {
      LeTrans(r, best', beta');
      ClampWidenHigh(r, Min(best', rest), alpha, beta, beta');
    }
  }
}
