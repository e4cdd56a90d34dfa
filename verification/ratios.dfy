/** Exact loss values. The program computes a loss as the float
    (lost / total) * 100; here it is kept as the pair (lost, total) and
    compared by cross-multiplication, with `Percent` giving its value. */
module Ratios {

  datatype Ratio = Ratio(lost: nat, total: nat)

  /** A share of a non-empty window: at most all of it lost. */
  predicate WellFormed(r: Ratio)
  {
    r.total > 0 && r.lost <= r.total
  }

  /** A loss value: a share of a non-empty window. */
  type Loss = r: Ratio | WellFormed(r) witness Ratio(0, 1)

  /** The loss the process starts with (0.0). */
  const Zero: Loss := Ratio(0, 1)

  /** The loss as a percentage. */
  function Percent(r: Loss): (p: real)
    ensures 0.0 <= p <= 100.0
    ensures p == 0.0 <==> r.lost == 0
    ensures p == 100.0 <==> r.lost == r.total
  {
    var c := r.lost as real;
    var n := r.total as real;
    assert c / n <= 1.0 by {
      assert c <= n;
    }
    assert c == n ==> c / n == 1.0;
    assert c / n == 1.0 ==> c == n by {
      if c / n == 1.0 {
        assert c == (c / n) * n;
      }
    }
    (c / n) * 100.0
  }

  /** `a` is a smaller loss than `b`. */
  predicate Less(a: Ratio, b: Ratio)
  {
    a.lost * b.total < b.lost * a.total
  }

  /** `a` and `b` are the same loss (2/4 and 1/2 are). */
  predicate Same(a: Ratio, b: Ratio)
  {
    a.lost * b.total == b.lost * a.total
  }

  /** Two ratios scaled by 100 compare like their cross products. */
  lemma RatioOrder(ca: real, na: real, cb: real, nb: real)
    requires na > 0.0 && nb > 0.0
    ensures (ca / na) * 100.0 < (cb / nb) * 100.0 <==> ca * nb < cb * na
    ensures (ca / na) * 100.0 == (cb / nb) * 100.0 <==> ca * nb == cb * na
  {
  }

  /** The integer comparisons agree with the percentages they stand for. */
  lemma PercentOrder(a: Loss, b: Loss)
    ensures Less(a, b) <==> Percent(a) < Percent(b)
    ensures Same(a, b) <==> Percent(a) == Percent(b)
  {
    RatioOrder(a.lost as real, a.total as real, b.lost as real, b.total as real);
  }
}
