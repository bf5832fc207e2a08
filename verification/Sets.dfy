/** Finite sets of numbers. */
module Sets {

  /** A set of numbers that all lie in a range of length n has at most n elements. */
  lemma {:induction false} NarrowSet(s: set<nat>, lo: nat, n: nat)
    requires forall i :: i in s ==> lo <= i < lo + n
    ensures |s| <= n
  {
    if n == 0 {
      assert s == {};
    } else {
      NarrowSet(s - {lo + n - 1}, lo, n - 1);
    }
  }

  /** The numbers of a range of length n are n. */
  lemma {:induction false} RangeSize(s: set<nat>, lo: nat, n: nat)
    requires forall i: nat :: i in s <==> lo <= i < lo + n
    ensures |s| == n
  {
    if n == 0 {
      assert s == {};
    } else {
      assert lo + n - 1 in s;
      RangeSize(s - {lo + n - 1}, lo, n - 1);
    }
  }

  lemma Least(s: set<nat>) returns (least: nat)
    requires s != {}
    ensures least in s && forall i :: i in s ==> least <= i
  {
    least :| least in s;
    var rest := s - {least};
    assert s == rest + {least};
    if rest != {} {
      var l := Least(rest);
      if l < least {
        least := l;
      }
    }
  }
}
