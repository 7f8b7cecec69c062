/** Small facts about finite sets of integers. */
module Sets {

  lemma Pick<T>(s: set<T>) returns (x: T)
    requires s != {}
    ensures x in s
  {
    x :| x in s;
  }

  lemma {:induction false} RangeBound(s: set<int>, lo: int, n: nat)
    requires forall x :: x in s ==> lo <= x < lo + n
    ensures |s| <= n
  {
    if n == 0 {
      if s != {} {
        var x := Pick(s);
        assert false;
      }
    } else {
      var rest := s - {lo + n - 1};
      RangeBound(rest, lo, n - 1);
      assert s <= rest + {lo + n - 1};
    }
  }

  lemma LeastElement(s: set<int>) returns (m: int)
    requires s != {}
    ensures m in s && forall x :: x in s ==> m <= x
    decreases |s|
  {
    m := Pick(s);
    var rest := s - {m};
    assert s == rest + {m};
    if rest != {} {
      var m' := LeastElement(rest);
      if m' < m { m := m'; }
    }
  }

  lemma GreatestElement(s: set<int>) returns (m: int)
    requires s != {}
    ensures m in s && forall x :: x in s ==> x <= m
    decreases |s|
  {
    m := Pick(s);
    var rest := s - {m};
    assert s == rest + {m};
    if rest != {} {
      var m' := GreatestElement(rest);
      if m' > m { m := m'; }
    }
  }

  ghost predicate IsMax(m: int, s: set<int>) {
    m in s && forall x :: x in s ==> x <= m
  }

  /** SQL's COALESCE(MAX(..), fallback). */
  ghost function MaxOr(s: set<int>, fallback: int): (m: int)
    ensures s == {} ==> m == fallback
    ensures s != {} ==> IsMax(m, s)
  {
    if s == {} then fallback
    else
      assert exists m :: IsMax(m, s) by { var m := GreatestElement(s); assert IsMax(m, s); }
      var m :| IsMax(m, s); m
  }
}
