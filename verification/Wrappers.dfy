/** Absent values and refusals, and a few facts about finite sets, for every component. */
module Wrappers {
  datatype Option<+T> = None | Some(value: T)

  datatype Result<+T, +E> = Ok(value: T) | Err(error: E)

  ghost predicate NoRepeats<T>(xs: seq<T>) {
    forall i, j | 0 <= i < j < |xs| :: xs[i] != xs[j]
  }

  /** The first of an ordered set. */
  method LeastOf(s: set<nat>) returns (least: nat)
    requires s != {}
    ensures least in s && forall a | a in s :: least <= a
  {
    least :| least in s;
    var todo := s - {least};
    while todo != {}
      invariant todo <= s && least in s
      invariant forall a | a in s && a !in todo :: least <= a
      decreases todo
    {
      var a :| a in todo;
      todo := todo - {a};
      if a < least {
        least := a;
      }
    }
  }

  lemma {:induction false} SameSizeSubset<T>(small: set<T>, large: set<T>)
    requires small <= large && |small| == |large|
    ensures small == large
  {
    if x :| x in large && x !in small {
      assert small <= large - {x};
      SmallerSubset(small, large - {x});
    }
  }

  lemma {:induction false} SmallerSubset<T>(small: set<T>, large: set<T>)
    requires small <= large
    ensures |small| <= |large|
  {
    if small != {} {
      var x :| x in small;
      SmallerSubset(small - {x}, large - {x});
    }
  }
}
