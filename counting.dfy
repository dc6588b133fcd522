/** Counting the DOM keys of a pulse map that satisfy a classification test. */
module Counting {
  import opened Frames

  /** The keys that pass `test`. */
  ghost function Where(keys: set<OMKey>, test: OMKey -> bool): set<OMKey>
  {
    set d | d in keys && test(d)
  }

  /** Visiting one more key adds one to a count exactly when the key passes. */
  lemma WhereStep(done: set<OMKey>, test: OMKey -> bool, x: OMKey)
    requires x !in done
    ensures |Where(done + {x}, test)| == |Where(done, test)| + (if test(x) then 1 else 0)
  {
    if test(x) {
      assert Where(done + {x}, test) == Where(done, test) + {x};
    } else {
      assert Where(done + {x}, test) == Where(done, test);
    }
  }

  /** A subset has no more elements. */
  lemma {:induction false} SubsetSize(a: set<OMKey>, b: set<OMKey>)
    requires a <= b
    ensures |a| <= |b|
    decreases |b|
  {
    if a != {} {
      var x :| x in a;
      SubsetSize(a - {x}, b - {x});
    }
  }

  /** A weaker test passes at least as many keys, and no test passes more keys than there are. */
  lemma WhereMono(keys: set<OMKey>, test: OMKey -> bool, weaker: OMKey -> bool)
    requires forall d :: d in keys && test(d) ==> weaker(d)
    ensures |Where(keys, test)| <= |Where(keys, weaker)| <= |keys|
  {
    SubsetSize(Where(keys, test), Where(keys, weaker));
    SubsetSize(Where(keys, weaker), keys);
  }

  /** Two tests that never both pass count at most all keys together, and
      exactly the keys passing either. */
  lemma WhereDisjoint(keys: set<OMKey>, a: OMKey -> bool, b: OMKey -> bool, either: OMKey -> bool)
    requires forall d :: d in keys ==> !(a(d) && b(d))
    requires forall d :: d in keys ==> (either(d) <==> a(d) || b(d))
    ensures |Where(keys, a)| + |Where(keys, b)| == |Where(keys, either)| <= |keys|
  {
    assert Where(keys, either) == Where(keys, a) + Where(keys, b);
    assert Where(keys, a) !! Where(keys, b);
    SubsetSize(Where(keys, either), keys);
  }
}
