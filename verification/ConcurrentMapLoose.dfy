/** Entries that no map leads to any more. The value in one is nobody's but the LoadAndDelete's that took it out
    of `dirty`, unless a CompareAndDelete that found it there before is faster. */
module ConcurrentMapLoose {
  import opened Wrappers
  import opened ConcurrentMap
  import opened ConcurrentMapInvariant

  /** A value in an entry that no map leads to is about to be returned by the one that took the entry out. */
  ghost predicate LooseOwned(s: State) {
    forall e | e in s.heap && Nowhere(s, e) && Peek(s, e).Boxed? :: exists u :: Owned(PcOf(s, u)) == Some(e)
  }

  /** CompareAndDelete empties an entry that no map leads to: the value was removed in an earlier step, in which
      LoadAndDelete took the entry out of `dirty`. */
  predicate Late(s: State, t: Goroutine) {
    var pc := PcOf(s, t);
    pc.TryCas? && pc.op.CompareAndDelete? && Peek(s, pc.entry) == pc.seen && Nowhere(s, pc.entry)
  }

  /** Its owner lets go of an entry only when it is empty. */
  lemma OwnerHoldsOn(s: State, t: Goroutine, c: Choice, e: Entry)
    requires Inv(s) && Enabled(s, t, c) && Owned(PcOf(s, t)) == Some(e)
    ensures Owned(PcOf(Apply(s, t, c).state, t)) == Some(e) || !Peek(Apply(s, t, c).state, e).Boxed?
  {
    assert Local(s, t);
  }

  /** An entry that is still full leaves the maps only into the hands of an owner. */
  lemma LeavesOwned(s: State, t: Goroutine, c: Choice, e: Entry)
    requires Inv(s) && Enabled(s, t, c) && e in s.heap && !Nowhere(s, e)
    requires Nowhere(Apply(s, t, c).state, e) && Peek(Apply(s, t, c).state, e).Boxed?
    ensures Owned(PcOf(Apply(s, t, c).state, t)) == Some(e)
  {
    assert Local(s, t);
    EveryStep(s, t, c);
    assert EntryEvolves(s, t, Apply(s, t, c).state, e);
  }

  lemma NewIsReachable(s: State, t: Goroutine, c: Choice, e: Entry)
    requires Inv(s) && Enabled(s, t, c) && e in Apply(s, t, c).state.heap && e !in s.heap
    ensures !Nowhere(Apply(s, t, c).state, e)
  {
    assert Local(s, t);
  }

  lemma LooseStaysOwned(s: State, t: Goroutine, c: Choice, e: Entry)
    requires Inv(s) && Enabled(s, t, c) && LooseOwned(s)
    requires var s' := Apply(s, t, c).state; e in s'.heap && Nowhere(s', e) && Peek(s', e).Boxed?
    ensures exists u :: Owned(PcOf(Apply(s, t, c).state, u)) == Some(e)
  {
    var s' := Apply(s, t, c).state;
    EveryStep(s, t, c);
    if e !in s.heap {
      NewIsReachable(s, t, c, e);
    } else if !Nowhere(s, e) {
      LeavesOwned(s, t, c, e);
    } else {
      assert EntryEvolves(s, t, s', e);
      var u :| Owned(PcOf(s, u)) == Some(e);
      if u == t { OwnerHoldsOn(s, t, c, e); }
      assert Owned(PcOf(s', u)) == Some(e);
    }
  }

  lemma LooseKept(s: State, t: Goroutine, c: Choice)
    requires Inv(s) && Enabled(s, t, c) && LooseOwned(s)
    ensures LooseOwned(Apply(s, t, c).state)
  {
    var s' := Apply(s, t, c).state;
    forall e | e in s'.heap && Nowhere(s', e) && Peek(s', e).Boxed? ensures exists u :: Owned(PcOf(s', u)) == Some(e) {
      LooseStaysOwned(s, t, c, e);
    }
  }

  /** An ordinary step of another goroutine does not touch what an owner has still to empty. */
  lemma OwnedUntouched(s: State, t: Goroutine, s': State, u: Goroutine, e: Entry)
    requires Inv(s) && u != t && Owned(PcOf(s, u)) == Some(e) && Evolves(s, t, s') && !Late(s, t)
    ensures Peek(s', e) == Peek(s, e)
  {
    assert Local(s, u) && Local(s, t);
    assert EntryEvolves(s, t, s', e);
    assert Owned(PcOf(s, t)) != Owned(PcOf(s, u));
  }
}
