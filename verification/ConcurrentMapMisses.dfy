/** How often the slow path is taken in vain: between two promotions, at most as often as the largest dirty map
    has keys. That is what pays for copying it (syncmap/syncmap.go, the comment on misses). */
module ConcurrentMapMisses {
  import opened Wrappers
  import opened ConcurrentMap
  import opened ConcurrentMapInvariant
  import opened ConcurrentMapHistory

  /** The step gives up the dirty map, which has become the read map. */
  predicate Promotes(s: State, s': State) {
    s.dirty.Some? && s'.dirty.None?
  }

  predicate Misses(s: State, s': State) {
    s'.misses == s.misses + 1
  }

  /** The number of misses counted in the steps from i to j. */
  function MissesBetween(hs: seq<History>, i: nat, j: nat): nat
    requires i <= j < |hs|
    decreases j
  {
    if i == j then 0
    else MissesBetween(hs, i, j - 1) + if Misses(hs[j - 1].state, hs[j].state) then 1 else 0
  }

  /** Between the load of `read` and the count of the miss. */
  predicate Looking(pc: Pc) {
    pc.LookDirty? || (pc.LockedEntry? && pc.missed) || (pc.LockedCas? && pc.missed)
  }

  /** The holder of mu is done with looking for its key in the dirty map. */
  predicate Looked(s: State, s': State) {
    Looking(Holder(s)) && !Looking(Holder(s'))
  }

  /** How often a call went through the dirty map for its key, in the steps from i to j. */
  function LooksBetween(hs: seq<History>, i: nat, j: nat): nat
    requires i <= j < |hs|
    decreases j
  {
    if i == j then 0
    else LooksBetween(hs, i, j - 1) + if Looked(hs[j - 1].state, hs[j].state) then 1 else 0
  }

  /** The size of the largest dirty map from i to j. */
  function Largest(hs: seq<History>, i: nat, j: nat): nat
    requires i <= j < |hs|
    decreases j
  {
    var here := |DirtyMap(hs[j].state)|;
    if i == j then here
    else
      var before := Largest(hs, i, j - 1);
      if here > before then here else before
  }

  ghost predicate NoPromotion(hs: seq<History>, i: nat, j: nat)
    requires i <= j < |hs|
  {
    forall k | i <= k < j :: !Promotes(hs[k].state, hs[k + 1].state)
  }

  /** Only the holder of mu counts a miss, in the step made for it, and comes to that step with fewer misses
      than the dirty map has keys. */
  ghost predicate CountsFairly(s: State, s': State) {
    && (s'.misses == s.misses || Misses(s, s'))
    && (Misses(s, s') <==> Holder(s).Miss? && !Holder(s').Miss?)
    && (Looked(s, s') <==> Holder(s').Miss? && !Holder(s).Miss?)
    && (Holder(s').Miss? && !Holder(s).Miss? ==> s.misses < |DirtyMap(s)|)
  }

  lemma HolderCountsFairly(s: State, t: Goroutine, c: Choice)
    requires Inv(s) && Enabled(s, t, c) && s.mu == Some(t) && !Promotes(s, Apply(s, t, c).state)
    ensures CountsFairly(s, Apply(s, t, c).state)
  {
    assert Local(s, t);
  }

  lemma OthersCountFairly(s: State, t: Goroutine, c: Choice)
    requires Inv(s) && Enabled(s, t, c) && s.mu != Some(t)
    ensures CountsFairly(s, Apply(s, t, c).state)
  {
    assert Local(s, t);
    LockFreeSteps(s, t, c);
    EveryStep(s, t, c);
  }

  lemma WithoutDirtyNoMisses(s: State)
    requires Inv(s) && s.dirty.None?
    ensures s.misses == 0 && !Holder(s).Miss?
  {
    if s.mu.Some? { assert Local(s, s.mu.value); }
  }

  lemma StepCountsFairly(hs: seq<History>, k: nat)
    requires Run(hs) && k < |hs| - 1 && !Promotes(hs[k].state, hs[k + 1].state)
    ensures CountsFairly(hs[k].state, hs[k + 1].state)
  {
    ObservedAlways(hs, k);
    assert ConcurrentMapHistory.Next(hs[k], hs[k + 1]);
    var t: Goroutine, c: Choice :| Enabled(hs[k].state, t, c) && hs[k + 1] == Record(hs[k], t, c);
    RecordedState(hs[k], t, c);
    if hs[k].state.mu == Some(t) { HolderCountsFairly(hs[k].state, t, c); }
    else { OthersCountFairly(hs[k].state, t, c); }
  }

  /** No more misses than the largest dirty map so far has keys, and fewer where the next is about to be counted. */
  predicate Bounded(s: State, largest: nat) {
    s.misses <= largest && (Holder(s).Miss? ==> s.misses < largest)
  }

  lemma StepStaysBounded(s: State, s': State, largest: nat, now: nat)
    requires CountsFairly(s, s') && Bounded(s, largest) && |DirtyMap(s)| <= largest <= now
    ensures Bounded(s', now)
  {
  }

  lemma LargestIsLargest(hs: seq<History>, i: nat, j: nat)
    requires i <= j < |hs|
    ensures |DirtyMap(hs[j].state)| <= Largest(hs, i, j)
  {
  }

  ghost predicate AllCountFairly(hs: seq<History>, i: nat, j: nat)
    requires i <= j < |hs|
  {
    forall k | i <= k < j :: CountsFairly(hs[k].state, hs[k + 1].state)
  }

  lemma {:induction false} MissesStayBounded(hs: seq<History>, i: nat, j: nat)
    requires i <= j < |hs| && AllCountFairly(hs, i, j)
    requires hs[i].state.misses == 0 && !Holder(hs[i].state).Miss?
    ensures hs[j].state.misses == MissesBetween(hs, i, j)
    ensures LooksBetween(hs, i, j) == MissesBetween(hs, i, j) + if Holder(hs[j].state).Miss? then 1 else 0
    ensures Bounded(hs[j].state, Largest(hs, i, j))
    decreases j
  {
    if i < j {
      MissesStayBounded(hs, i, j - 1);
      assert CountsFairly(hs[j - 1].state, hs[j - 1 + 1].state);
      LargestIsLargest(hs, i, j - 1);
      StepStaysBounded(hs[j - 1].state, hs[j].state, Largest(hs, i, j - 1), Largest(hs, i, j));
    }
  }

  /** In every run: between a promotion, or the beginning, and the next promotion calls go through the dirty map, and
      count a miss, at most as often as the largest dirty map in between has keys. */
  lemma MissesAreBounded(hs: seq<History>, i: nat, j: nat)
    requires Run(hs) && i <= j < |hs| && NoPromotion(hs, i, j)
    requires i == 0 || Promotes(hs[i - 1].state, hs[i].state)
    ensures MissesBetween(hs, i, j) <= Largest(hs, i, j)
    ensures LooksBetween(hs, i, j) <= Largest(hs, i, j)
  {
    if i == 0 { assert Starts(hs[0]); }
    ObservedAlways(hs, i);
    WithoutDirtyNoMisses(hs[i].state);
    forall k | i <= k < j ensures CountsFairly(hs[k].state, hs[k + 1].state) { StepCountsFairly(hs, k); }
    MissesStayBounded(hs, i, j);
  }
}
