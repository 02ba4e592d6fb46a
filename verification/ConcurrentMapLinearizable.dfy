/** The main theorems about the concurrent map. */
module ConcurrentMapLinearizable {
  import opened Wrappers
  import opened ConcurrentMap
  import opened ConcurrentMapInvariant
  import opened ConcurrentMapHistory

  // ---------------------------------------------------------------- a sequential history

  /** A call, placed in time: at moment `i` (time 2i) or in the step after it (time 2i + 1). */
  datatype Placed = Placed(time: nat, taken: Taken)

  /** What a plain map, empty at first, holds after the calls ran one by one, provided that it gave
      every one of them the answer noted. */
  function Replay(calls: seq<Placed>): Option<map<Key, Value>> {
    if calls == [] then Some(map[])
    else
      var m := Replay(calls[..|calls| - 1]);
      var x := calls[|calls| - 1].taken;
      if m.None? || x.answer != Reply(Get(m.value, x.op.key), x.op) then None
      else Some(Put(m.value, x.op.key, After(Get(m.value, x.op.key), x.op)))
  }

  ghost predicate Occurs(calls: seq<Placed>, x: Taken) {
    exists a :: 0 <= a < |calls| && calls[a].taken == x
  }

  predicate Runs(pc: Pc, op: Op) {
    !pc.Idle? && !pc.Broken? && pc.op == op
  }

  /** The call has completed with that answer, or is still running. */
  ghost predicate Made(h: History, x: Taken) {
    || (exists d :: d in h.done && x == Taken(d.call, d.op, d.answer))
    || (exists t :: t in h.began && h.began[t] == x.call && Runs(PcOf(h.state, t), x.op))
  }

  /** A sequential history of the run: legal for a plain map, ending in what the map holds, with every
      completed call and its answer, each call once, no call that was not made, and in real-time order. */
  ghost predicate Linearization(h: History, calls: seq<Placed>) {
    && Replay(calls) == Some(Abs(h.state))
    && (forall d :: d in h.done ==> Occurs(calls, Taken(d.call, d.op, d.answer)))
    && (forall a, b :: 0 <= a < b < |calls| ==> calls[a].taken.call != calls[b].taken.call)
    && (forall a :: 0 <= a < |calls| ==> Made(h, calls[a].taken))
    && (forall d, a, b | d in h.done && 0 <= a < |calls| && 0 <= b < |calls|
          && calls[a].taken.call == d.call && d.ended < calls[b].taken.call :: a < b)
  }

  // ---------------------------------------------------------------- building it

  function AsTaken(d: Completed): Taken {
    Taken(d.call, d.op, d.answer)
  }

  /** A moment at which a call that changed nothing may be placed. */
  ghost function MomentOf(h: History, d: Completed): (i: nat)
    ensures ReadAtAMoment(h, d.call, d.op, d.answer, d.ended) ==>
              d.call < i <= d.ended && i < |h.past| && Reads(h.past[i], d.op, d.answer)
  {
    if ReadAtAMoment(h, d.call, d.op, d.answer, d.ended)
    then var i :| d.call < i <= d.ended && i < |h.past| && Reads(h.past[i], d.op, d.answer); i
    else 0
  }

  ghost predicate PlacedAt(h: History, d: Completed, i: nat) {
    d.call !in h.took && MomentOf(h, d) == i
  }

  /** Those of the first `n` completed calls that are placed at moment `i`. */
  ghost function ReadsAt(h: History, n: nat, i: nat): seq<Placed>
    requires n <= |h.done|
  {
    if n == 0 then []
    else ReadsAt(h, n - 1, i)
         + (if PlacedAt(h, h.done[n - 1], i) then [Placed(2 * i, AsTaken(h.done[n - 1]))] else [])
  }

  function EffectAt(h: History, i: nat): seq<Placed>
    requires i < |h.steps|
  {
    if h.steps[i].Some? then [Placed(2 * i + 1, h.steps[i].value)] else []
  }

  /** Everything placed before moment `i`. */
  ghost function Before(h: History, i: nat): seq<Placed>
    requires i <= |h.steps|
  {
    if i == 0 then []
    else Before(h, i - 1) + ReadsAt(h, |h.done|, i - 1) + EffectAt(h, i - 1)
  }

  /** A call that has returned is placed before now. */
  ghost function Order(h: History): seq<Placed> {
    Before(h, |h.steps|)
  }

  // ---------------------------------------------------------------- it is legal

  lemma ReplayOne(calls: seq<Placed>, m: map<Key, Value>, x: Placed)
    requires Replay(calls) == Some(m)
    ensures Replay(calls + [x]) ==
            if x.taken.answer == Reply(Get(m, x.taken.op.key), x.taken.op)
            then Some(Put(m, x.taken.op.key, After(Get(m, x.taken.op.key), x.taken.op)))
            else None
  {
  }

  lemma ReplayRead(h: History, calls: seq<Placed>, d: Completed, i: nat)
    requires Linearized(h, d) && PlacedAt(h, d, i) && i < |h.past| && Replay(calls) == Some(h.past[i])
    ensures Replay(calls + [Placed(2 * i, AsTaken(d))]) == Some(h.past[i])
  {
    ReplayOne(calls, h.past[i], Placed(2 * i, AsTaken(d)));
    SameMap(Put(h.past[i], d.op.key, Get(h.past[i], d.op.key)), h.past[i]);
  }

  lemma {:induction false} ReplayReads(h: History, calls: seq<Placed>, n: nat, i: nat)
    requires forall d :: d in h.done ==> Linearized(h, d)
    requires n <= |h.done| && i < |h.past| && Replay(calls) == Some(h.past[i])
    ensures Replay(calls + ReadsAt(h, n, i)) == Some(h.past[i])
  {
    if n == 0 {
      assert calls + [] == calls;
    } else {
      ReplayReads(h, calls, n - 1, i);
      var front := calls + ReadsAt(h, n - 1, i);
      if PlacedAt(h, h.done[n - 1], i) {
        ReplayRead(h, front, h.done[n - 1], i);
        assert calls + ReadsAt(h, n, i) == front + [Placed(2 * i, AsTaken(h.done[n - 1]))];
      } else {
        assert calls + ReadsAt(h, n, i) == front;
      }
    }
  }

  lemma ReplayEffect(h: History, looks: seq<Placed>, i: nat)
    requires Observed(h) && i < |h.steps| && Replay(looks) == Some(h.past[i])
    ensures Replay(looks + EffectAt(h, i)) == Some(h.past[i + 1])
  {
    assert StepLegal(h.past[i], h.steps[i], h.past[i + 1]);
    if h.steps[i].Some? {
      ReplayOne(looks, h.past[i], Placed(2 * i + 1, h.steps[i].value));
    } else {
      assert looks + [] == looks;
    }
  }

  lemma {:induction false} ReplayBefore(h: History, i: nat)
    requires Observed(h) && i <= |h.steps|
    ensures Replay(Before(h, i)) == Some(h.past[i])
  {
    if i > 0 {
      ReplayBefore(h, i - 1);
      ReplayReads(h, Before(h, i - 1), |h.done|, i - 1);
      ReplayEffect(h, Before(h, i - 1) + ReadsAt(h, |h.done|, i - 1), i - 1);
    }
  }

  // ---------------------------------------------------------------- what it contains

  /** The element stands for a completed call that changed nothing, or for the effect of a step. */
  ghost predicate IsRead(h: History, x: Placed, d: Completed) {
    d in h.done && PlacedAt(h, d, x.time / 2) && x == Placed(2 * (x.time / 2), AsTaken(d))
  }

  ghost predicate IsEffect(h: History, x: Placed) {
    var i := x.time / 2;
    i < |h.steps| && h.steps[i] == Some(x.taken) && x.time == 2 * i + 1
  }

  ghost predicate Explained(h: History, x: Placed) {
    IsEffect(h, x) || exists d :: IsRead(h, x, d)
  }

  lemma {:induction false} ReadsExplained(h: History, n: nat, i: nat, a: nat)
    requires n <= |h.done| && a < |ReadsAt(h, n, i)|
    ensures ReadsAt(h, n, i)[a].time == 2 * i
    ensures exists j :: 0 <= j < n && PlacedAt(h, h.done[j], i) && ReadsAt(h, n, i)[a].taken == AsTaken(h.done[j])
  {
    if a < |ReadsAt(h, n - 1, i)| {
      ReadsExplained(h, n - 1, i, a);
      var j :| 0 <= j < n - 1 && PlacedAt(h, h.done[j], i) && ReadsAt(h, n - 1, i)[a].taken == AsTaken(h.done[j]);
      assert ReadsAt(h, n, i)[a].taken == AsTaken(h.done[j]);
    } else {
      assert ReadsAt(h, n, i)[a].taken == AsTaken(h.done[n - 1]);
    }
  }

  lemma ReadsAreReads(h: History, i: nat, a: nat)
    requires a < |ReadsAt(h, |h.done|, i)|
    ensures var x := ReadsAt(h, |h.done|, i)[a]; x.time == 2 * i && Explained(h, x)
  {
    ReadsExplained(h, |h.done|, i, a);
    var x := ReadsAt(h, |h.done|, i)[a];
    var j :| 0 <= j < |h.done| && PlacedAt(h, h.done[j], i) && x.taken == AsTaken(h.done[j]);
    assert IsRead(h, x, h.done[j]);
  }

  lemma EffectExplained(h: History, i: nat)
    requires i < |h.steps| && EffectAt(h, i) != []
    ensures Explained(h, EffectAt(h, i)[0]) && EffectAt(h, i)[0].time == 2 * i + 1
  {
  }

  lemma InOnePart(front: seq<Placed>, looks: seq<Placed>, effect: seq<Placed>, a: nat)
    requires a < |front + looks + effect|
    ensures (front + looks + effect)[a] == if a < |front| then front[a]
                                           else if a < |front| + |looks| then looks[a - |front|]
                                           else effect[a - |front| - |looks|]
  {
  }

  /** Earlier elements have earlier times, and all come from the run. */
  lemma {:induction false} BeforeExplained(h: History, i: nat, a: nat)
    requires i <= |h.steps| && a < |Before(h, i)|
    ensures Explained(h, Before(h, i)[a]) && Before(h, i)[a].time < 2 * i
  {
    var front, looks, effect := Before(h, i - 1), ReadsAt(h, |h.done|, i - 1), EffectAt(h, i - 1);
    InOnePart(front, looks, effect, a);
    if a < |front| {
      BeforeExplained(h, i - 1, a);
    } else if a < |front| + |looks| {
      ReadsAreReads(h, i - 1, a - |front|);
    } else {
      EffectExplained(h, i - 1);
    }
  }

  ghost predicate InOrder(calls: seq<Placed>) {
    forall a, b :: 0 <= a < b < |calls| ==> calls[a].time <= calls[b].time && calls[a].taken.call != calls[b].taken.call
  }

  lemma {:induction false} ReadsInOrder(h: History, n: nat, i: nat)
    requires Bookkeeping(h) && n <= |h.done|
    ensures InOrder(ReadsAt(h, n, i))
  {
    if n > 0 {
      var front, all := ReadsAt(h, n - 1, i), ReadsAt(h, n, i);
      ReadsInOrder(h, n - 1, i);
      forall a, b | 0 <= a < b < |all| ensures all[a].time <= all[b].time && all[a].taken.call != all[b].taken.call {
        if b == |front| {
          ReadsExplained(h, n - 1, i, a);
          assert all[a] == front[a] && all[b] == Placed(2 * i, AsTaken(h.done[n - 1]));
        }
      }
    }
  }

  /** Elements of different times belong to different calls. */
  lemma TimesApart(h: History, x: Placed, y: Placed)
    requires PlainMapStory(h) && Bookkeeping(h) && Explained(h, x) && Explained(h, y) && x.time != y.time
    ensures x.taken.call != y.taken.call
  {
  }

  lemma SameCallSameRecord(h: History, d: Completed, e: Completed)
    requires Bookkeeping(h) && d in h.done && e in h.done && d.call == e.call
    ensures d == e
  {
  }

  /** Across the seams of the three parts, times strictly grow. */
  lemma SeamInOrder(front: seq<Placed>, looks: seq<Placed>, effect: seq<Placed>, i: nat, a: nat, b: nat)
    requires forall k :: 0 <= k < |front| ==> front[k].time < 2 * i
    requires forall k :: 0 <= k < |looks| ==> looks[k].time == 2 * i
    requires |effect| <= 1 && forall k :: 0 <= k < |effect| ==> effect[k].time == 2 * i + 1
    requires InOrder(front) && InOrder(looks) && a < b < |front + looks + effect|
    ensures var all := front + looks + effect;
            all[a].time < all[b].time || (all[a].time == all[b].time && all[a].taken.call != all[b].taken.call)
  {
  }

  lemma PairInOrder(h: History, front: seq<Placed>, looks: seq<Placed>, effect: seq<Placed>, i: nat, a: nat, b: nat)
    requires i < |h.steps| && front == Before(h, i) && looks == ReadsAt(h, |h.done|, i) && effect == EffectAt(h, i)
    requires InOrder(front) && InOrder(looks) && a < b < |front + looks + effect|
    ensures var all := front + looks + effect;
            all[a].time < all[b].time || (all[a].time == all[b].time && all[a].taken.call != all[b].taken.call)
  {
    forall k | 0 <= k < |front| ensures front[k].time < 2 * i { BeforeExplained(h, i, k); }
    forall k | 0 <= k < |looks| ensures looks[k].time == 2 * i { ReadsAreReads(h, i, k); }
    SeamInOrder(front, looks, effect, i, a, b);
  }

  lemma {:induction false} BeforeInOrder(h: History, i: nat)
    requires PlainMapStory(h) && Bookkeeping(h) && i <= |h.steps|
    ensures InOrder(Before(h, i))
  {
    if i > 0 {
      BeforeInOrder(h, i - 1);
      ReadsInOrder(h, |h.done|, i - 1);
      var front, looks, effect := Before(h, i - 1), ReadsAt(h, |h.done|, i - 1), EffectAt(h, i - 1);
      var all := front + looks + effect;
      assert Before(h, i) == all;
      forall a, b | 0 <= a < b < |all| ensures all[a].time <= all[b].time && all[a].taken.call != all[b].taken.call {
        PairInOrder(h, front, looks, effect, i - 1, a, b);
        if all[a].time != all[b].time {
          BeforeExplained(h, i, a);
          BeforeExplained(h, i, b);
          TimesApart(h, all[a], all[b]);
        }
      }
    }
  }

  // ---------------------------------------------------------------- completed calls occur

  lemma {:induction false} ReadOccurs(h: History, n: nat, j: nat, i: nat)
    requires j < n <= |h.done| && PlacedAt(h, h.done[j], i)
    ensures Placed(2 * i, AsTaken(h.done[j])) in ReadsAt(h, n, i)
  {
    if j < n - 1 { ReadOccurs(h, n - 1, j, i); }
  }

  lemma {:induction false} BeforeContains(h: History, i: nat, j: nat)
    requires j < i <= |h.steps|
    ensures forall x :: x in ReadsAt(h, |h.done|, j) || x in EffectAt(h, j) ==> x in Before(h, i)
  {
    if j < i - 1 { BeforeContains(h, i - 1, j); }
  }

  lemma CompletedOccurs(h: History, d: Completed)
    requires Observed(h) && d in h.done
    ensures Occurs(Order(h), AsTaken(d))
  {
    assert Linearized(h, d);
    var n := |h.steps|;
    if d.call in h.took {
      var i := h.took[d.call];
      var x := Placed(2 * i + 1, AsTaken(d));
      assert x in EffectAt(h, i);
      BeforeContains(h, n, i);
      assert x in Order(h);
    } else {
      var i := MomentOf(h, d);
      var j :| 0 <= j < |h.done| && h.done[j] == d;
      ReadOccurs(h, |h.done|, j, i);
      BeforeContains(h, n, i);
      assert Placed(2 * i, AsTaken(d)) in Order(h);
    }
  }

  lemma EffectIsMade(h: History, x: Placed)
    requires Observed(h) && IsEffect(h, x)
    ensures Made(h, x.taken)
    ensures 2 * x.taken.call + 1 < x.time
    ensures forall d :: d in h.done && d.call == x.taken.call ==> x.time <= 2 * d.ended
  {
    var call := x.taken.call;
    forall d | d in h.done && d.call == call
      ensures x.taken == AsTaken(d) && x.time <= 2 * d.ended && 2 * call + 1 < x.time
    {
      assert Linearized(h, d);
    }
    if !Finished(h, call) {
      var t :| t in h.began && h.began[t] == call;
      assert CallSeen(h, t);
      assert Runs(PcOf(h.state, t), x.taken.op);
    }
  }

  lemma ExplainedIsMade(h: History, x: Placed)
    requires Observed(h) && Explained(h, x)
    ensures Made(h, x.taken)
    ensures 2 * x.taken.call + 1 < x.time
    ensures forall d :: d in h.done && d.call == x.taken.call ==> x.time <= 2 * d.ended
  {
    if IsEffect(h, x) {
      EffectIsMade(h, x);
    } else {
      var d :| IsRead(h, x, d);
      assert Linearized(h, d);
      forall e | e in h.done && e.call == x.taken.call ensures x.time <= 2 * e.ended {
        SameCallSameRecord(h, d, e);
      }
    }
  }

  // ---------------------------------------------------------------- main theorems

  /** Every run of the concurrent map is linearizable: its calls can be put into one order, respecting
      real time, in which a plain map gives exactly the answers that were given. */
  lemma Linearizable(hs: seq<History>, n: nat)
    requires Run(hs) && n < |hs|
    ensures Linearization(hs[n], Order(hs[n]))
  {
    var h := hs[n];
    var calls := Order(h);
    ObservedAlways(hs, n);
    ReplayBefore(h, |h.steps|);
    BeforeInOrder(h, |h.steps|);
    forall d | d in h.done ensures Occurs(calls, Taken(d.call, d.op, d.answer)) { CompletedOccurs(h, d); }
    forall a | 0 <= a < |calls| ensures Made(h, calls[a].taken) {
      BeforeExplained(h, |h.steps|, a);
      ExplainedIsMade(h, calls[a]);
    }
    forall d, a, b | d in h.done && 0 <= a < |calls| && 0 <= b < |calls|
        && calls[a].taken.call == d.call && d.ended < calls[b].taken.call
      ensures a < b
    {
      BeforeExplained(h, |h.steps|, a);
      BeforeExplained(h, |h.steps|, b);
      ExplainedIsMade(h, calls[a]);
      ExplainedIsMade(h, calls[b]);
    }
  }

  /** Every completed call returns what a plain map would return at one moment between its call and its
      return, and the map never changes except by a call that takes effect. */
  lemma CompletedCallsAgree(hs: seq<History>, n: nat, d: Completed)
    requires Run(hs) && n < |hs| && d in hs[n].done
    ensures Linearized(hs[n], d)
    ensures PlainMapStory(hs[n])
  {
    ObservedAlways(hs, n);
  }

  /** What holds in every reachable state in which nobody holds `mu`. */
  ghost predicate Quiet(s: State) {
    && (s.dirty.Some? <==> s.amended)
    && (forall k :: k in s.read && k in DirtyMap(s) ==> s.read[k] == DirtyMap(s)[k])
    && (forall k :: k in s.read && s.dirty.Some? ==>
          (Peek(s, s.read[k]) == Expunged <==> k !in s.dirty.value))
    && (forall k :: k in s.read && s.dirty.None? ==> Peek(s, s.read[k]) != Expunged)
    && (forall k :: k in DirtyMap(s) ==> Peek(s, DirtyMap(s)[k]) != Expunged)
    && (if s.dirty.Some? then s.misses < |s.dirty.value| else s.misses == 0)
  }

  lemma QuietWhenUnlocked(hs: seq<History>, n: nat)
    requires Run(hs) && n < |hs| && hs[n].state.mu.None?
    ensures Quiet(hs[n].state)
  {
    ObservedAlways(hs, n);
  }

  /** A Range that lets go of `mu` has promoted the dirty map, so that all keys are in `read`. */
  lemma RangePromotes(hs: seq<History>, n: nat, t: Goroutine)
    requires Run(hs) && n < |hs| && PcOf(hs[n].state, t).Unlock? && PcOf(hs[n].state, t).op.Range?
    ensures hs[n].state.mu == Some(t) && !hs[n].state.amended && hs[n].state.dirty.None? && hs[n].state.misses == 0
  {
    ObservedAlways(hs, n);
    assert Local(hs[n].state, t);
  }

  /** While `mu` is held, the entry worked on under it is never found expunged, no write meets a nil
      map, and a lock-free step expunges nothing. */
  lemma LockedEntriesAreLive(hs: seq<History>, n: nat, t: Goroutine)
    requires Run(hs) && n < |hs|
    ensures !PcOf(hs[n].state, t).Broken?
    ensures var s, pc := hs[n].state, PcOf(hs[n].state, t);
            && ((pc.LockedEntry? || pc.LockedCas?) && Stores(pc.op) ==> Peek(s, pc.entry) != Expunged)
            && (pc.Readd? || pc.Insert? ==> s.dirty.Some?)
            && (InLock(pc) <==> s.mu == Some(t))
    ensures forall c :: Enabled(hs[n].state, t, c) && hs[n].state.mu != Some(t) ==>
                          LockFree(hs[n].state, Apply(hs[n].state, t, c).state)
  {
    ObservedAlways(hs, n);
    var s := hs[n].state;
    assert Local(s, t);
    forall c | Enabled(s, t, c) && s.mu != Some(t) ensures LockFree(s, Apply(s, t, c).state) {
      LockFreeSteps(s, t, c);
    }
  }
}
