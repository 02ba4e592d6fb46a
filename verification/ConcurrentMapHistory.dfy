/** Linearizability of the concurrent map: every completed call returns what a plain map would have
    returned at one moment between its call and its return. */
module ConcurrentMapHistory {
  import opened Wrappers
  import opened ConcurrentMap
  import opened ConcurrentMapInvariant
  import opened ConcurrentMapLoose

  /** A call that changed the map, or removed an entry, in some step. Calls are numbered by the step
      that made them. */
  datatype Taken = Taken(call: nat, op: Op, answer: Answer)

  /** A call that returned in step `ended`. */
  datatype Completed = Completed(call: nat, op: Op, answer: Answer, ended: nat)

  /** An observer's notes on a run: what the abstract map was at every moment, and which call took
      effect in the step between two moments. The observer never influences the run. */
  datatype History = History(
    state: State,
    past: seq<map<Key, Value>>,
    steps: seq<Option<Taken>>,
    began: map<Goroutine, nat>,
    took: map<nat, nat>,
    done: seq<Completed>)

  ghost predicate Starts(h: History) {
    Init(h.state) && h == History(h.state, [map[]], [], map[], map[], [])
  }

  function CallOf(h: History, t: Goroutine): nat {
    if t in h.began then h.began[t] else |h.steps|
  }

  /** The notes on a step in which a call takes effect, if it does. */
  function Noted(h: History, t: Goroutine, c: Choice): History {
    var pc := PcOf(h.state, t);
    var o := Apply(h.state, t, c);
    var call := CallOf(h, t);
    var op := OpOf(pc, c);
    History(
      o.state,
      h.past + [Abs(o.state)],
      h.steps + [if o.effect.Some? then Some(Taken(call, op, o.effect.value)) else None],
      if pc.Idle? then h.began[t := |h.steps|] else if pc.Return? then h.began - {t} else h.began,
      if o.effect.Some? then h.took[call := |h.steps|] else h.took,
      if pc.Return? then h.done + [Completed(call, op, pc.answer, |h.steps|)] else h.done)
  }

  /** In this step `t` takes the value that the call of `u` took out of `dirty` and has not yet emptied. */
  ghost predicate Forestalls(h: History, t: Goroutine, u: Goroutine) {
    && Late(h.state, t) && Owned(PcOf(h.state, u)) == Some(PcOf(h.state, t).entry)
    && u in h.began && h.began[u] in h.took && h.took[h.began[u]] < |h.steps|
  }

  /** The notes on such a step: the earlier removal was the effect of the call of `t`. */
  function Credited(h: History, t: Goroutine, c: Choice, u: Goroutine): History
    requires u in h.began && h.began[u] in h.took && h.took[h.began[u]] < |h.steps| && Late(h.state, t)
  {
    var op := PcOf(h.state, t).op;
    var call, other := CallOf(h, t), h.began[u];
    var i := h.took[other];
    var s' := Apply(h.state, t, c).state;
    History(
      s', h.past + [Abs(s')],
      h.steps[i := Some(Taken(call, op, Swapped(true)))] + [None],
      h.began, (h.took - {other})[call := i], h.done)
  }

  ghost function Record(h: History, t: Goroutine, c: Choice): History {
    if exists u :: Forestalls(h, t, u) then var u :| Forestalls(h, t, u); Credited(h, t, c, u)
    else Noted(h, t, c)
  }

  lemma RecordedState(h: History, t: Goroutine, c: Choice)
    ensures Record(h, t, c).state == Apply(h.state, t, c).state
  {
  }

  ghost predicate Next(h: History, h': History) {
    exists t, c :: Enabled(h.state, t, c) && h' == Record(h, t, c)
  }

  /** Any finite run, under any schedule. */
  ghost predicate Run(hs: seq<History>) {
    |hs| > 0 && Starts(hs[0]) && forall i :: 0 <= i < |hs| - 1 ==> Next(hs[i], hs[i + 1])
  }

  // ---------------------------------------------------------------- what linearizable means

  /** On a plain map `m` the call answers `answer` and changes nothing. */
  predicate Reads(m: map<Key, Value>, op: Op, answer: Answer) {
    Reply(Get(m, op.key), op) == answer && After(Get(m, op.key), op) == Get(m, op.key)
  }

  /** Between two moments the map is changed by the call that took effect, as a plain map would be. */
  predicate StepLegal(m: map<Key, Value>, taken: Option<Taken>, m': map<Key, Value>) {
    match taken
    case None => m' == m
    case Some(x) =>
      x.answer == Reply(Get(m, x.op.key), x.op) && m' == Put(m, x.op.key, After(Get(m, x.op.key), x.op))
  }

  /** The call took effect in one step after it was made and before step `end`, with that answer. */
  predicate TookEffect(h: History, call: nat, op: Op, answer: Answer, end: nat) {
    && call in h.took && call < h.took[call] < end <= |h.steps|
    && h.steps[h.took[call]] == Some(Taken(call, op, answer))
  }

  /** At a moment after the call was made and up to moment `end` a plain map would have given the answer. */
  ghost predicate ReadAtAMoment(h: History, call: nat, op: Op, answer: Answer, end: nat) {
    exists i :: call < i <= end && i < |h.past| && Reads(h.past[i], op, answer)
  }

  ghost predicate Linearized(h: History, d: Completed) {
    if d.call in h.took then TookEffect(h, d.call, d.op, d.answer, d.ended)
    else ReadAtAMoment(h, d.call, d.op, d.answer, d.ended)
  }

  /** The moments tell the story of one plain map, in which each call takes effect at most once. */
  ghost predicate PlainMapStory(h: History) {
    && |h.past| == |h.steps| + 1
    && h.past[0] == map[]
    && h.past[|h.steps|] == Abs(h.state)
    && (forall i :: 0 <= i < |h.steps| ==> StepLegal(h.past[i], h.steps[i], h.past[i + 1]))
    && (forall i :: 0 <= i < |h.steps| && h.steps[i].Some? ==>
          h.steps[i].value.call in h.took && h.took[h.steps[i].value.call] == i)
  }

  // ---------------------------------------------------------------- what the observer knows of running calls

  /** The answer a call has settled on. */
  function Pending(pc: Pc): Option<Answer> {
    match pc
    case Return(_, a) => Some(a)
    case Miss(_, ToReturn(a)) => Some(a)
    case Promote(_, ToReturn(a)) => Some(a)
    case ClearDirty(_, ToReturn(a)) => Some(a)
    case Unlock(_, ToReturn(a)) => Some(a)
    case _ => None
  }

  ghost predicate Saw(h: History, call: nat, k: Key, v: Option<Value>) {
    exists i :: call < i < |h.past| && Get(h.past[i], k) == v
  }

  /** The call was made before the entry was taken out of `dirty`, if its owner is credited with that. */
  ghost predicate BeforeRemoval(h: History, call: nat, e: Entry) {
    forall u | Owned(PcOf(h.state, u)) == Some(e) && u in h.began && h.began[u] in h.took :: call < h.took[h.began[u]]
  }

  /** A call that holds an entry no map leads to has lived through the moments it may answer for. */
  ghost predicate HeldSeen(h: History, call: nat, pc: Pc) {
    Held(pc).Some? && Owned(pc).None? && Nowhere(h.state, Held(pc).value.0) ==>
      && Saw(h, call, pc.op.key, None)
      && Saw(h, call, pc.op.key, Content(Peek(h.state, Held(pc).value.0)))
      && BeforeRemoval(h, call, Held(pc).value.0)
  }

  /** A call that took an entry out of `dirty` is credited with it, or another call has emptied the entry. */
  ghost predicate OwnedSeen(h: History, call: nat, op: Op, content: Option<Value>) {
    || TookEffect(h, call, op, Prior(content), |h.steps|)
    || (content == None && call !in h.took && ReadAtAMoment(h, call, op, Prior(None), |h.steps|))
  }

  ghost predicate EffectSeen(h: History, call: nat, pc: Pc) {
    if Pending(pc).Some? then
      if call in h.took then TookEffect(h, call, pc.op, Pending(pc).value, |h.steps|)
      else ReadAtAMoment(h, call, pc.op, Pending(pc).value, |h.steps|)
    else if Owned(pc).Some? then
      OwnedSeen(h, call, pc.op, Content(Peek(h.state, Owned(pc).value)))
    else
      call !in h.took
  }

  ghost predicate CallSeen(h: History, t: Goroutine) {
    t in h.began ==>
      && !PcOf(h.state, t).Idle? && !PcOf(h.state, t).Broken?
      && h.began[t] < |h.steps|
      && HeldSeen(h, h.began[t], PcOf(h.state, t))
      && EffectSeen(h, h.began[t], PcOf(h.state, t))
  }

  ghost predicate Running(h: History, call: nat) {
    exists t :: t in h.began && h.began[t] == call
  }

  ghost predicate Finished(h: History, call: nat) {
    exists d :: d in h.done && d.call == call
  }

  ghost predicate Bookkeeping(h: History) {
    && (forall t :: t in h.began <==> !PcOf(h.state, t).Idle?)
    && (forall t, u :: t in h.began && u in h.began && h.began[t] == h.began[u] ==> t == u)
    && (forall x :: x in h.took ==> x < |h.steps|)
    && (forall d, t :: d in h.done && t in h.began ==> d.call != h.began[t])
    && (forall d :: d in h.done ==> d.call < d.ended < |h.steps|)
    && (forall i, j :: 0 <= i < j < |h.done| ==> h.done[i].call != h.done[j].call)
    && (forall x :: x in h.took ==> Running(h, x) || Finished(h, x))
  }

  ghost predicate Observed(h: History) {
    && Inv(h.state) && LooseOwned(h.state)
    && PlainMapStory(h)
    && Bookkeeping(h)
    && (forall t :: CallSeen(h, t))
    && (forall d :: d in h.done ==> Linearized(h, d))
  }

  // ---------------------------------------------------------------- the abstract map

  lemma GetAbs(s: State, k: Key)
    ensures Get(Abs(s), k) == Lookup(s, k)
  {
  }

  lemma SameMap(m: map<Key, Value>, n: map<Key, Value>)
    requires forall k :: Get(m, k) == Get(n, k)
    ensures m == n
  {
    forall k ensures k in m <==> k in n {
      assert Get(m, k) == Get(n, k);
    }
    forall k | k in m ensures m[k] == n[k] {
      assert Get(m, k) == Get(n, k);
    }
  }

  lemma RefinesStory(s: State, s': State, call: nat, op: Op, effect: Option<Answer>)
    requires Refines(s, s', op, effect)
    ensures StepLegal(Abs(s), if effect.Some? then Some(Taken(call, op, effect.value)) else None, Abs(s'))
  {
    forall k ensures Get(Abs(s'), k) == Lookup(s', k) && Get(Abs(s), k) == Lookup(s, k) {
      GetAbs(s, k);
      GetAbs(s', k);
    }
    if effect.None? {
      SameMap(Abs(s'), Abs(s));
    } else {
      SameMap(Abs(s'), Put(Abs(s), op.key, After(Lookup(s, op.key), op)));
    }
  }

  // ---------------------------------------------------------------- how a step decides

  /** A plain map that holds this under the key of the call holds it afterwards. */
  predicate Kept(prior: Option<Value>, op: Op) {
    After(prior, op) == prior
  }

  /** When a step settles the answer of a call, either the call takes effect in it, or a plain map would
      give the answer at this moment, or it is the answer for an entry no map leads to any more. */
  ghost predicate Decides(s: State, t: Goroutine, o: Outcome) {
    var pc := PcOf(s, t);
    var pc' := PcOf(o.state, t);
    Pending(pc').Some? ==>
      !pc'.Idle? && !pc.Idle? && !pc.Broken? && pc'.op == pc.op &&
      var a := Pending(pc').value;
      || (Pending(pc) == Some(a) && o.effect.None?)
      || (Pending(pc).None? && o.effect == Some(a))
      || (Pending(pc).None? && o.effect.None? && Owned(pc).None?
            && a == Reply(Lookup(s, pc.op.key), pc.op) && Kept(Lookup(s, pc.op.key), pc.op))
      || (Pending(pc).None? && o.effect.None? && Held(pc).Some? && Nowhere(s, Held(pc).value.0)
            && a == Reply(Content(Peek(s, Held(pc).value.0)), pc.op)
            && (Owned(pc).Some? || Kept(Content(Peek(s, Held(pc).value.0)), pc.op)))
  }

  /** The other steps of a call: it takes effect only when it settles its answer, or when it comes to
      own an entry, whose value is then its answer. */
  ghost predicate GoesOn(s: State, t: Goroutine, o: Outcome) {
    var pc := PcOf(s, t);
    var pc' := PcOf(o.state, t);
    Pending(pc').None? && !pc'.Idle? ==>
      && !pc'.Broken?
      && Pending(pc).None?
      && (!pc.Idle? ==> !pc.Broken? && pc'.op == pc.op)
      && (Owned(pc').None? ==> o.effect.None? && Owned(pc).None?)
      && (Owned(pc').Some? && Owned(pc).Some? ==>
            o.effect.None? && Owned(pc') == Owned(pc) && Peek(o.state, Owned(pc).value) == Peek(s, Owned(pc).value))
      && (Owned(pc').Some? && Owned(pc).None? ==> o.effect == Some(Prior(Content(Peek(o.state, Owned(pc').value)))))
      && (Held(pc').Some? && Owned(pc').None? && Held(pc') != Held(pc) ==> !Nowhere(o.state, Held(pc').value.0))
  }

  ghost predicate Decided(s: State, t: Goroutine, o: Outcome) {
    && Decides(s, t, o)
    && GoesOn(s, t, o)
    && (PcOf(o.state, t).Idle? <==> PcOf(s, t).Return?)
  }

  lemma ReadFastDecides(s: State, t: Goroutine, c: Choice)
    requires Shape(s) && Local(s, t) && PcOf(s, t).ReadFast?
    ensures Decided(s, t, Apply(s, t, c))
  {
  }

  lemma RangeDecides(s: State, t: Goroutine, c: Choice)
    requires Shape(s) && Local(s, t) && PcOf(s, t).ReadLocked? && PcOf(s, t).op.Range?
    ensures Decided(s, t, Apply(s, t, c))
  {
  }

  lemma ReadLockedFindsSought(s: State, t: Goroutine, c: Choice)
    requires Shape(s) && Local(s, t) && PcOf(s, t).ReadLocked?
    requires Seeks(PcOf(s, t).op) && PcOf(s, t).op.key in s.read
    ensures Decided(s, t, Apply(s, t, c))
  {
  }

  lemma ReadLockedFinds(s: State, t: Goroutine, c: Choice)
    requires Shape(s) && Local(s, t) && PcOf(s, t).ReadLocked?
    requires (Stores(PcOf(s, t).op) || PcOf(s, t).op.CompareAndSwap?) && PcOf(s, t).op.key in s.read
    ensures Decided(s, t, Apply(s, t, c))
  {
  }

  lemma ReadLockedSeeks(s: State, t: Goroutine, c: Choice)
    requires Shape(s) && Local(s, t) && PcOf(s, t).ReadLocked?
    requires Seeks(PcOf(s, t).op) && PcOf(s, t).op.key !in s.read
    ensures Decided(s, t, Apply(s, t, c))
  {
  }

  lemma ReadLockedMisses(s: State, t: Goroutine, c: Choice)
    requires Shape(s) && Local(s, t) && PcOf(s, t).ReadLocked?
    requires (Stores(PcOf(s, t).op) || PcOf(s, t).op.CompareAndSwap?) && PcOf(s, t).op.key !in s.read
    ensures Decided(s, t, Apply(s, t, c))
  {
  }

  lemma ReadLockedDecides(s: State, t: Goroutine, c: Choice)
    requires Shape(s) && Local(s, t) && PcOf(s, t).ReadLocked?
    ensures Decided(s, t, Apply(s, t, c))
  {
    var op := PcOf(s, t).op;
    if op.Range? { RangeDecides(s, t, c); }
    else if Seeks(op) && op.key in s.read { ReadLockedFindsSought(s, t, c); }
    else if Seeks(op) { ReadLockedSeeks(s, t, c); }
    else if op.key in s.read { ReadLockedFinds(s, t, c); }
    else { ReadLockedMisses(s, t, c); }
  }

  lemma LookDirtyDecides(s: State, t: Goroutine, c: Choice)
    requires Shape(s) && Local(s, t) && PcOf(s, t).LookDirty?
    ensures Decided(s, t, Apply(s, t, c))
  {
  }

  lemma LoadDecides(s: State, t: Goroutine, c: Choice)
    requires Inv(s) && PcOf(s, t).TryEntry?
    ensures Decided(s, t, Apply(s, t, c))
  {
    assert Local(s, t);
    var TryEntry(op, e, source) := PcOf(s, t);
    if !Nowhere(s, e) {
      SomewhereIsLocated(s, e);
      assert Lookup(s, op.key) == Content(Peek(s, e));
    }
  }

  lemma TryCasDecides(s: State, t: Goroutine, c: Choice)
    requires Local(s, t) && PcOf(s, t).TryCas? && !Late(s, t)
    ensures Decided(s, t, Apply(s, t, c))
  {
  }

  lemma LockedCasDecides(s: State, t: Goroutine, c: Choice)
    requires Local(s, t) && PcOf(s, t).LockedCas?
    ensures Decided(s, t, Apply(s, t, c))
  {
  }

  lemma LockedStoreDecides(s: State, t: Goroutine, c: Choice)
    requires Inv(s) && PcOf(s, t).LockedEntry? && PcOf(s, t).op.Swap?
    ensures Decided(s, t, Apply(s, t, c))
  {
    assert Local(s, t);
  }

  lemma LockedLoadOrStoreDecides(s: State, t: Goroutine, c: Choice)
    requires Inv(s) && PcOf(s, t).LockedEntry? && PcOf(s, t).op.LoadOrStore?
    ensures Decided(s, t, Apply(s, t, c))
  {
    assert Local(s, t);
  }

  lemma LockedCompareDecides(s: State, t: Goroutine, c: Choice)
    requires Inv(s) && PcOf(s, t).LockedEntry? && PcOf(s, t).op.CompareAndSwap?
    ensures Decided(s, t, Apply(s, t, c))
  {
    assert Local(s, t);
  }

  lemma LockedEntryDecides(s: State, t: Goroutine, c: Choice)
    requires Inv(s) && PcOf(s, t).LockedEntry?
    ensures Decided(s, t, Apply(s, t, c))
  {
    assert Local(s, t);
    if PcOf(s, t).op.Swap? { LockedStoreDecides(s, t, c); }
    else if PcOf(s, t).op.LoadOrStore? { LockedLoadOrStoreDecides(s, t, c); }
    else { LockedCompareDecides(s, t, c); }
  }

  lemma InsertDecides(s: State, t: Goroutine, c: Choice)
    requires Inv(s) && PcOf(s, t).Insert?
    ensures Decided(s, t, Apply(s, t, c))
  {
    assert Local(s, t);
  }

  lemma MissDecides(s: State, t: Goroutine, c: Choice)
    requires Local(s, t) && (PcOf(s, t).Miss? || PcOf(s, t).Promote?)
    ensures Decided(s, t, Apply(s, t, c))
  {
  }

  lemma LettingGoDecides(s: State, t: Goroutine, c: Choice)
    requires Local(s, t) && (PcOf(s, t).ClearDirty? || PcOf(s, t).Unlock?)
    ensures Decided(s, t, Apply(s, t, c))
  {
  }

  lemma CopyingDecides(s: State, t: Goroutine, c: Choice)
    requires Shape(s) && Local(s, t) && (PcOf(s, t).Copy? || PcOf(s, t).Amend?)
    ensures Decided(s, t, Apply(s, t, c))
  {
  }

  lemma ProbingDecides(s: State, t: Goroutine, c: Choice)
    requires Shape(s) && Local(s, t) && (PcOf(s, t).Probe? || PcOf(s, t).Expunge?)
    ensures Decided(s, t, Apply(s, t, c))
  {
  }

  lemma PreparingDecides(s: State, t: Goroutine, c: Choice)
    requires Local(s, t)
    requires var pc := PcOf(s, t); pc.Idle? || pc.Lock? || pc.Unexpunge? || pc.Readd? || pc.Return?
    ensures Decided(s, t, Apply(s, t, c))
  {
  }

  lemma StepDecides(s: State, t: Goroutine, c: Choice)
    requires Inv(s) && Enabled(s, t, c) && !Late(s, t)
    ensures Decided(s, t, Apply(s, t, c))
  {
    assert Local(s, t);
    match PcOf(s, t)
    case ReadFast(_) => ReadFastDecides(s, t, c);
    case ReadLocked(_) => ReadLockedDecides(s, t, c);
    case LookDirty(_) => LookDirtyDecides(s, t, c);
    case TryEntry(_, _, _) => LoadDecides(s, t, c);
    case TryCas(_, _, _, _) => TryCasDecides(s, t, c);
    case LockedCas(_, _, _, _) => LockedCasDecides(s, t, c);
    case LockedEntry(_, _, _) => LockedEntryDecides(s, t, c);
    case Insert(_) => InsertDecides(s, t, c);
    case Miss(_, _) => MissDecides(s, t, c);
    case Promote(_, _) => MissDecides(s, t, c);
    case ClearDirty(_, _) => LettingGoDecides(s, t, c);
    case Unlock(_, _) => LettingGoDecides(s, t, c);
    case Copy(_, _) => CopyingDecides(s, t, c);
    case Probe(_, _, _) => ProbingDecides(s, t, c);
    case Expunge(_, _, _) => ProbingDecides(s, t, c);
    case Amend(_) => CopyingDecides(s, t, c);
    case _ => PreparingDecides(s, t, c);
  }

  // ---------------------------------------------------------------- one step further

  ghost predicate PastGrows(h: History, h': History) {
    h'.past == h.past + [Abs(h'.state)]
  }

  /** The observer's notes only grow, and only the call that moves can take effect. */
  ghost predicate Extends(h: History, t: Goroutine, h': History) {
    && PastGrows(h, h')
    && |h'.steps| == |h.steps| + 1 && h'.steps[..|h.steps|] == h.steps
    && (forall x :: x in h.took ==> x in h'.took && h'.took[x] == h.took[x])
    && (forall x :: x in h'.took && x !in h.took ==> t in h.began && x == h.began[t])
  }

  lemma Extended(h: History, t: Goroutine, c: Choice)
    requires Inv(h.state) && Enabled(h.state, t, c)
    requires CallSeen(h, t) && (t in h.began <==> !PcOf(h.state, t).Idle?)
    ensures Extends(h, t, Noted(h, t, c))
  {
    assert Local(h.state, t);
  }

  /** What was seen up to some moment stays seen. */
  lemma StaysSeen(h: History, h': History, call: nat, k: Key, v: Option<Value>)
    requires PastGrows(h, h') && Saw(h, call, k, v)
    ensures Saw(h', call, k, v)
  {
    var i :| call < i < |h.past| && Get(h.past[i], k) == v;
    assert h'.past[i] == h.past[i];
  }

  lemma StaysRead(h: History, h': History, call: nat, op: Op, answer: Answer, end: nat, end': nat)
    requires PastGrows(h, h') && ReadAtAMoment(h, call, op, answer, end) && end <= end'
    ensures ReadAtAMoment(h', call, op, answer, end')
  {
    var i :| call < i <= end && i < |h.past| && Reads(h.past[i], op, answer);
    assert h'.past[i] == h.past[i];
  }

  lemma StaysTaken(h: History, t: Goroutine, h': History, call: nat, op: Op, answer: Answer, end: nat, end': nat)
    requires Extends(h, t, h') && TookEffect(h, call, op, answer, end) && end <= end' <= |h'.steps|
    ensures TookEffect(h', call, op, answer, end')
  {
  }

  /** What is known of an entry that a call goes on holding. */
  lemma HoldingOn(h: History, t: Goroutine, h': History, call: nat, e: Entry)
    requires PastGrows(h, h') && call < |h.steps| && |h.past| == |h.steps| + 1
    requires h.past[|h.steps|] == Abs(h.state) && EntryEvolves(h.state, t, h'.state, e)
    requires Nowhere(h.state, e) ==> Saw(h, call, e.key, None) && Saw(h, call, e.key, Content(Peek(h.state, e)))
    ensures Nowhere(h'.state, e) ==> Saw(h', call, e.key, None) && Saw(h', call, e.key, Content(Peek(h'.state, e)))
  {
    var n := |h.steps|;
    if Nowhere(h.state, e) {
      StaysSeen(h, h', call, e.key, None);
      StaysSeen(h, h', call, e.key, Content(Peek(h.state, e)));
    } else if Nowhere(h'.state, e) {
      GetAbs(h.state, e.key);
      GetAbs(h'.state, e.key);
      assert h'.past[n] == h.past[n] && h'.past[n + 1] == Abs(h'.state);
      assert Get(h'.past[n], e.key) == Content(Peek(h'.state, e));
    }
  }

  /** The notes on an ordinary step of `t`. */
  ghost predicate Ordinary(h: History, t: Goroutine, o: Outcome, h': History) {
    && Extends(h, t, h') && h'.state == o.state
    && Decided(h.state, t, o) && OnlyMoves(h.state, t, o.state)
    && (t in h.began <==> !PcOf(h.state, t).Idle?)
    && (if o.effect.Some? then t in h.began && h'.took == h.took[h.began[t] := |h.steps|] else h'.took == h.took)
    && (forall u | u in h'.began && (u != t || t in h.began) :: u in h.began && h'.began[u] == h.began[u])
    && (forall u | u in h.began && t in h.began && u != t :: h.began[u] != h.began[t])
  }

  /** A call that holds an entry which no map leads to was made before the entry was taken out of `dirty`: the
      step that takes it out comes after the call, and no later step takes it out again. */
  lemma StaysBefore(h: History, t: Goroutine, o: Outcome, h': History, call: nat, e: Entry)
    requires Inv(h.state) && Ordinary(h, t, o, h') && call < |h.steps|
    requires Nowhere(h.state, e) ==> BeforeRemoval(h, call, e)
    ensures BeforeRemoval(h', call, e)
  {
    forall u | Owned(PcOf(h'.state, u)) == Some(e) && u in h'.began && h'.began[u] in h'.took
      ensures call < h'.took[h'.began[u]]
    {
      assert Local(h.state, u);
      if Owned(PcOf(h.state, u)) == Some(e) {
        assert Nowhere(h.state, e);
      }
    }
  }

  predicate Holds(pc: Pc, e: Entry) {
    Held(pc).Some? && Held(pc).value.0 == e
  }

  /** What was known of when the call was made is known still. */
  ghost predicate HeldBefore(h: History, h': History, call: nat, pc: Pc) {
    Held(pc).Some? && (Nowhere(h.state, Held(pc).value.0) ==> BeforeRemoval(h, call, Held(pc).value.0)) ==>
      BeforeRemoval(h', call, Held(pc).value.0)
  }

  lemma OwnedStaysSeen(h: History, t: Goroutine, h': History, call: nat, op: Op, content: Option<Value>)
    requires Extends(h, t, h') && OwnedSeen(h, call, op, content)
    requires call in h'.took ==> call in h.took
    ensures OwnedSeen(h', call, op, content)
  {
    if TookEffect(h, call, op, Prior(content), |h.steps|) {
      StaysTaken(h, t, h', call, op, Prior(content), |h.steps|, |h'.steps|);
    } else {
      StaysRead(h, h', call, op, Prior(None), |h.steps|, |h'.steps|);
    }
  }

  /** What is known of a call survives the steps of the other goroutines. */
  lemma OtherCallSeen(h: History, t: Goroutine, h': History, u: Goroutine)
    requires Extends(h, t, h') && |h.past| == |h.steps| + 1 && h.past[|h.steps|] == Abs(h.state)
    requires Local(h.state, u) && CallSeen(h, u) && u in h.began && u in h'.began && h'.began[u] == h.began[u]
    requires t in h.began ==> h.began[u] != h.began[t]
    requires PcOf(h'.state, u) == PcOf(h.state, u)
    requires Evolves(h.state, t, h'.state)
    requires forall e :: Owned(PcOf(h.state, u)) == Some(e) ==> Peek(h'.state, e) == Peek(h.state, e)
    requires HeldBefore(h, h', h.began[u], PcOf(h.state, u))
    ensures CallSeen(h', u)
  {
    var call := h.began[u];
    var pc := PcOf(h.state, u);
    assert call in h'.took <==> call in h.took;
    if Held(pc).Some? && Owned(pc).None? {
      HoldingOn(h, t, h', call, Held(pc).value.0);
    }
    if Pending(pc).Some? {
      if call in h.took {
        StaysTaken(h, t, h', call, pc.op, Pending(pc).value, |h.steps|, |h'.steps|);
      } else {
        StaysRead(h, h', call, pc.op, Pending(pc).value, |h.steps|, |h'.steps|);
      }
    } else if Owned(pc).Some? {
      OwnedStaysSeen(h, t, h', call, pc.op, Content(Peek(h.state, Owned(pc).value)));
    }
  }

  lemma CompletedStays(h: History, t: Goroutine, h': History, d: Completed)
    requires Extends(h, t, h') && Linearized(h, d) && (t in h.began ==> d.call != h.began[t])
    ensures Linearized(h', d)
  {
    if d.call in h.took {
      StaysTaken(h, t, h', d.call, d.op, d.answer, d.ended, d.ended);
    } else {
      StaysRead(h, h', d.call, d.op, d.answer, d.ended, d.ended);
    }
  }

  lemma StoryGoesOn(h: History, t: Goroutine, h': History, taken: Option<Taken>)
    requires PlainMapStory(h) && Extends(h, t, h') && h'.steps[|h.steps|] == taken
    requires StepLegal(Abs(h.state), taken, Abs(h'.state))
    requires taken.Some? ==> taken.value.call in h'.took && h'.took[taken.value.call] == |h.steps|
    ensures PlainMapStory(h')
  {
  }

  // ---------------------------------------------------------------- the goroutine that moves

  /** The notes of a step of `t` that belongs to a call already made. */
  ghost predicate Notes(h: History, t: Goroutine, o: Outcome, h': History) {
    && Extends(h, t, h') && h'.state == o.state
    && |h.past| == |h.steps| + 1 && h.past[|h.steps|] == Abs(h.state)
    && t in h.began && CallSeen(h, t) && Decided(h.state, t, o)
    && (if o.effect.Some?
        then h.began[t] in h'.took && h'.took[h.began[t]] == |h.steps|
             && h'.steps[|h.steps|] == Some(Taken(h.began[t], PcOf(h.state, t).op, o.effect.value))
        else h'.took == h.took)
  }

  lemma SettlesNow(h: History, t: Goroutine, o: Outcome, h': History)
    requires Notes(h, t, o, h') && Pending(PcOf(o.state, t)).Some?
    ensures EffectSeen(h', h.began[t], PcOf(o.state, t))
  {
    var call, n := h.began[t], |h.steps|;
    var pc := PcOf(h.state, t);
    var a := Pending(PcOf(o.state, t)).value;
    assert h'.past[n] == Abs(h.state);
    GetAbs(h.state, pc.op.key);
    if Pending(pc).Some? {
      if call in h.took { StaysTaken(h, t, h', call, pc.op, a, n, n + 1); }
      else { StaysRead(h, h', call, pc.op, a, n, n + 1); }
    } else if o.effect.Some? {
      assert TookEffect(h', call, pc.op, a, n + 1);
    } else if Owned(pc).Some? {
      OwnedStaysSeen(h, t, h', call, pc.op, Content(Peek(h.state, Owned(pc).value)));
    } else if a == Reply(Lookup(h.state, pc.op.key), pc.op) && Kept(Lookup(h.state, pc.op.key), pc.op) {
      assert Reads(h'.past[n], pc.op, a);
    } else {
      var v := Content(Peek(h.state, Held(pc).value.0));
      StaysSeen(h, h', call, pc.op.key, v);
      var i :| call < i < |h'.past| && Get(h'.past[i], pc.op.key) == v;
      assert Reads(h'.past[i], pc.op, a);
    }
  }

  ghost predicate HeldNow(h: History, h': History, call: nat, pc: Pc, pc': Pc) {
    Held(pc').Some? && Held(pc') == Held(pc) ==> HeldBefore(h, h', call, pc)
  }

  lemma OwnCallSeen(h: History, t: Goroutine, o: Outcome, h': History)
    requires Notes(h, t, o, h') && Local(h.state, t) && Evolves(h.state, t, o.state)
    requires t in h'.began ==> !PcOf(h.state, t).Return? && h'.began[t] == h.began[t]
    requires HeldNow(h, h', h.began[t], PcOf(h.state, t), PcOf(o.state, t))
    ensures CallSeen(h', t)
  {
    if t in h'.began {
      var call := h.began[t];
      var pc, pc' := PcOf(h.state, t), PcOf(o.state, t);
      if Pending(pc').Some? {
        SettlesNow(h, t, o, h');
      } else {
        if Held(pc').Some? && Owned(pc').None? && Held(pc') == Held(pc) {
          HoldingOn(h, t, h', call, Held(pc).value.0);
        }
        if Owned(pc').Some? && Owned(pc).Some? {
          OwnedStaysSeen(h, t, h', call, pc.op, Content(Peek(h.state, Owned(pc).value)));
        }
      }
    }
  }

  /** A call that returns has been answered as a plain map would have answered it. */
  lemma ReturnsLinearized(h: History, t: Goroutine, h': History)
    requires PcOf(h.state, t).Return? && t in h.began && CallSeen(h, t) && Extends(h, t, h') && h'.took == h.took
    ensures Linearized(h', Completed(h.began[t], PcOf(h.state, t).op, PcOf(h.state, t).answer, |h.steps|))
  {
    var call := h.began[t];
    var op, a := PcOf(h.state, t).op, PcOf(h.state, t).answer;
    if call in h.took { StaysTaken(h, t, h', call, op, a, |h.steps|, |h.steps|); }
    else { StaysRead(h, h', call, op, a, |h.steps|, |h.steps|); }
  }

  ghost predicate NextBooks(h: History, t: Goroutine, o: Outcome, h': History, op: Op) {
    && Bookkeeping(h) && CallSeen(h, t) && (forall u :: CallSeen(h, u)) && OnlyMoves(h.state, t, o.state)
    && (PcOf(o.state, t).Idle? <==> PcOf(h.state, t).Return?)
    && h'.state == o.state && |h'.steps| == |h.steps| + 1
    && h'.began == (if PcOf(h.state, t).Idle? then h.began[t := |h.steps|]
                    else if PcOf(h.state, t).Return? then h.began - {t} else h.began)
    && h'.took == (if o.effect.Some? then h.took[CallOf(h, t) := |h.steps|] else h.took)
    && h'.done == (if PcOf(h.state, t).Return?
                   then h.done + [Completed(CallOf(h, t), op, PcOf(h.state, t).answer, |h.steps|)] else h.done)
    && (o.effect.Some? ==> t in h.began)
  }

  lemma StillKnown(h: History, t: Goroutine, h': History, call: nat)
    requires Running(h, call) || Finished(h, call)
    requires forall u :: u in h.began && u != t ==> u in h'.began && h'.began[u] == h.began[u]
    requires t in h.began ==> (t in h'.began && h'.began[t] == h.began[t]) || Finished(h', h.began[t])
    requires h.done <= h'.done
    ensures Running(h', call) || Finished(h', call)
  {
  }

  lemma StillAccountedFor(h: History, t: Goroutine, o: Outcome, h': History, op: Op, x: nat)
    requires NextBooks(h, t, o, h', op) && x in h'.took
    ensures Running(h', x) || Finished(h', x)
  {
    if PcOf(h.state, t).Return? { assert h'.done[|h.done|] in h'.done; }
    if t in h.began && x == h.began[t] {
      assert t in h'.began ==> Running(h', x);
    } else {
      StillKnown(h, t, h', x);
    }
  }

  lemma Books(h: History, t: Goroutine, o: Outcome, h': History, op: Op)
    requires NextBooks(h, t, o, h', op)
    ensures Bookkeeping(h')
  {
    forall u, v | u in h'.began && v in h'.began && h'.began[u] == h'.began[v] ensures u == v {
      assert CallSeen(h, u) && CallSeen(h, v);
    }
    forall d, u | d in h'.done && u in h'.began ensures d.call != h'.began[u] {
      assert CallSeen(h, u);
    }
    forall i, j | 0 <= i < j < |h'.done| ensures h'.done[i].call != h'.done[j].call {
      assert h'.done[i] in h.done;
    }
    forall x | x in h'.took ensures Running(h', x) || Finished(h', x) {
      StillAccountedFor(h, t, o, h', op, x);
    }
  }

  lemma BooksKept(h: History, t: Goroutine, c: Choice)
    requires Observed(h) && Enabled(h.state, t, c) && !Late(h.state, t)
    ensures Bookkeeping(Noted(h, t, c))
  {
    EveryStep(h.state, t, c);
    StepDecides(h.state, t, c);
    assert CallSeen(h, t);
    Books(h, t, Apply(h.state, t, c), Noted(h, t, c), OpOf(PcOf(h.state, t), c));
  }

  /** Completed calls stay linearized, and the one that returns now is. */
  lemma DoneKept(h: History, t: Goroutine, c: Choice)
    requires Observed(h) && Enabled(h.state, t, c) && !Late(h.state, t)
    ensures forall d | d in Noted(h, t, c).done :: Linearized(Noted(h, t, c), d)
  {
    var h' := Noted(h, t, c);
    StepDecides(h.state, t, c);
    assert Local(h.state, t) && CallSeen(h, t);
    Extended(h, t, c);
    forall d | d in h'.done ensures Linearized(h', d) {
      if d in h.done { CompletedStays(h, t, h', d); }
      else { ReturnsLinearized(h, t, h'); }
    }
  }

  lemma StepStory(h: History, t: Goroutine, c: Choice)
    requires Observed(h) && Enabled(h.state, t, c) && !Late(h.state, t)
    ensures PlainMapStory(Noted(h, t, c))
  {
    var o := Apply(h.state, t, c);
    var op := OpOf(PcOf(h.state, t), c);
    EveryStep(h.state, t, c);
    assert CallSeen(h, t);
    Extended(h, t, c);
    RefinesStory(h.state, o.state, CallOf(h, t), op, o.effect);
    StoryGoesOn(h, t, Noted(h, t, c), if o.effect.Some? then Some(Taken(CallOf(h, t), op, o.effect.value)) else None);
  }

  lemma IdleTakesNothing(s: State, t: Goroutine, c: Choice)
    ensures PcOf(s, t).Idle? ==> Apply(s, t, c).effect == None
  {
  }

  lemma OrdinaryNotes(h: History, t: Goroutine, c: Choice)
    requires Observed(h) && Enabled(h.state, t, c) && !Late(h.state, t)
    ensures Ordinary(h, t, Apply(h.state, t, c), Noted(h, t, c))
  {
    EveryStep(h.state, t, c);
    StepDecides(h.state, t, c);
    assert CallSeen(h, t);
    Extended(h, t, c);
    IdleTakesNothing(h.state, t, c);
  }

  lemma OwnNextCallSeen(h: History, t: Goroutine, c: Choice)
    requires Observed(h) && Enabled(h.state, t, c) && !Late(h.state, t)
    ensures CallSeen(Noted(h, t, c), t)
  {
    var s := h.state;
    var o := Apply(s, t, c);
    EveryStep(s, t, c);
    StepDecides(s, t, c);
    assert Local(s, t) && CallSeen(h, t);
    Extended(h, t, c);
    if t in h.began {
      OrdinaryNotes(h, t, c);
      forall e | Holds(PcOf(s, t), e) && (Nowhere(s, e) ==> BeforeRemoval(h, h.began[t], e))
        ensures BeforeRemoval(Noted(h, t, c), h.began[t], e)
      {
        StaysBefore(h, t, o, Noted(h, t, c), h.began[t], e);
      }
      OwnCallSeen(h, t, o, Noted(h, t, c));
    }
  }

  lemma OtherNextCallSeen(h: History, t: Goroutine, c: Choice, u: Goroutine)
    requires Observed(h) && Enabled(h.state, t, c) && u != t && !Late(h.state, t)
    ensures CallSeen(Noted(h, t, c), u)
  {
    var s := h.state;
    var o := Apply(s, t, c);
    EveryStep(s, t, c);
    StepDecides(s, t, c);
    assert Local(s, t) && Local(s, u) && CallSeen(h, t) && CallSeen(h, u);
    Extended(h, t, c);
    forall e | Owned(PcOf(s, u)) == Some(e) ensures Peek(o.state, e) == Peek(s, e) {
      OwnedUntouched(s, t, o.state, u, e);
    }
    if u in h.began {
      OrdinaryNotes(h, t, c);
      forall e | Holds(PcOf(s, u), e) && (Nowhere(s, e) ==> BeforeRemoval(h, h.began[u], e))
        ensures BeforeRemoval(Noted(h, t, c), h.began[u], e)
      {
        StaysBefore(h, t, o, Noted(h, t, c), h.began[u], e);
      }
      OtherCallSeen(h, t, Noted(h, t, c), u);
    }
  }

  lemma NextCallSeen(h: History, t: Goroutine, c: Choice, u: Goroutine)
    requires Observed(h) && Enabled(h.state, t, c) && !Late(h.state, t)
    ensures CallSeen(Noted(h, t, c), u)
  {
    if u == t { OwnNextCallSeen(h, t, c); } else { OtherNextCallSeen(h, t, c, u); }
  }

  /** Everything observed goes on holding after an ordinary step. */
  lemma NotedKept(h: History, t: Goroutine, c: Choice)
    requires Observed(h) && Enabled(h.state, t, c) && !Late(h.state, t)
    ensures Observed(Noted(h, t, c))
  {
    var h' := Noted(h, t, c);
    InvariantKept(h.state, t, c);
    LooseKept(h.state, t, c);
    BooksKept(h, t, c);
    StepStory(h, t, c);
    forall u ensures CallSeen(h', u) {
      NextCallSeen(h, t, c, u);
    }
    DoneKept(h, t, c);
  }

  // ---------------------------------------------------------------- a removal credited to another call

  /** Some call was credited with taking out the entry that is being emptied. */
  lemma SomebodyForestalled(h: History, t: Goroutine) returns (u: Goroutine)
    requires Observed(h) && Late(h.state, t)
    ensures Forestalls(h, t, u)
  {
    assert Local(h.state, t);
    var e := PcOf(h.state, t).entry;
    u :| Owned(PcOf(h.state, u)) == Some(e);
    assert Local(h.state, u) && CallSeen(h, u);
  }

  /** What is known of the two calls: that of `u` removed the value in a step after the call of `t` was made. */
  ghost predicate Foreknown(h: History, t: Goroutine, u: Goroutine) {
    && Forestalls(h, t, u) && t in h.began && t != u && h.began[t] != h.began[u] && h.began[t] !in h.took
    && var op, other, i := PcOf(h.state, t).op, PcOf(h.state, u).op, h.took[h.began[u]];
      && op.CompareAndDelete? && other.LoadAndDelete? && other.key == op.key
      && h.began[t] < i && h.began[u] < i
      && h.steps[i] == Some(Taken(h.began[u], other, Prior(Some(op.expected))))
      && PcOf(h.state, t).seen.Boxed? && PcOf(h.state, t).seen.value == op.expected
  }

  lemma ForestallingIsForeknown(h: History, t: Goroutine, u: Goroutine)
    requires Observed(h) && Forestalls(h, t, u)
    ensures Foreknown(h, t, u)
  {
    assert Local(h.state, t) && Local(h.state, u) && CallSeen(h, t) && CallSeen(h, u);
  }

  /** The moments before and after that removal. */
  lemma RemovedThen(h: History, t: Goroutine, u: Goroutine)
    requires PlainMapStory(h) && Foreknown(h, t, u)
    ensures var op, i := PcOf(h.state, t).op, h.took[h.began[u]];
            && i + 1 < |h.past|
            && Get(h.past[i], op.key) == Some(op.expected) && h.past[i + 1] == Put(h.past[i], op.key, None)
  {
    var i := h.took[h.began[u]];
    assert StepLegal(h.past[i], h.steps[i], h.past[i + 1]);
  }

  /** The step itself leaves the abstract map and all other calls alone. */
  ghost predicate Quietly(h: History, t: Goroutine, c: Choice, u: Goroutine)
    requires Foreknown(h, t, u)
  {
    var o := Apply(h.state, t, c);
    && o.effect == None && Abs(o.state) == Abs(h.state)
    && PcOf(o.state, t) == Return(PcOf(h.state, t).op, Swapped(true))
    && (forall x | x != t :: PcOf(o.state, x) == PcOf(h.state, x))
    && o.state.read == h.state.read && o.state.dirty == h.state.dirty
    && Peek(o.state, PcOf(h.state, t).entry) == Nil
    && (forall e | e != PcOf(h.state, t).entry :: Peek(o.state, e) == Peek(h.state, e))
  }

  lemma SameAbs(s: State, s': State, op: Op)
    requires Refines(s, s', op, None)
    ensures Abs(s') == Abs(s)
  {
    RefinesStory(s, s', 0, op, None);
  }

  lemma LateIsQuiet(h: History, t: Goroutine, c: Choice, u: Goroutine)
    requires Observed(h) && Enabled(h.state, t, c) && Foreknown(h, t, u)
    ensures Quietly(h, t, c, u)
  {
    assert Local(h.state, t);
    EveryStep(h.state, t, c);
    SameAbs(h.state, Apply(h.state, t, c).state, PcOf(h.state, t).op);
  }

  lemma CreditedStory(h: History, t: Goroutine, c: Choice, u: Goroutine)
    requires PlainMapStory(h) && Foreknown(h, t, u) && Quietly(h, t, c, u)
    ensures PlainMapStory(Credited(h, t, c, u))
  {
    var h', i := Credited(h, t, c, u), h.took[h.began[u]];
    RemovedThen(h, t, u);
    forall j | 0 <= j < |h'.steps| ensures StepLegal(h'.past[j], h'.steps[j], h'.past[j + 1]) {
      if j < |h.steps| && j != i {
        assert StepLegal(h.past[j], h.steps[j], h.past[j + 1]);
      }
    }
  }

  lemma CreditedBooks(h: History, t: Goroutine, c: Choice, u: Goroutine)
    requires Bookkeeping(h) && Foreknown(h, t, u) && Quietly(h, t, c, u)
    ensures Bookkeeping(Credited(h, t, c, u))
  {
    var h' := Credited(h, t, c, u);
    forall x | x in h'.took ensures Running(h', x) || Finished(h', x) {
      if x != h.began[t] {
        assert Running(h, x) || Finished(h, x);
      }
    }
  }

  /** Calls that took effect in other steps still did. */
  lemma StaysTakenAnyway(h: History, t: Goroutine, c: Choice, u: Goroutine, call: nat, op: Op, answer: Answer, end: nat,
                         end': nat)
    requires PlainMapStory(h) && Foreknown(h, t, u) && TookEffect(h, call, op, answer, end) && call != h.began[u]
    requires end <= end' <= |h.steps| + 1
    ensures TookEffect(Credited(h, t, c, u), call, op, answer, end')
  {
  }

  lemma CreditedDone(h: History, t: Goroutine, c: Choice, u: Goroutine, d: Completed)
    requires PlainMapStory(h) && Foreknown(h, t, u) && Linearized(h, d)
    requires d.call != h.began[t] && d.call != h.began[u]
    ensures Linearized(Credited(h, t, c, u), d)
  {
    if d.call in h.took { StaysTakenAnyway(h, t, c, u, d.call, d.op, d.answer, d.ended, d.ended); }
    else { StaysRead(h, Credited(h, t, c, u), d.call, d.op, d.answer, d.ended, d.ended); }
  }

  /** The call that is forestalled finds the key absent from the moment after the removal. */
  lemma ForestalledSeen(h: History, t: Goroutine, c: Choice, u: Goroutine)
    requires PlainMapStory(h) && Foreknown(h, t, u) && Quietly(h, t, c, u) && CallSeen(h, u)
    ensures CallSeen(Credited(h, t, c, u), u)
  {
    var h', i := Credited(h, t, c, u), h.took[h.began[u]];
    var op := PcOf(h.state, u).op;
    RemovedThen(h, t, u);
    assert h'.past[i + 1] == h.past[i + 1];
    assert Reads(h'.past[i + 1], op, Prior(None));
    assert ReadAtAMoment(h', h.began[u], op, Prior(None), |h'.steps|);
  }

  lemma StaysBeforeAnyway(h: History, t: Goroutine, c: Choice, u: Goroutine, call: nat, e: Entry)
    requires Bookkeeping(h) && Foreknown(h, t, u) && Quietly(h, t, c, u) && BeforeRemoval(h, call, e)
    ensures BeforeRemoval(Credited(h, t, c, u), call, e)
  {
    var h' := Credited(h, t, c, u);
    forall w | Owned(PcOf(h'.state, w)) == Some(e) && w in h'.began && h'.began[w] in h'.took
      ensures call < h'.took[h'.began[w]]
    {
      assert w != t && w != u;
    }
  }

  lemma BystanderHolds(h: History, t: Goroutine, c: Choice, u: Goroutine, x: Goroutine, e: Entry)
    requires PlainMapStory(h) && Bookkeeping(h) && Foreknown(h, t, u) && Quietly(h, t, c, u)
    requires x in h.began && CallSeen(h, x) && EntryEvolves(h.state, t, Apply(h.state, t, c).state, e)
    requires Held(PcOf(h.state, x)).Some? && Held(PcOf(h.state, x)).value.0 == e && e.key == PcOf(h.state, x).op.key
    ensures HeldSeen(Credited(h, t, c, u), h.began[x], PcOf(h.state, x))
  {
    var h', call, pc := Credited(h, t, c, u), h.began[x], PcOf(h.state, x);
    if Owned(pc).None? && Nowhere(h'.state, e) {
      assert Nowhere(h.state, e);
      HoldingOn(h, t, h', call, e);
      StaysBeforeAnyway(h, t, c, u, call, e);
    }
  }

  lemma BystanderSettled(h: History, t: Goroutine, c: Choice, u: Goroutine, x: Goroutine)
    requires PlainMapStory(h) && Bookkeeping(h) && Foreknown(h, t, u) && Quietly(h, t, c, u)
    requires x != t && x != u && x in h.began && CallSeen(h, x)
    requires Owned(PcOf(h.state, x)) != Some(PcOf(h.state, t).entry)
    ensures EffectSeen(Credited(h, t, c, u), h.began[x], PcOf(h.state, x))
  {
    var h' := Credited(h, t, c, u);
    var call, pc, n := h.began[x], PcOf(h.state, x), |h.steps|;
    if Pending(pc).Some? {
      if call in h.took { StaysTakenAnyway(h, t, c, u, call, pc.op, Pending(pc).value, n, n + 1); }
      else { StaysRead(h, h', call, pc.op, Pending(pc).value, n, n + 1); }
    } else if Owned(pc).Some? {
      var content := Content(Peek(h.state, Owned(pc).value));
      if call in h.took { StaysTakenAnyway(h, t, c, u, call, pc.op, Prior(content), n, n + 1); }
      else { StaysRead(h, h', call, pc.op, Prior(None), n, n + 1); }
    }
  }

  lemma BystanderSeen(h: History, t: Goroutine, c: Choice, u: Goroutine, x: Goroutine)
    requires Observed(h) && Enabled(h.state, t, c) && Foreknown(h, t, u) && Quietly(h, t, c, u) && x != t && x != u
    ensures CallSeen(Credited(h, t, c, u), x)
  {
    if x in h.began {
      var pc := PcOf(h.state, x);
      assert CallSeen(h, x) && Local(h.state, x);
      if Held(pc).Some? {
        EveryStep(h.state, t, c);
        BystanderHolds(h, t, c, u, x, Held(pc).value.0);
      }
      assert Owned(pc) == Owned(PcOf(h.state, u)) ==> Owned(pc).None?;
      BystanderSettled(h, t, c, u, x);
    }
  }

  lemma CreditedCallSeen(h: History, t: Goroutine, c: Choice, u: Goroutine)
    requires Foreknown(h, t, u) && Quietly(h, t, c, u)
    ensures CallSeen(Credited(h, t, c, u), t)
  {
    var h', op := Credited(h, t, c, u), PcOf(h.state, t).op;
    assert TookEffect(h', h.began[t], op, Swapped(true), |h'.steps|);
  }

  lemma CreditedSeen(h: History, t: Goroutine, c: Choice, u: Goroutine, x: Goroutine)
    requires Observed(h) && Enabled(h.state, t, c) && Foreknown(h, t, u) && Quietly(h, t, c, u)
    ensures CallSeen(Credited(h, t, c, u), x)
  {
    if x == u {
      assert CallSeen(h, u);
      ForestalledSeen(h, t, c, u);
    } else if x == t {
      CreditedCallSeen(h, t, c, u);
    } else {
      BystanderSeen(h, t, c, u, x);
    }
  }

  /** Everything observed goes on holding, with the removal credited to the call that got the value. */
  lemma CreditedKept(h: History, t: Goroutine, c: Choice, u: Goroutine)
    requires Observed(h) && Enabled(h.state, t, c) && Forestalls(h, t, u)
    ensures Observed(Credited(h, t, c, u))
  {
    var h' := Credited(h, t, c, u);
    ForestallingIsForeknown(h, t, u);
    LateIsQuiet(h, t, c, u);
    InvariantKept(h.state, t, c);
    LooseKept(h.state, t, c);
    CreditedStory(h, t, c, u);
    CreditedBooks(h, t, c, u);
    forall x ensures CallSeen(h', x) { CreditedSeen(h, t, c, u, x); }
    forall d | d in h'.done ensures Linearized(h', d) { CreditedDone(h, t, c, u, d); }
  }

  // ---------------------------------------------------------------- every moment of every run

  /** Everything observed goes on holding after one more step. */
  lemma ObservedKept(h: History, t: Goroutine, c: Choice)
    requires Observed(h) && Enabled(h.state, t, c)
    ensures Observed(Record(h, t, c))
  {
    if Late(h.state, t) {
      var w := SomebodyForestalled(h, t);
      var u :| Forestalls(h, t, u) && Record(h, t, c) == Credited(h, t, c, u);
      CreditedKept(h, t, c, u);
    } else {
      NotedKept(h, t, c);
    }
  }

  lemma ObservedInitially(h: History)
    requires Starts(h)
    ensures Observed(h)
  {
    InvariantInitially(h.state);
    assert Abs(h.state) == map[];
  }

  lemma {:induction false} ObservedAlways(hs: seq<History>, n: nat)
    requires Run(hs) && n < |hs|
    ensures Observed(hs[n])
  {
    if n == 0 {
      ObservedInitially(hs[0]);
    } else {
      ObservedAlways(hs, n - 1);
      assert Next(hs[n - 1], hs[n - 1 + 1]);
      var t, c :| Enabled(hs[n - 1].state, t, c) && hs[n] == Record(hs[n - 1], t, c);
      ObservedKept(hs[n - 1], t, c);
    }
  }
}
