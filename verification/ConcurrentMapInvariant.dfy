/** What every step of the concurrent map keeps: the discipline between `read`, `dirty`, `amended`,
    the entry pointers and `mu` that syncmap/syncmap.go states in its comments. */
module ConcurrentMapInvariant {
  import opened Wrappers
  import opened ConcurrentMap

  // ---------------------------------------------------------------- where goroutines stand

  predicate InLock(pc: Pc) {
    match pc
    case Idle => false
    case ReadFast(_) => false
    case TryEntry(_, _, _) => false
    case TryCas(_, _, _, _) => false
    case Lock(_) => false
    case Return(_, _) => false
    case Broken => false
    case _ => true
  }

  /** Where the holder of `mu` stands. */
  function Holder(s: State): Pc {
    if s.mu.Some? then PcOf(s, s.mu.value) else Idle
  }

  predicate Copying(pc: Pc) {
    pc.Copy? || pc.Probe? || pc.Expunge?
  }

  /** The entry a goroutine holds on to while it does not hold `mu`, or will when it lets go of it. */
  function Held(pc: Pc): Option<(Entry, Source)> {
    match pc
    case TryEntry(_, e, source) => Some((e, source))
    case TryCas(_, e, source, _) => Some((e, source))
    case Miss(_, ToEntry(e, source)) => Some((e, source))
    case Promote(_, ToEntry(e, source)) => Some((e, source))
    case ClearDirty(_, ToEntry(e, source)) => Some((e, source))
    case Unlock(_, ToEntry(e, source)) => Some((e, source))
    case _ => None
  }

  /** The entry that a LoadAndDelete removed from `dirty` and has still to empty. */
  function Owned(pc: Pc): Option<Entry> {
    var held := Held(pc);
    if held.Some? && held.value.1.FromDirty? && pc.op.LoadAndDelete? then Some(held.value.0) else None
  }

  // ---------------------------------------------------------------- the shared fields

  ghost predicate Mapped(s: State, m: map<Key, Entry>) {
    forall k :: k in m ==> m[k].key == k && m[k] in s.heap
  }

  ghost predicate DirtyLive(s: State) {
    forall k :: k in DirtyMap(s) ==> Peek(s, DirtyMap(s)[k]) != Expunged
  }

  ghost predicate Agree(s: State) {
    forall k :: k in s.read && k in DirtyMap(s) ==> s.read[k] == DirtyMap(s)[k]
  }

  ghost predicate ExpungedOutside(s: State) {
    forall k :: k in s.read && Peek(s, s.read[k]) == Expunged ==> s.dirty.Some? && k !in s.dirty.value
  }

  /** Keys the holder of `mu` has still to bring into `dirty`. */
  predicate Owed(pc: Pc, k: Key) {
    (pc.Readd? && pc.op.key == k) || (Copying(pc) && k in pc.todo)
  }

  ghost predicate Covered(s: State) {
    forall k :: k in s.read && s.dirty.Some? && Peek(s, s.read[k]) != Expunged && !Owed(Holder(s), k) ==>
                  k in s.dirty.value
  }

  ghost predicate FlagsOk(s: State) {
    var pc := Holder(s);
    if Copying(pc) || pc.Amend? then s.dirty.Some? && !s.amended && s.dirty.value.Keys <= s.read.Keys
    else if pc.ClearDirty? then s.dirty == Some(s.read) && !s.amended
    else s.dirty.Some? <==> s.amended
  }

  ghost predicate MissesOk(s: State) {
    var pc := Holder(s);
    if pc.Miss? || pc.Promote? || pc.ClearDirty? then true
    else if Copying(pc) || pc.Amend? then s.misses == 0
    else if pc.Insert? then s.misses <= |DirtyMap(s)|
    else if s.dirty.Some? then s.misses < |s.dirty.value|
    else s.misses == 0
  }

  ghost predicate Shape(s: State) {
    && Mapped(s, s.read)
    && Mapped(s, DirtyMap(s))
    && DirtyLive(s)
    && Agree(s)
    && ExpungedOutside(s)
    && Covered(s)
    && FlagsOk(s)
    && MissesOk(s)
  }

  // ---------------------------------------------------------------- one entry, one goroutine

  predicate HeldOk(s: State, op: Op, e: Entry, source: Source) {
    && e.key == op.key && e in s.heap
    && match source
       case FromRead => Current(s, e) || (Nowhere(s, e) && Peek(s, e) == Expunged)
       case FromDirty =>
         op.Load? || op.Range? || op.CompareAndDelete? || (op.LoadAndDelete? && Nowhere(s, e) && Peek(s, e) != Expunged)
  }

  /** What a compare-and-swap may have seen when it was prepared. */
  predicate Expects(op: Op, seen: Pointer) {
    match op
    case Load(_) => false
    case Range(_) => false
    case Swap(_, _) => seen != Expunged
    case LoadOrStore(_, _) => seen == Nil
    case LoadAndDelete(_) => seen.Boxed?
    case CompareAndSwap(_, expected, _) => Content(seen) == Some(expected)
    case CompareAndDelete(_, expected) => Content(seen) == Some(expected)
  }

  /** The entry an operation works on under `mu` stands for its key and is not expunged. */
  predicate LockedOk(s: State, op: Op, e: Entry) {
    && Locate(s, op.key) == Some(e)
    && (Stores(op) || op.CompareAndSwap?)
    && (Stores(op) ==> Peek(s, e) != Expunged)
  }

  predicate Position(s: State, pc: Pc) {
    match pc
    case TryEntry(op, _, source) => source.FromDirty? ==> Seeks(op) || op.Range?
    case TryCas(op, _, source, seen) =>
      Expects(op, seen) && (source.FromDirty? ==> op.LoadAndDelete? || op.CompareAndDelete?)
    case LookDirty(op) => Seeks(op) && op.key !in s.read && s.amended
    case Miss(op, _) => s.amended && !op.Range?
    case Promote(_, _) => s.amended
    case Unexpunge(op, e) => Stores(op) && op.key in s.read && s.read[op.key] == e
    case Readd(op, e) =>
      && Stores(op) && op.key in s.read && s.read[op.key] == e
      && Peek(s, e) != Expunged && s.dirty.Some? && op.key !in s.dirty.value
    case LockedEntry(op, e, missed) => LockedOk(s, op, e) && (missed ==> s.amended)
    case LockedCas(op, e, seen, missed) =>
      LockedOk(s, op, e) && (missed ==> s.amended) && !op.Swap? && Expects(op, seen)
    case Copy(op, todo) => Stores(op) && op.key !in s.read && todo <= s.read.Keys && todo !! DirtyMap(s).Keys
    case Probe(op, todo, k) =>
      Stores(op) && op.key !in s.read && todo <= s.read.Keys && todo !! DirtyMap(s).Keys && k in todo
    case Expunge(op, todo, k) =>
      Stores(op) && op.key !in s.read && todo <= s.read.Keys && todo !! DirtyMap(s).Keys && k in todo
    case Amend(op) => Stores(op) && op.key !in s.read
    case Insert(op) => Stores(op) && op.key !in s.read && op.key !in DirtyMap(s) && s.amended
    case Unlock(op, _) => op.Range? ==> !s.amended
    case Broken => false
    case _ => true
  }

  predicate Local(s: State, t: Goroutine) {
    var pc := PcOf(s, t);
    && (InLock(pc) <==> s.mu == Some(t))
    && Position(s, pc)
    && (Held(pc).Some? ==> HeldOk(s, pc.op, Held(pc).value.0, Held(pc).value.1))
  }

  ghost predicate OneOwner(s: State) {
    forall t, u :: Owned(PcOf(s, t)).Some? && Owned(PcOf(s, t)) == Owned(PcOf(s, u)) ==> t == u
  }

  ghost predicate Inv(s: State) {
    && Shape(s)
    && (forall t :: Local(s, t))
    && OneOwner(s)
  }

  // ---------------------------------------------------------------- what one step may do to an entry

  /** About to empty an entry that came from `dirty`. */
  predicate Empties(pc: Pc, e: Entry) {
    pc.TryCas? && pc.source.FromDirty? && pc.entry == e && pc.seen.Boxed?
  }

  predicate EntryEvolves(s: State, t: Goroutine, s': State, e: Entry) {
    && e in s'.heap
    && (Nowhere(s, e) ==> Nowhere(s', e))
    && (Nowhere(s, e) && Peek(s', e) != Peek(s, e) ==>
          Empties(PcOf(s, t), e) && Peek(s, e) == PcOf(s, t).seen && Peek(s', e) == Nil)
    && (Current(s, e) ==> Current(s', e) || (Nowhere(s', e) && Peek(s', e) == Expunged))
    && (!Nowhere(s, e) && Nowhere(s', e) ==>
          && (Lookup(s, e.key).None? || Lookup(s', e.key).None?)
          && Content(Peek(s', e)) == Lookup(s, e.key))
  }

  /** How a step of `t` treats the entries the other goroutines may hold. */
  ghost predicate Evolves(s: State, t: Goroutine, s': State) {
    forall e :: e in s.heap ==> EntryEvolves(s, t, s', e)
  }

  /** The step leaves every other goroutine where it is, and only `t` may take or release `mu`. */
  ghost predicate OnlyMoves(s: State, t: Goroutine, s': State) {
    && (forall u :: u != t ==> PcOf(s', u) == PcOf(s, u))
    && (s'.mu == s.mu || (s.mu == None && s'.mu == Some(t)) || (s.mu == Some(t) && s'.mu == None))
  }

  /** The abstract map changes exactly as the plain map would for the call that takes effect, if any. */
  ghost predicate Refines(s: State, s': State, op: Op, effect: Option<Answer>) {
    && (forall k :: k != op.key || effect.None? ==> Lookup(s', k) == Lookup(s, k))
    && (effect.Some? ==>
          && effect.value == Reply(Lookup(s, op.key), op)
          && Lookup(s', op.key) == After(Lookup(s, op.key), op))
  }

  /** An entry `t` comes to own was in some map before. */
  predicate OwnsFairly(s: State, t: Goroutine, s': State) {
    var e := Owned(PcOf(s', t));
    e.Some? && e != Owned(PcOf(s, t)) ==> e.value in s.heap && !Nowhere(s, e.value)
  }

  ghost predicate GoodStep(s: State, t: Goroutine, o: Outcome, op: Op) {
    && Shape(o.state)
    && Local(o.state, t)
    && Evolves(s, t, o.state)
    && OnlyMoves(s, t, o.state)
    && Refines(s, o.state, op, o.effect)
    && OwnsFairly(s, t, o.state)
  }

  // ---------------------------------------------------------------- two kinds of step

  /** The goroutine goes on to `pc` and changes nothing else. */
  lemma Moves(s: State, t: Goroutine, pc: Pc, op: Op)
    requires Inv(s) && InLock(pc) == InLock(PcOf(s, t)) && Position(s, pc)
    requires Held(pc).Some? ==> HeldOk(s, pc.op, Held(pc).value.0, Held(pc).value.1)
    requires OwnsFairly(s, t, Go(s, t, pc).state)
    requires FlagsOk(Go(s, t, pc).state) && MissesOk(Go(s, t, pc).state)
    requires forall k :: Owed(Holder(s), k) ==> Owed(Holder(Go(s, t, pc).state), k)
    ensures GoodStep(s, t, Go(s, t, pc), op)
  {
    assert Local(s, t);
    var s' := Go(s, t, pc).state;
    assert forall k :: Lookup(s', k) == Lookup(s, k);
    assert forall e :: Nowhere(s', e) == Nowhere(s, e) && Peek(s', e) == Peek(s, e);
    assert Covered(s') by {
      forall k | k in s'.read && s'.dirty.Some? && Peek(s', s'.read[k]) != Expunged && !Owed(Holder(s'), k)
        ensures k in s'.dirty.value
      {
        assert !Owed(Holder(s), k);
      }
    }
  }

  /** The same outside `mu`, where the holder is somebody else. */
  lemma MovesOutside(s: State, t: Goroutine, pc: Pc, op: Op)
    requires Inv(s) && !InLock(pc) && !InLock(PcOf(s, t)) && Position(s, pc)
    requires Held(pc).Some? ==> HeldOk(s, pc.op, Held(pc).value.0, Held(pc).value.1)
    requires OwnsFairly(s, t, Go(s, t, pc).state)
    ensures GoodStep(s, t, Go(s, t, pc), op)
  {
    assert Local(s, t);
    assert Holder(Go(s, t, pc).state) == Holder(s);
    Moves(s, t, pc, op);
  }

  ghost predicate Replaces(s: State, t: Goroutine, e: Entry, p: Pointer, pc: Pc) {
    && InLock(pc) == InLock(PcOf(s, t))
    && Locate(s, e.key) == Some(e) && Peek(s, e) != Expunged && p != Expunged
    && FlagsOk(Go(s, t, pc).state) && MissesOk(Go(s, t, pc).state)
    && (forall k :: Owed(Holder(s), k) ==> Owed(Holder(Go(s, t, pc).state), k))
  }

  lemma WritesShape(s: State, t: Goroutine, e: Entry, p: Pointer, pc: Pc)
    requires Shape(s) && Replaces(s, t, e, p, pc)
    ensures Shape(Go(Write(s, e, p), t, pc).state)
  {
    var s' := Go(Write(s, e, p), t, pc).state;
    assert Holder(s') == Holder(Go(s, t, pc).state);
    assert e in s.heap;
    assert forall x :: x != e ==> Peek(s', x) == Peek(s, x);
    assert forall x :: (Peek(s', x) == Expunged) == (Peek(s, x) == Expunged);
    assert Covered(s') by {
      forall k | k in s'.read && s'.dirty.Some? && Peek(s', s'.read[k]) != Expunged && !Owed(Holder(s'), k)
        ensures k in s'.dirty.value
      {
        assert !Owed(Holder(s), k);
      }
    }
  }

  lemma WritesLookup(s: State, t: Goroutine, e: Entry, p: Pointer, pc: Pc, k: Key)
    requires Shape(s) && Locate(s, e.key) == Some(e)
    ensures Lookup(Go(Write(s, e, p), t, pc).state, k) == if k == e.key then Content(p) else Lookup(s, k)
  {
  }

  lemma WritesEvolves(s: State, t: Goroutine, e: Entry, p: Pointer, pc: Pc)
    requires Shape(s) && Locate(s, e.key) == Some(e)
    ensures Evolves(s, t, Go(Write(s, e, p), t, pc).state)
  {
  }

  /** Where a goroutine may stand does not depend on where the others stand. */
  lemma PositionOfFields(s: State, s': State, pc: Pc)
    requires Position(s, pc)
    requires s.read == s'.read && s.amended == s'.amended && s.dirty == s'.dirty && s.heap == s'.heap
    ensures Position(s', pc)
  {
  }

  lemma RefinesAt(s: State, s': State, op: Op, effect: Option<Answer>, now: Option<Value>)
    requires forall k :: Lookup(s', k) == if k == op.key then now else Lookup(s, k)
    requires if effect.None? then now == Lookup(s, op.key)
             else effect.value == Reply(Lookup(s, op.key), op) && now == After(Lookup(s, op.key), op)
    ensures Refines(s, s', op, effect)
  {
  }

  lemma WritesRefine(s: State, t: Goroutine, e: Entry, p: Pointer, pc: Pc, op: Op, effect: Option<Answer>)
    requires Shape(s) && Locate(s, e.key) == Some(e) && op.key == e.key
    requires if effect.None? then Content(p) == Lookup(s, e.key)
             else effect.value == Reply(Lookup(s, e.key), op) && Content(p) == After(Lookup(s, e.key), op)
    ensures Refines(s, Go(Write(s, e, p), t, pc).state, op, effect)
  {
    var s' := Go(Write(s, e, p), t, pc).state;
    forall k ensures Lookup(s', k) == if k == e.key then Content(p) else Lookup(s, k) {
      WritesLookup(s, t, e, p, pc, k);
    }
    RefinesAt(s, s', op, effect, Content(p));
  }

  /** The goroutine replaces the pointer of a live entry by a live pointer and goes on to `pc`. */
  lemma Writes(s: State, t: Goroutine, e: Entry, p: Pointer, pc: Pc, op: Op, effect: Option<Answer>)
    requires Inv(s) && Replaces(s, t, e, p, pc)
    requires op.key == e.key && Held(pc).None? && Position(Write(s, e, p), pc)
    requires if effect.None? then Content(p) == Lookup(s, e.key)
             else effect.value == Reply(Lookup(s, e.key), op) && Content(p) == After(Lookup(s, e.key), op)
    ensures GoodStep(s, t, Outcome(Go(Write(s, e, p), t, pc).state, effect), op)
  {
    var s' := Go(Write(s, e, p), t, pc).state;
    WritesShape(s, t, e, p, pc);
    WritesEvolves(s, t, e, p, pc);
    WritesRefine(s, t, e, p, pc, op, effect);
    assert Local(s', t) by {
      assert Local(s, t);
      PositionOfFields(Write(s, e, p), s', pc);
    }
  }

  /** An entry that some map leads to stands for its key. */
  lemma SomewhereIsLocated(s: State, e: Entry)
    requires Shape(s) && !Nowhere(s, e)
    ensures Locate(s, e.key) == Some(e)
  {
  }

  // ---------------------------------------------------------------- the steps, one by one

  lemma TryEntryStep(s: State, t: Goroutine, c: Choice)
    requires Inv(s) && PcOf(s, t).TryEntry?
    ensures GoodStep(s, t, Apply(s, t, c), PcOf(s, t).op)
  {
    assert Local(s, t);
    var TryEntry(op, e, source) := PcOf(s, t);
    MovesOutside(s, t, AfterLoad(op, e, source, Peek(s, e)), op);
  }

  lemma OutsideLock(s: State, t: Goroutine, c: Choice)
    requires Inv(s)
    requires PcOf(s, t).Idle? || PcOf(s, t).ReadFast? || PcOf(s, t).Return?
    ensures GoodStep(s, t, Apply(s, t, c), if PcOf(s, t).Idle? then c.op else PcOf(s, t).op)
  {
    assert Local(s, t);
    match PcOf(s, t)
    case Idle => MovesOutside(s, t, ReadFast(c.op), c.op);
    case ReadFast(op) => MovesOutside(s, t, AfterReadFast(s, op), op);
    case Return(op, _) => MovesOutside(s, t, Idle, op);
  }

  lemma EmptiesShape(s: State, t: Goroutine, e: Entry, answer: Answer)
    requires Inv(s) && PcOf(s, t).TryCas? && PcOf(s, t).entry == e && Nowhere(s, e)
    requires Peek(s, e) == PcOf(s, t).seen
    ensures Shape(Go(Write(s, e, Nil), t, Return(PcOf(s, t).op, answer)).state)
  {
    assert Local(s, t);
    var s' := Go(Write(s, e, Nil), t, Return(PcOf(s, t).op, answer)).state;
    assert Holder(s') == Holder(s);
    assert forall k :: k in s.read ==> s.read[k] != e;
    assert forall k :: k in DirtyMap(s) ==> DirtyMap(s)[k] != e;
  }

  lemma EmptiesEvolves(s: State, t: Goroutine, e: Entry, answer: Answer)
    requires Inv(s) && PcOf(s, t).TryCas? && PcOf(s, t).entry == e && Nowhere(s, e)
    requires Peek(s, e) == PcOf(s, t).seen
    ensures var s' := Go(Write(s, e, Nil), t, Return(PcOf(s, t).op, answer)).state;
            Evolves(s, t, s') && Refines(s, s', PcOf(s, t).op, None)
  {
    assert Local(s, t);
    var s' := Go(Write(s, e, Nil), t, Return(PcOf(s, t).op, answer)).state;
    assert forall k :: k in s.read ==> s.read[k] != e;
    assert forall k :: k in DirtyMap(s) ==> DirtyMap(s)[k] != e;
    assert forall k :: Lookup(s', k) == Lookup(s, k);
    assert forall x :: Nowhere(s', x) == Nowhere(s, x);
  }

  /** LoadAndDelete, or CompareAndDelete before it, empties an entry taken out of `dirty`: no map leads to it. */
  lemma EmptiesLoose(s: State, t: Goroutine, e: Entry, answer: Answer)
    requires Inv(s) && PcOf(s, t).TryCas? && PcOf(s, t).entry == e && Nowhere(s, e)
    requires Peek(s, e) == PcOf(s, t).seen
    ensures GoodStep(s, t, Go(Write(s, e, Nil), t, Return(PcOf(s, t).op, answer)), PcOf(s, t).op)
  {
    assert Local(s, t);
    EmptiesShape(s, t, e, answer);
    EmptiesEvolves(s, t, e, answer);
  }

  /** A compare-and-swap succeeds on an entry that some map leads to. */
  lemma SwapsFound(s: State, t: Goroutine, c: Choice)
    requires Inv(s) && PcOf(s, t).TryCas? && Peek(s, PcOf(s, t).entry) == PcOf(s, t).seen
    requires !Nowhere(s, PcOf(s, t).entry)
    ensures GoodStep(s, t, Apply(s, t, c), PcOf(s, t).op)
  {
    assert Local(s, t);
    var TryCas(op, e, _, seen) := PcOf(s, t);
    var answer := Reply(Content(seen), op);
    SomewhereIsLocated(s, e);
    assert Holder(Go(s, t, Return(op, answer)).state) == Holder(s);
    Writes(s, t, e, Desired(op, c.address), Return(op, answer), op, Some(answer));
  }

  lemma TryCasStep(s: State, t: Goroutine, c: Choice)
    requires Inv(s) && PcOf(s, t).TryCas?
    ensures GoodStep(s, t, Apply(s, t, c), PcOf(s, t).op)
  {
    assert Local(s, t);
    var TryCas(op, e, source, seen) := PcOf(s, t);
    if Peek(s, e) != seen {
      MovesOutside(s, t, TryEntry(op, e, source), op);
    } else if Nowhere(s, e) {
      EmptiesLoose(s, t, e, Reply(Content(seen), op));
    } else {
      SwapsFound(s, t, c);
    }
  }

  lemma LockStep(s: State, t: Goroutine, c: Choice)
    requires Inv(s) && PcOf(s, t).Lock? && s.mu.None?
    ensures GoodStep(s, t, Apply(s, t, c), PcOf(s, t).op)
  {
  }

  lemma UnlockShape(s: State, t: Goroutine, c: Choice)
    requires Inv(s) && PcOf(s, t).Unlock?
    ensures Shape(Apply(s, t, c).state)
  {
    assert Local(s, t);
  }

  lemma UnlockStep(s: State, t: Goroutine, c: Choice)
    requires Inv(s) && PcOf(s, t).Unlock?
    ensures GoodStep(s, t, Apply(s, t, c), PcOf(s, t).op)
  {
    assert Local(s, t);
    UnlockShape(s, t, c);
  }

  /** The first new key after a promotion: `dirty` is allocated. */
  lemma StartsCopy(s: State, t: Goroutine, op: Op)
    requires Inv(s) && PcOf(s, t) == ReadLocked(op)
    requires Stores(op) && op.key !in s.read && !s.amended
    ensures s.dirty.None?
    ensures GoodStep(s, t, Go(s.(dirty := Some(map[])), t, Copy(op, s.read.Keys)), op)
  {
    assert Local(s, t);
    var s' := Go(s.(dirty := Some(map[])), t, Copy(op, s.read.Keys)).state;
    assert forall k :: Locate(s', k) == Locate(s, k);
    assert forall e :: Nowhere(s', e) == Nowhere(s, e);
  }

  lemma FindsRead(s: State, t: Goroutine, op: Op)
    requires Inv(s) && PcOf(s, t) == ReadLocked(op) && op.key in s.read && !op.Range?
    ensures GoodStep(s, t, RunReadLocked(s, t, op), op)
  {
    assert Local(s, t);
    var e := s.read[op.key];
    if Stores(op) { Moves(s, t, Unexpunge(op, e), op); }
    else if op.CompareAndSwap? { Moves(s, t, LockedEntry(op, e, false), op); }
    else { Moves(s, t, Unlock(op, ToEntry(e, FromRead)), op); }
  }

  lemma LooksInDirty(s: State, t: Goroutine, op: Op)
    requires Inv(s) && PcOf(s, t) == ReadLocked(op) && op.key !in s.read && Seeks(op)
    ensures GoodStep(s, t, RunReadLocked(s, t, op), op)
  {
    assert Local(s, t);
    Moves(s, t, if s.amended then LookDirty(op) else Unlock(op, ToReturn(Reply(None, op))), op);
  }

  /** Range promotes the dirty map at once, if there is one. */
  lemma RangeLooks(s: State, t: Goroutine, op: Op)
    requires Inv(s) && PcOf(s, t) == ReadLocked(op) && op.Range?
    ensures GoodStep(s, t, RunReadLocked(s, t, op), op)
  {
    assert Local(s, t);
    if s.amended { Moves(s, t, Promote(op, Shown(DirtyMap(s), op.key, FromDirty)), op); }
    else { Moves(s, t, Unlock(op, Shown(s.read, op.key, FromRead)), op); }
  }

  lemma MissesRead(s: State, t: Goroutine, op: Op)
    requires Inv(s) && PcOf(s, t) == ReadLocked(op) && op.key !in s.read && !op.Range?
    requires op.key in DirtyMap(s) || s.amended || !Stores(op)
    ensures GoodStep(s, t, RunReadLocked(s, t, op), op)
  {
    assert Local(s, t);
    if Seeks(op) {
      LooksInDirty(s, t, op);
    } else if op.key in DirtyMap(s) {
      Moves(s, t, LockedEntry(op, DirtyMap(s)[op.key], !op.Swap?), op);
    } else {
      Moves(s, t, if op.CompareAndSwap? then Unlock(op, ToReturn(Swapped(false))) else Insert(op), op);
    }
  }

  lemma ReadLockedStep(s: State, t: Goroutine, c: Choice)
    requires Inv(s) && PcOf(s, t).ReadLocked?
    ensures GoodStep(s, t, Apply(s, t, c), PcOf(s, t).op)
  {
    assert Local(s, t);
    var ReadLocked(op) := PcOf(s, t);
    if op.Range? {
      RangeLooks(s, t, op);
    } else if op.key in s.read {
      FindsRead(s, t, op);
    } else if Stores(op) && op.key !in DirtyMap(s) && !s.amended {
      StartsCopy(s, t, op);
    } else {
      MissesRead(s, t, op);
    }
  }

  lemma TakesOutShape(s: State, t: Goroutine, op: Op)
    requires Inv(s) && PcOf(s, t) == LookDirty(op) && op.LoadAndDelete? && op.key in DirtyMap(s)
    ensures Shape(RunLookDirty(s, t, op).state)
  {
    assert Local(s, t);
    var s' := RunLookDirty(s, t, op).state;
    assert forall k :: k in DirtyMap(s') <==> k in DirtyMap(s) && k != op.key;
  }

  /** LoadAndDelete removes the entry from `dirty`, which is where it takes effect. */
  lemma TakesOut(s: State, t: Goroutine, op: Op)
    requires Inv(s) && PcOf(s, t) == LookDirty(op) && op.LoadAndDelete? && op.key in DirtyMap(s)
    ensures GoodStep(s, t, RunLookDirty(s, t, op), op)
  {
    assert Local(s, t);
    var s' := RunLookDirty(s, t, op).state;
    var e := DirtyMap(s)[op.key];
    assert Locate(s, op.key) == Some(e);
    TakesOutShape(s, t, op);
    assert forall k :: k != op.key ==> Locate(s', k) == Locate(s, k);
    assert forall k :: k != op.key ==> Lookup(s', k) == Lookup(s, k);
    assert Evolves(s, t, s') by {
      forall x | x in s.heap ensures EntryEvolves(s, t, s', x) {
        assert Current(s', x) == Current(s, x);
        if x != e { assert Nowhere(s', x) == Nowhere(s, x); }
      }
    }
  }

  lemma LookDirtyStep(s: State, t: Goroutine, c: Choice)
    requires Inv(s) && PcOf(s, t).LookDirty?
    ensures GoodStep(s, t, Apply(s, t, c), PcOf(s, t).op)
  {
    assert Local(s, t);
    var LookDirty(op) := PcOf(s, t);
    if op.key in DirtyMap(s) && op.LoadAndDelete? {
      TakesOut(s, t, op);
    } else {
      Moves(s, t, PcOf(Apply(s, t, c).state, t), op);
    }
  }

  lemma MissStep(s: State, t: Goroutine, c: Choice)
    requires Inv(s) && PcOf(s, t).Miss?
    ensures GoodStep(s, t, Apply(s, t, c), PcOf(s, t).op)
  {
    assert Local(s, t);
  }

  lemma PromoteStep(s: State, t: Goroutine, c: Choice)
    requires Inv(s) && PcOf(s, t).Promote?
    ensures GoodStep(s, t, Apply(s, t, c), PcOf(s, t).op)
  {
    assert Local(s, t);
  }

  lemma ClearDirtyStep(s: State, t: Goroutine, c: Choice)
    requires Inv(s) && PcOf(s, t).ClearDirty?
    ensures GoodStep(s, t, Apply(s, t, c), PcOf(s, t).op)
  {
    assert Local(s, t);
  }

  /** Nil and expunged mean the same to a reader: the abstract map and the maps of entries stay. */
  lemma FlipsEmpty(s: State, t: Goroutine, e: Entry, p: Pointer, pc: Pc)
    requires Shape(s) && Current(s, e) && e !in DirtyMap(s).Values
    requires !Peek(s, e).Boxed? && !p.Boxed?
    ensures var s' := Go(Write(s, e, p), t, pc).state;
            && Mapped(s', s'.read) && Mapped(s', DirtyMap(s')) && DirtyLive(s') && Agree(s')
            && (forall k :: Lookup(s', k) == Lookup(s, k))
            && Evolves(s, t, s')
            && (forall k :: k in s.read && k != e.key ==> Peek(s', s.read[k]) == Peek(s, s.read[k]))
  {
    var s' := Go(Write(s, e, p), t, pc).state;
    assert forall k :: k in DirtyMap(s) ==> DirtyMap(s)[k] in DirtyMap(s).Values;
    assert forall x :: x != e ==> Peek(s', x) == Peek(s, x);
    forall k ensures Lookup(s', k) == Lookup(s, k) {
      assert Locate(s', k) == Locate(s, k);
    }
    forall x | x in s.heap ensures EntryEvolves(s, t, s', x) {
      assert Nowhere(s', x) == Nowhere(s, x) && Current(s', x) == Current(s, x);
    }
  }

  lemma RevivesShape(s: State, t: Goroutine, op: Op, e: Entry)
    requires Inv(s) && PcOf(s, t) == Unexpunge(op, e) && Peek(s, e) == Expunged
    ensures Shape(Go(Write(s, e, Nil), t, Readd(op, e)).state)
  {
    assert Local(s, t);
    var s' := Go(Write(s, e, Nil), t, Readd(op, e)).state;
    FlipsEmpty(s, t, e, Nil, Readd(op, e));
    assert Covered(s') && FlagsOk(s') && MissesOk(s');
    assert ExpungedOutside(s');
  }

  /** An expunged entry becomes nil, and is owed to `dirty`. */
  lemma Revives(s: State, t: Goroutine, op: Op, e: Entry)
    requires Inv(s) && PcOf(s, t) == Unexpunge(op, e) && Peek(s, e) == Expunged
    ensures GoodStep(s, t, Go(Write(s, e, Nil), t, Readd(op, e)), op)
  {
    assert Local(s, t);
    FlipsEmpty(s, t, e, Nil, Readd(op, e));
    RevivesShape(s, t, op, e);
  }

  lemma UnexpungeStep(s: State, t: Goroutine, c: Choice)
    requires Inv(s) && PcOf(s, t).Unexpunge?
    ensures GoodStep(s, t, Apply(s, t, c), PcOf(s, t).op)
  {
    assert Local(s, t);
    var Unexpunge(op, e) := PcOf(s, t);
    if Peek(s, e) != Expunged {
      Moves(s, t, LockedEntry(op, e, false), op);
    } else {
      Revives(s, t, op, e);
    }
  }

  lemma ReaddShape(s: State, t: Goroutine, c: Choice)
    requires Inv(s) && PcOf(s, t).Readd?
    ensures Shape(Apply(s, t, c).state)
  {
    assert Local(s, t);
  }

  lemma ReaddEvolves(s: State, t: Goroutine, c: Choice)
    requires Inv(s) && PcOf(s, t).Readd?
    ensures Evolves(s, t, Apply(s, t, c).state) && Refines(s, Apply(s, t, c).state, PcOf(s, t).op, None)
  {
    assert Local(s, t);
    var s' := Apply(s, t, c).state;
    assert forall k :: Locate(s', k) == Locate(s, k);
  }

  lemma ReaddLocal(s: State, t: Goroutine, c: Choice)
    requires Inv(s) && PcOf(s, t).Readd?
    ensures Local(Apply(s, t, c).state, t) && OnlyMoves(s, t, Apply(s, t, c).state)
    ensures Apply(s, t, c).effect == None && OwnsFairly(s, t, Apply(s, t, c).state)
  {
    assert Local(s, t);
  }

  lemma ReaddStep(s: State, t: Goroutine, c: Choice)
    requires Inv(s) && PcOf(s, t).Readd?
    ensures GoodStep(s, t, Apply(s, t, c), PcOf(s, t).op)
  {
    ReaddShape(s, t, c);
    ReaddLocal(s, t, c);
    ReaddEvolves(s, t, c);
  }

  lemma LocatedInHeap(s: State, k: Key)
    requires Shape(s)
    ensures Locate(s, k).Some? ==> Locate(s, k).value.key == k && Locate(s, k).value in s.heap
  {
  }

  lemma LockedFinds(s: State, t: Goroutine, op: Op, e: Entry, missed: bool, answer: Answer)
    requires Inv(s) && PcOf(s, t) == LockedEntry(op, e, missed)
    ensures GoodStep(s, t, Go(s, t, Done(op, missed, answer)), op)
  {
    assert Local(s, t);
    Moves(s, t, Done(op, missed, answer), op);
  }

  lemma LockedLooks(s: State, t: Goroutine, op: Op, e: Entry, missed: bool)
    requires Inv(s) && PcOf(s, t) == LockedEntry(op, e, missed) && !op.Swap?
    ensures GoodStep(s, t, RunLockedEntry(s, t, Choice(op, op.key, 0), op, e, missed), op)
  {
    assert Local(s, t);
    var p := Peek(s, e);
    if (op.LoadOrStore? && p.Nil?) || (op.CompareAndSwap? && Content(p) == Some(op.expected)) {
      Moves(s, t, LockedCas(op, e, p, missed), op);
    } else {
      LockedFinds(s, t, op, e, missed, if op.LoadOrStore? then Prior(Content(p)) else Swapped(false));
    }
  }

  /** Nothing of what the holder of mu owes changes when it is done with the entry. */
  lemma DoneOwesNothing(s: State, t: Goroutine, op: Op, e: Entry, p: Pointer, missed: bool, answer: Answer)
    requires Inv(s) && (PcOf(s, t).LockedEntry? || PcOf(s, t).LockedCas?)
    requires op == PcOf(s, t).op && e == PcOf(s, t).entry && missed == PcOf(s, t).missed && p != Expunged
    requires Stores(op) || Peek(s, e) != Expunged
    ensures Replaces(s, t, e, p, Done(op, missed, answer)) && Position(Write(s, e, p), Done(op, missed, answer))
  {
    assert Local(s, t);
    LocatedInHeap(s, op.key);
  }

  lemma LockedStores(s: State, t: Goroutine, c: Choice)
    requires Inv(s) && PcOf(s, t).LockedEntry? && PcOf(s, t).op.Swap?
    ensures GoodStep(s, t, Apply(s, t, c), PcOf(s, t).op)
  {
    assert Local(s, t);
    var LockedEntry(op, e, missed) := PcOf(s, t);
    LocatedInHeap(s, op.key);
    var answer := Prior(Content(Peek(s, e)));
    DoneOwesNothing(s, t, op, e, Boxed(c.address, op.value), missed, answer);
    Writes(s, t, e, Boxed(c.address, op.value), Done(op, missed, answer), op, Some(answer));
  }

  lemma LockedEntryStep(s: State, t: Goroutine, c: Choice)
    requires Inv(s) && PcOf(s, t).LockedEntry?
    ensures GoodStep(s, t, Apply(s, t, c), PcOf(s, t).op)
  {
    assert Local(s, t);
    var LockedEntry(op, e, missed) := PcOf(s, t);
    if op.Swap? { LockedStores(s, t, c); } else { LockedLooks(s, t, op, e, missed); }
  }

  lemma LockedSwaps(s: State, t: Goroutine, op: Op, e: Entry, seen: Pointer, missed: bool, address: nat)
    requires Inv(s) && PcOf(s, t) == LockedCas(op, e, seen, missed) && Peek(s, e) == seen
    ensures GoodStep(s, t, RunLockedCas(s, t, Choice(op, op.key, address), op, e, seen, missed), op)
  {
    assert Local(s, t);
    LocatedInHeap(s, op.key);
    var answer := Reply(Content(seen), op);
    DoneOwesNothing(s, t, op, e, Desired(op, address), missed, answer);
    Writes(s, t, e, Desired(op, address), Done(op, missed, answer), op, Some(answer));
  }

  lemma LockedCasStep(s: State, t: Goroutine, c: Choice)
    requires Inv(s) && PcOf(s, t).LockedCas?
    ensures GoodStep(s, t, Apply(s, t, c), PcOf(s, t).op)
  {
    assert Local(s, t);
    var LockedCas(op, e, seen, missed) := PcOf(s, t);
    if Peek(s, e) != seen {
      Moves(s, t, LockedEntry(op, e, missed), op);
    } else {
      LockedSwaps(s, t, op, e, seen, missed, c.address);
    }
  }

  lemma CopyStep(s: State, t: Goroutine, c: Choice)
    requires Inv(s) && PcOf(s, t).Copy? && Enabled(s, t, c)
    ensures GoodStep(s, t, Apply(s, t, c), PcOf(s, t).op)
  {
    assert Local(s, t);
    var Copy(op, todo) := PcOf(s, t);
    Moves(s, t, if todo == {} then Amend(op) else Probe(op, todo, c.key), op);
  }

  /** An entry already expunged stays out of the copy. */
  lemma Skips(s: State, t: Goroutine, op: Op, todo: set<Key>, k: Key)
    requires Inv(s) && PcOf(s, t) == Probe(op, todo, k) && k in s.read && Peek(s, s.read[k]) == Expunged
    ensures GoodStep(s, t, Go(s, t, Copy(op, todo - {k})), op)
  {
    assert Local(s, t);
    var s' := Go(s, t, Copy(op, todo - {k})).state;
    assert forall x :: Lookup(s', x) == Lookup(s, x);
    assert forall e :: Nowhere(s', e) == Nowhere(s, e);
    assert Covered(s') by {
      forall x | x in s'.read && s'.dirty.Some? && Peek(s', s'.read[x]) != Expunged && !Owed(Holder(s'), x)
        ensures x in s'.dirty.value
      {
        assert x != k ==> !Owed(Holder(s), x);
      }
    }
  }

  lemma CopiesShape(s: State, t: Goroutine, op: Op, todo: set<Key>, k: Key)
    requires Inv(s) && PcOf(s, t) == Probe(op, todo, k) && k in s.read && Peek(s, s.read[k]).Boxed?
    ensures Shape(RunProbe(s, t, op, todo, k).state)
  {
    assert Local(s, t);
    var s' := RunProbe(s, t, op, todo, k).state;
    assert Covered(s') by {
      forall x | x in s'.read && s'.dirty.Some? && Peek(s', s'.read[x]) != Expunged && !Owed(Holder(s'), x)
        ensures x in s'.dirty.value
      {
        assert x != k ==> !Owed(Holder(s), x);
      }
    }
  }

  lemma CopiesEvolves(s: State, t: Goroutine, op: Op, todo: set<Key>, k: Key)
    requires Inv(s) && PcOf(s, t) == Probe(op, todo, k) && k in s.read && Peek(s, s.read[k]).Boxed?
    ensures var s' := RunProbe(s, t, op, todo, k).state; Evolves(s, t, s') && Refines(s, s', op, None)
  {
    assert Local(s, t);
    var s' := RunProbe(s, t, op, todo, k).state;
    assert forall x :: Locate(s', x) == Locate(s, x);
    forall e | e in s.heap ensures EntryEvolves(s, t, s', e) {
      assert Current(s', e) == Current(s, e);
      assert Nowhere(s', e) == Nowhere(s, e);
    }
  }

  lemma CopiesLocal(s: State, t: Goroutine, op: Op, todo: set<Key>, k: Key)
    requires Inv(s) && PcOf(s, t) == Probe(op, todo, k) && k in s.read && Peek(s, s.read[k]).Boxed?
    ensures var o := RunProbe(s, t, op, todo, k);
            Local(o.state, t) && OnlyMoves(s, t, o.state) && o.effect == None && OwnsFairly(s, t, o.state)
  {
    assert Local(s, t);
  }

  /** A live entry goes into the copy. */
  lemma Copies(s: State, t: Goroutine, op: Op, todo: set<Key>, k: Key)
    requires Inv(s) && PcOf(s, t) == Probe(op, todo, k) && k in s.read && Peek(s, s.read[k]).Boxed?
    ensures GoodStep(s, t, RunProbe(s, t, op, todo, k), op)
  {
    CopiesShape(s, t, op, todo, k);
    CopiesLocal(s, t, op, todo, k);
    CopiesEvolves(s, t, op, todo, k);
  }

  lemma ProbeStep(s: State, t: Goroutine, c: Choice)
    requires Inv(s) && PcOf(s, t).Probe?
    ensures GoodStep(s, t, Apply(s, t, c), PcOf(s, t).op)
  {
    assert Local(s, t);
    var Probe(op, todo, k) := PcOf(s, t);
    match Peek(s, s.read[k])
    case Nil => Moves(s, t, Expunge(op, todo, k), op);
    case Expunged => Skips(s, t, op, todo, k);
    case Boxed(_, _) => Copies(s, t, op, todo, k);
  }

  /** An emptied entry is expunged and left out of the copy. */
  lemma ExpungesShape(s: State, t: Goroutine, op: Op, todo: set<Key>, k: Key)
    requires Inv(s) && PcOf(s, t) == Expunge(op, todo, k) && k in s.read && Peek(s, s.read[k]) == Nil
    ensures Shape(Go(Write(s, s.read[k], Expunged), t, Copy(op, todo - {k})).state)
  {
    assert Local(s, t);
    var e := s.read[k];
    var s' := Go(Write(s, e, Expunged), t, Copy(op, todo - {k})).state;
    FlipsEmpty(s, t, e, Expunged, Copy(op, todo - {k}));
    assert ExpungedOutside(s');
    assert Covered(s') by {
      forall x | x in s'.read && s'.dirty.Some? && Peek(s', s'.read[x]) != Expunged && !Owed(Holder(s'), x)
        ensures x in s'.dirty.value
      {
        assert x != k ==> !Owed(Holder(s), x);
      }
    }
  }

  lemma Expunges(s: State, t: Goroutine, op: Op, todo: set<Key>, k: Key)
    requires Inv(s) && PcOf(s, t) == Expunge(op, todo, k) && k in s.read && Peek(s, s.read[k]) == Nil
    ensures GoodStep(s, t, Go(Write(s, s.read[k], Expunged), t, Copy(op, todo - {k})), op)
  {
    assert Local(s, t);
    FlipsEmpty(s, t, s.read[k], Expunged, Copy(op, todo - {k}));
    ExpungesShape(s, t, op, todo, k);
  }

  lemma ExpungeStep(s: State, t: Goroutine, c: Choice)
    requires Inv(s) && PcOf(s, t).Expunge?
    ensures GoodStep(s, t, Apply(s, t, c), PcOf(s, t).op)
  {
    assert Local(s, t);
    var Expunge(op, todo, k) := PcOf(s, t);
    if !Peek(s, s.read[k]).Nil? {
      Moves(s, t, Probe(op, todo, k), op);
    } else {
      Expunges(s, t, op, todo, k);
    }
  }

  lemma AmendStep(s: State, t: Goroutine, c: Choice)
    requires Inv(s) && PcOf(s, t).Amend?
    ensures GoodStep(s, t, Apply(s, t, c), PcOf(s, t).op)
  {
    assert Local(s, t);
  }

  lemma InsertShape(s: State, t: Goroutine, c: Choice)
    requires Inv(s) && PcOf(s, t).Insert? && Enabled(s, t, c)
    ensures Shape(Apply(s, t, c).state)
  {
    assert Local(s, t);
    var s' := Apply(s, t, c).state;
    var e := Entry(PcOf(s, t).op.key, c.address);
    assert forall x :: x in s.heap ==> Peek(s', x) == Peek(s, x);
    assert Covered(s') by {
      forall k | k in s'.read && s'.dirty.Some? && Peek(s', s'.read[k]) != Expunged && !Owed(Holder(s'), k)
        ensures k in s'.dirty.value
      {
        assert !Owed(Holder(s), k);
      }
    }
  }

  lemma InsertStep(s: State, t: Goroutine, c: Choice)
    requires Inv(s) && PcOf(s, t).Insert? && Enabled(s, t, c)
    ensures GoodStep(s, t, Apply(s, t, c), PcOf(s, t).op)
  {
    assert Local(s, t);
    var op := PcOf(s, t).op;
    var e := Entry(op.key, c.address);
    var s' := Apply(s, t, c).state;
    InsertShape(s, t, c);
    assert forall k :: k != op.key ==> Locate(s', k) == Locate(s, k);
    forall k | k != op.key ensures Lookup(s', k) == Lookup(s, k) {
      LocatedInHeap(s, k);
    }
    assert Lookup(s', op.key) == Some(op.value) && Lookup(s, op.key) == None;
    forall x | x in s.heap ensures EntryEvolves(s, t, s', x) {
      assert Nowhere(s', x) == Nowhere(s, x) && Current(s', x) == Current(s, x);
    }
  }

  // ---------------------------------------------------------------- every step

  function OpOf(pc: Pc, c: Choice): Op {
    if pc.Idle? || pc.Broken? then c.op else pc.op
  }

  /** Every step keeps the discipline of the shared fields and acts on the abstract map as the call it
      belongs to would act on a plain map, or not at all. */
  lemma EveryStep(s: State, t: Goroutine, c: Choice)
    requires Inv(s) && Enabled(s, t, c)
    ensures GoodStep(s, t, Apply(s, t, c), OpOf(PcOf(s, t), c))
  {
    assert Local(s, t);
    match PcOf(s, t)
    case Idle => OutsideLock(s, t, c);
    case ReadFast(_) => OutsideLock(s, t, c);
    case TryEntry(_, _, _) => TryEntryStep(s, t, c);
    case Return(_, _) => OutsideLock(s, t, c);
    case TryCas(_, _, _, _) => TryCasStep(s, t, c);
    case Lock(_) => LockStep(s, t, c);
    case ReadLocked(_) => ReadLockedStep(s, t, c);
    case LookDirty(_) => LookDirtyStep(s, t, c);
    case Miss(_, _) => MissStep(s, t, c);
    case Promote(_, _) => PromoteStep(s, t, c);
    case ClearDirty(_, _) => ClearDirtyStep(s, t, c);
    case Unexpunge(_, _) => UnexpungeStep(s, t, c);
    case Readd(_, _) => ReaddStep(s, t, c);
    case LockedEntry(_, _, _) => LockedEntryStep(s, t, c);
    case LockedCas(_, _, _, _) => LockedCasStep(s, t, c);
    case Copy(_, _) => CopyStep(s, t, c);
    case Probe(_, _, _) => ProbeStep(s, t, c);
    case Expunge(_, _, _) => ExpungeStep(s, t, c);
    case Amend(_) => AmendStep(s, t, c);
    case Insert(_) => InsertStep(s, t, c);
    case Unlock(_, _) => UnlockStep(s, t, c);
  }

  /** A lock-free step leaves `read`, `dirty`, `amended` and `misses` alone and expunges nothing. */
  ghost predicate LockFree(s: State, s': State) {
    && s'.read == s.read && s'.dirty == s.dirty && s'.amended == s.amended && s'.misses == s.misses
    && (forall e :: Peek(s', e) == Expunged ==> Peek(s, e) == Expunged)
  }

  lemma LockFreeSteps(s: State, t: Goroutine, c: Choice)
    requires Inv(s) && Enabled(s, t, c) && s.mu != Some(t)
    ensures LockFree(s, Apply(s, t, c).state)
  {
    assert Local(s, t);
  }

  lemma OtherHolds(s: State, t: Goroutine, s': State, u: Goroutine)
    requires Inv(s) && u != t && Held(PcOf(s, u)).Some? && Evolves(s, t, s')
    ensures HeldOk(s', PcOf(s, u).op, Held(PcOf(s, u)).value.0, Held(PcOf(s, u)).value.1)
  {
    assert Local(s, u) && Local(s, t);
    var pc := PcOf(s, u);
    var e := Held(pc).value.0;
    assert EntryEvolves(s, t, s', e);
  }

  /** While `mu` is held by `u`, what `u` relies on survives the lock-free steps of the others. */
  lemma HolderKeeps(s: State, t: Goroutine, s': State, u: Goroutine)
    requires Inv(s) && s.mu == Some(u) && u != t
    requires LockFree(s, s') && Evolves(s, t, s') && OnlyMoves(s, t, s')
    ensures Local(s', u)
  {
    assert Local(s, u);
    var pc := PcOf(s, u);
    if Held(pc).Some? { OtherHolds(s, t, s', u); }
    assert DirtyMap(s') == DirtyMap(s);
    assert forall k :: Locate(s', k) == Locate(s, k);
    assert Position(s', pc);
  }

  /** What holds of a goroutine still holds after a step of another one. */
  lemma OthersKeep(s: State, t: Goroutine, c: Choice, u: Goroutine)
    requires Inv(s) && Enabled(s, t, c) && u != t
    requires GoodStep(s, t, Apply(s, t, c), OpOf(PcOf(s, t), c))
    ensures Local(Apply(s, t, c).state, u)
  {
    var s' := Apply(s, t, c).state;
    assert Local(s, u) && Local(s, t);
    if s.mu == Some(u) {
      LockFreeSteps(s, t, c);
      HolderKeeps(s, t, s', u);
    } else {
      if Held(PcOf(s, u)).Some? { OtherHolds(s, t, s', u); }
      assert !InLock(PcOf(s, u));
    }
  }

  lemma OwnersStayApart(s: State, t: Goroutine, s': State)
    requires Inv(s) && OnlyMoves(s, t, s') && OwnsFairly(s, t, s')
    ensures OneOwner(s')
  {
    forall u, v | Owned(PcOf(s', u)).Some? && Owned(PcOf(s', u)) == Owned(PcOf(s', v)) ensures u == v {
      assert Local(s, u) && Local(s, v);
    }
  }

  /** The discipline is kept by every step of every goroutine. */
  lemma InvariantKept(s: State, t: Goroutine, c: Choice)
    requires Inv(s) && Enabled(s, t, c)
    ensures Inv(Apply(s, t, c).state)
  {
    var s' := Apply(s, t, c).state;
    EveryStep(s, t, c);
    forall u ensures Local(s', u) {
      if u != t { OthersKeep(s, t, c, u); }
    }
    OwnersStayApart(s, t, s');
  }

  lemma InvariantInitially(s: State)
    requires Init(s)
    ensures Inv(s)
  {
  }
}
