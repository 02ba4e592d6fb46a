/** The concurrent map of syncmap/syncmap.go as a transition system. One step is one atomic load,
    one compare-and-swap, or one stretch of statements on fields that only the holder of `mu` touches.
    Any number of goroutines call Load, Swap (Store), LoadOrStore, LoadAndDelete (Delete),
    CompareAndSwap, CompareAndDelete and Range on any number of keys. */
module ConcurrentMap {
  import opened Wrappers

  type Key(==, !new)
  type Value(==, !new)
  type Goroutine = nat

  // ---------------------------------------------------------------- the plain map

  datatype Op =
    | Load(key: Key)
    | Swap(key: Key, value: Value)
    | LoadOrStore(key: Key, value: Value)
    | LoadAndDelete(key: Key)
    | CompareAndSwap(key: Key, expected: Value, value: Value)
    | CompareAndDelete(key: Key, expected: Value)
    | Range(key: Key)      // what a Range that gets as far as this key shows there

  /** What a call returns: the value found (LoadOrStore: None means the given value was stored), or
      whether the comparison succeeded. */
  datatype Answer = Prior(value: Option<Value>) | Swapped(ok: bool)

  /** What a plain map answers when it holds `prior` under the key of the call. */
  function Reply(prior: Option<Value>, op: Op): Answer {
    match op
    case CompareAndSwap(_, expected, _) => Swapped(prior == Some(expected))
    case CompareAndDelete(_, expected) => Swapped(prior == Some(expected))
    case _ => Prior(prior)
  }

  /** What a plain map then holds under that key. */
  function After(prior: Option<Value>, op: Op): Option<Value> {
    match op
    case Load(_) => prior
    case Range(_) => prior
    case Swap(_, value) => Some(value)
    case LoadOrStore(_, value) => if prior.Some? then prior else Some(value)
    case LoadAndDelete(_) => None
    case CompareAndSwap(_, expected, value) => if prior == Some(expected) then Some(value) else prior
    case CompareAndDelete(_, expected) => if prior == Some(expected) then None else prior
  }

  function Get(m: map<Key, Value>, k: Key): Option<Value> {
    if k in m then Some(m[k]) else None
  }

  function Put(m: map<Key, Value>, k: Key, v: Option<Value>): map<Key, Value> {
    if v.Some? then m[k := v.value] else m - {k}
  }

  // ---------------------------------------------------------------- the state

  /** What `entry.p` points at. Allocation may hand out any address, used or not. */
  datatype Pointer = Nil | Expunged | Boxed(address: nat, value: Value)

  /** The identity of an entry: the key it was allocated for, and a number. */
  datatype Entry = Entry(key: Key, id: nat)

  /** The map through which a goroutine found the entry it holds. */
  datatype Source = FromRead | FromDirty

  /** What follows the release of `mu`. */
  datatype Next = ToEntry(entry: Entry, source: Source) | ToReturn(answer: Answer)

  /** Where a goroutine stands; each constructor names what it is about to do. */
  datatype Pc =
    | Idle
    | ReadFast(op: Op)                                                        // load m.read
    | TryEntry(op: Op, entry: Entry, source: Source)                          // load e.p
    | TryCas(op: Op, entry: Entry, source: Source, seen: Pointer)             // CAS e.p
    | Lock(op: Op)                                                            // m.mu.Lock
    | ReadLocked(op: Op)                                                      // load m.read again
    | LookDirty(op: Op)                                                       // look in (delete from) m.dirty
    | Miss(op: Op, next: Next)                                                // missLocked: count
    | Promote(op: Op, next: Next)                                             // missLocked, Range: store m.read
    | ClearDirty(op: Op, next: Next)                                          // missLocked, Range: reset
    | Unexpunge(op: Op, entry: Entry)                                         // CAS expunged to nil
    | Readd(op: Op, entry: Entry)                                             // m.dirty[key] = e
    | LockedEntry(op: Op, entry: Entry, missed: bool)                         // load or swap e.p
    | LockedCas(op: Op, entry: Entry, seen: Pointer, missed: bool)            // CAS e.p
    | Copy(op: Op, todo: set<Key>)                                            // dirtyLocked: next key
    | Probe(op: Op, todo: set<Key>, at: Key)                                  // tryExpungeLocked: load
    | Expunge(op: Op, todo: set<Key>, at: Key)                                // tryExpungeLocked: CAS
    | Amend(op: Op)                                                           // store m.read, amended
    | Insert(op: Op)                                                          // m.dirty[key] = newEntry
    | Unlock(op: Op, next: Next)                                              // m.mu.Unlock
    | Return(op: Op, answer: Answer)
    | Broken                                                                  // nil map written, expunged read

  datatype State = State(
    read: map<Key, Entry>,
    amended: bool,
    dirty: Option<map<Key, Entry>>,
    misses: nat,
    heap: map<Entry, Pointer>,
    mu: Option<Goroutine>,
    pcs: map<Goroutine, Pc>)

  function PcOf(s: State, t: Goroutine): Pc {
    if t in s.pcs then s.pcs[t] else Idle
  }

  /** Reading a nil map finds nothing. */
  function DirtyMap(s: State): map<Key, Entry> {
    if s.dirty.Some? then s.dirty.value else map[]
  }

  function Peek(s: State, e: Entry): Pointer {
    if e in s.heap then s.heap[e] else Nil
  }

  function Content(p: Pointer): Option<Value> {
    if p.Boxed? then Some(p.value) else None
  }

  /** The entry that currently stands for a key. */
  function Locate(s: State, k: Key): Option<Entry> {
    if k in s.read then Some(s.read[k])
    else if s.amended && k in DirtyMap(s) then Some(DirtyMap(s)[k])
    else None
  }

  predicate Current(s: State, e: Entry) {
    e.key in s.read && s.read[e.key] == e
  }

  /** No map leads to the entry any more. */
  predicate Nowhere(s: State, e: Entry) {
    !Current(s, e) && !(e.key in DirtyMap(s) && DirtyMap(s)[e.key] == e)
  }

  /** The abstract map: what is in `read`, else what is in an amending `dirty`. */
  function Lookup(s: State, k: Key): Option<Value> {
    var e := Locate(s, k);
    if e.Some? then Content(Peek(s, e.value)) else None
  }

  function Abs(s: State): map<Key, Value> {
    map k | k in s.read.Keys + DirtyMap(s).Keys && Lookup(s, k).Some? :: Lookup(s, k).value
  }

  ghost predicate Init(s: State) {
    s == State(map[], false, None, 0, map[], None, map[])
  }

  // ---------------------------------------------------------------- the steps

  /** What the scheduler and the allocator decide. */
  datatype Choice = Choice(op: Op, key: Key, address: nat)

  /** The new state, and the answer of the call if this step is the one at which it takes effect. */
  datatype Outcome = Outcome(state: State, effect: Option<Answer>)

  function Go(s: State, t: Goroutine, pc: Pc): Outcome {
    Outcome(s.(pcs := s.pcs[t := pc]), None)
  }

  function Take(s: State, t: Goroutine, pc: Pc, answer: Answer): Outcome {
    Outcome(s.(pcs := s.pcs[t := pc]), Some(answer))
  }

  function Write(s: State, e: Entry, p: Pointer): State {
    s.(heap := s.heap[e := p])
  }

  predicate Stores(op: Op) {
    op.Swap? || op.LoadOrStore?
  }

  /** The calls that go on with the entry they find under mu after they have let go of mu. */
  predicate Seeks(op: Op) {
    op.Load? || op.LoadAndDelete? || op.CompareAndDelete?
  }

  predicate Enabled(s: State, t: Goroutine, c: Choice) {
    match PcOf(s, t)
    case Lock(_) => s.mu.None?
    case Copy(_, todo) => todo != {} ==> c.key in todo
    case Insert(op) => Entry(op.key, c.address) !in s.heap
    case Broken => false
    case _ => true
  }

  /** The lock-free first look at `m.read`. */
  function AfterReadFast(s: State, op: Op): Pc {
    if op.Range? && s.amended then Lock(op)
    else if op.key in s.read then TryEntry(op, s.read[op.key], FromRead)
    else if op.LoadOrStore? || op.Swap? || s.amended then Lock(op)
    else Return(op, Reply(None, op))
  }

  /** After loading `e.p` without the lock: load, delete, trySwap, tryLoadOrStore, tryCompareAndSwap. */
  function AfterLoad(op: Op, e: Entry, source: Source, p: Pointer): Pc {
    match op
    case Load(_) => Return(op, Prior(Content(p)))
    case Range(_) => Return(op, Prior(Content(p)))
    case LoadAndDelete(_) => if p.Boxed? then TryCas(op, e, source, p) else Return(op, Prior(None))
    case Swap(_, _) => if p.Expunged? then Lock(op) else TryCas(op, e, source, p)
    case LoadOrStore(_, _) =>
      if p.Expunged? then Lock(op)
      else if p.Boxed? then Return(op, Prior(Some(p.value)))
      else TryCas(op, e, source, p)
    case CompareAndSwap(_, expected, _) =>
      if Content(p) == Some(expected) then TryCas(op, e, source, p) else Return(op, Swapped(false))
    case CompareAndDelete(_, expected) =>
      if Content(p) == Some(expected) then TryCas(op, e, source, p) else Return(op, Swapped(false))
  }

  /** What a successful compare-and-swap of a call writes. */
  function Desired(op: Op, address: nat): Pointer {
    match op
    case Load(_) => Nil
    case Range(_) => Nil
    case LoadAndDelete(_) => Nil
    case CompareAndDelete(_, _) => Nil
    case _ => Boxed(address, op.value)
  }

  function RunTryCas(s: State, t: Goroutine, c: Choice, op: Op, e: Entry, source: Source, seen: Pointer): Outcome {
    if Peek(s, e) != seen then Go(s, t, TryEntry(op, e, source))
    else
      var answer := Reply(Content(seen), op);
      var s' := Write(s, e, Desired(op, c.address));
      // What an entry held that no map leads to was removed when LoadAndDelete took it out of dirty.
      if Nowhere(s, e) then Go(s', t, Return(op, answer)) else Take(s', t, Return(op, answer), answer)
  }

  /** Range goes through the map it has read, or has promoted. */
  function Shown(m: map<Key, Entry>, k: Key, source: Source): Next {
    if k in m then ToEntry(m[k], source) else ToReturn(Prior(None))
  }

  function RunReadLocked(s: State, t: Goroutine, op: Op): Outcome {
    if op.Range? then
      Go(s, t, if s.amended then Promote(op, Shown(DirtyMap(s), op.key, FromDirty))
               else Unlock(op, Shown(s.read, op.key, FromRead)))
    else if op.key in s.read then
      var e := s.read[op.key];
      if Stores(op) then Go(s, t, Unexpunge(op, e))
      else if op.CompareAndSwap? then Go(s, t, LockedEntry(op, e, false))
      else Go(s, t, Unlock(op, ToEntry(e, FromRead)))
    else if Seeks(op) then
      Go(s, t, if s.amended then LookDirty(op) else Unlock(op, ToReturn(Reply(None, op))))
    else if op.key in DirtyMap(s) then
      Go(s, t, LockedEntry(op, DirtyMap(s)[op.key], !op.Swap?))
    else if op.CompareAndSwap? then
      Go(s, t, Unlock(op, ToReturn(Swapped(false))))
    else if s.amended then
      Go(s, t, Insert(op))
    else if s.dirty.Some? then
      Go(s, t, Amend(op))
    else
      Go(s.(dirty := Some(map[])), t, Copy(op, s.read.Keys))
  }

  function RunLookDirty(s: State, t: Goroutine, op: Op): Outcome {
    if op.key !in DirtyMap(s) then Go(s, t, Miss(op, ToReturn(Reply(None, op))))
    else
      var e := DirtyMap(s)[op.key];
      if op.LoadAndDelete? then
        Take(s.(dirty := Some(DirtyMap(s) - {op.key})), t, Miss(op, ToEntry(e, FromDirty)), Prior(Content(Peek(s, e))))
      else Go(s, t, Miss(op, ToEntry(e, FromDirty)))
  }

  /** LoadOrStore and CompareAndSwap count a miss when the entry came from dirty. */
  function Done(op: Op, missed: bool, answer: Answer): Pc {
    if missed then Miss(op, ToReturn(answer)) else Unlock(op, ToReturn(answer))
  }

  function RunLockedEntry(s: State, t: Goroutine, c: Choice, op: Op, e: Entry, missed: bool): Outcome {
    var p := Peek(s, e);
    match op
    case Swap(_, value) =>
      if p.Expunged? then Go(s, t, Broken)
      else
        var answer := Prior(Content(p));
        Take(Write(s, e, Boxed(c.address, value)), t, Done(op, missed, answer), answer)
    case LoadOrStore(_, _) =>
      if p.Expunged? then Go(s, t, Broken)
      else if p.Boxed? then Go(s, t, Done(op, missed, Prior(Some(p.value))))
      else Go(s, t, LockedCas(op, e, p, missed))
    case CompareAndSwap(_, expected, _) =>
      if Content(p) == Some(expected) then Go(s, t, LockedCas(op, e, p, missed))
      else Go(s, t, Done(op, missed, Swapped(false)))
    case _ => Go(s, t, Broken)
  }

  function RunLockedCas(s: State, t: Goroutine, c: Choice, op: Op, e: Entry, seen: Pointer, missed: bool): Outcome {
    if Peek(s, e) != seen then Go(s, t, LockedEntry(op, e, missed))
    else
      var answer := Reply(Content(seen), op);
      Take(Write(s, e, Desired(op, c.address)), t, Done(op, missed, answer), answer)
  }

  function RunProbe(s: State, t: Goroutine, op: Op, todo: set<Key>, k: Key): Outcome {
    if k !in s.read || s.dirty.None? then Go(s, t, Broken)
    else
      match Peek(s, s.read[k])
      case Nil => Go(s, t, Expunge(op, todo, k))
      case Expunged => Go(s, t, Copy(op, todo - {k}))
      case Boxed(_, _) => Go(s.(dirty := Some(s.dirty.value[k := s.read[k]])), t, Copy(op, todo - {k}))
  }

  function RunExpunge(s: State, t: Goroutine, op: Op, todo: set<Key>, k: Key): Outcome {
    if k !in s.read then Go(s, t, Broken)
    else if Peek(s, s.read[k]).Nil? then Go(Write(s, s.read[k], Expunged), t, Copy(op, todo - {k}))
    else Go(s, t, Probe(op, todo, k))
  }

  function RunInsert(s: State, t: Goroutine, c: Choice, op: Op): Outcome {
    if s.dirty.None? || !Stores(op) then Go(s, t, Broken)
    else
      var e := Entry(op.key, c.address);
      var s' := Write(s, e, Boxed(c.address, op.value)).(dirty := Some(s.dirty.value[op.key := e]));
      Take(s', t, Unlock(op, ToReturn(Prior(None))), Prior(None))
  }

  function Apply(s: State, t: Goroutine, c: Choice): Outcome {
    match PcOf(s, t)
    case Idle => Go(s, t, ReadFast(c.op))
    case ReadFast(op) => Go(s, t, AfterReadFast(s, op))
    case TryEntry(op, e, source) => Go(s, t, AfterLoad(op, e, source, Peek(s, e)))
    case TryCas(op, e, source, seen) => RunTryCas(s, t, c, op, e, source, seen)
    case Lock(op) => Go(s.(mu := Some(t)), t, ReadLocked(op))
    case ReadLocked(op) => RunReadLocked(s, t, op)
    case LookDirty(op) => RunLookDirty(s, t, op)
    case Miss(op, next) =>
      Go(s.(misses := s.misses + 1), t,
         if s.misses + 1 < |DirtyMap(s)| then Unlock(op, next) else Promote(op, next))
    case Promote(op, next) => Go(s.(read := DirtyMap(s), amended := false), t, ClearDirty(op, next))
    case ClearDirty(op, next) => Go(s.(dirty := None, misses := 0), t, Unlock(op, next))
    case Unexpunge(op, e) =>
      if Peek(s, e).Expunged? then Go(Write(s, e, Nil), t, Readd(op, e)) else Go(s, t, LockedEntry(op, e, false))
    case Readd(op, e) =>
      if s.dirty.None? then Go(s, t, Broken)
      else Go(s.(dirty := Some(s.dirty.value[op.key := e])), t, LockedEntry(op, e, false))
    case LockedEntry(op, e, missed) => RunLockedEntry(s, t, c, op, e, missed)
    case LockedCas(op, e, seen, missed) => RunLockedCas(s, t, c, op, e, seen, missed)
    case Copy(op, todo) => Go(s, t, if todo == {} then Amend(op) else Probe(op, todo, c.key))
    case Probe(op, todo, k) => RunProbe(s, t, op, todo, k)
    case Expunge(op, todo, k) => RunExpunge(s, t, op, todo, k)
    case Amend(op) => Go(s.(amended := true), t, Insert(op))
    case Insert(op) => RunInsert(s, t, c, op)
    case Unlock(op, next) =>
      Go(s.(mu := None), t, if next.ToEntry? then TryEntry(op, next.entry, next.source) else Return(op, next.answer))
    case Return(_, _) => Go(s, t, Idle)
    case Broken => Go(s, t, Broken)
  }
}
