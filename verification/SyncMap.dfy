/** The map of syncmap/syncmap.go called by one goroutine at a time: entries are objects shared by the
    two maps, and every exported operation acts on the abstract map as on a plain one. */
module SyncMap {
  import opened Wrappers

  datatype Pointer<V> = Nil | Expunged | Boxed(value: V)

  function Content<V>(p: Pointer<V>): Option<V> {
    if p.Boxed? then Some(p.value) else None
  }

  function Get<K, V>(m: map<K, V>, k: K): Option<V> {
    if k in m then Some(m[k]) else None
  }

  lemma SameMap<K(!new), V>(m: map<K, V>, n: map<K, V>)
    requires forall k :: Get(m, k) == Get(n, k)
    ensures m == n
  {
    forall k ensures k in m <==> k in n {
      assert Get(m, k) == Get(n, k);
    }
    forall k | k in m ensures m[k] == n[k] {
      assert Get(m, k) == Get(n, k);
    }
  }

  /** Reading a nil map finds nothing. */
  function Table<K, E>(m: Option<map<K, E>>): map<K, E> {
    if m.Some? then m.value else map[]
  }

  /** What one miss does to the maps and the count: the miss that reaches the size of dirty promotes it. */
  predicate Counted<K, E(==)>(wasRead: map<K, E>, wasDirty: map<K, E>, wasMisses: nat, read: map<K, E>,
                              dirty: Option<map<K, E>>, misses: nat)
  {
    if wasMisses + 1 < |wasDirty| then misses == wasMisses + 1 && read == wasRead && dirty == Some(wasDirty)
    else misses == 0 && read == wasDirty && dirty == None
  }

  predicate Unmoved<K, E(==)>(wasRead: map<K, E>, wasDirty: Option<map<K, E>>, wasMisses: nat, read: map<K, E>,
                              dirty: Option<map<K, E>>, misses: nat)
  {
    misses == wasMisses && read == wasRead && dirty == wasDirty
  }

  class Entry<K(!new), V(==, !new)> {
    ghost const key: K
    var p: Pointer<V>

    constructor (ghost key: K, value: V)
      ensures this.key == key && p == Boxed(value)
    {
      this.key := key;
      p := Boxed(value);
    }

    /** Swaps in a value unless the entry is expunged. */
    method TrySwap(value: V) returns (previous: Option<V>, ok: bool)
      modifies this
      ensures ok <==> old(p) != Expunged
      ensures p == if ok then Boxed(value) else old(p)
      ensures ok ==> previous == old(Content(p))
    {
      if p.Expunged? { return None, false; }
      previous, ok := Content(p), true;
      p := Boxed(value);
    }

    /** Loads the value if there is one, stores one if the entry is merely empty. */
    method TryLoadOrStore(value: V) returns (actual: Option<V>, loaded: bool, ok: bool)
      modifies this
      ensures ok <==> old(p) != Expunged
      ensures loaded <==> old(p).Boxed?
      ensures ok ==> actual == Some(if loaded then old(p).value else value)
      ensures p == if old(p) == Nil then Boxed(value) else old(p)
    {
      match p
      case Expunged => return None, false, false;
      case Boxed(v) => return Some(v), true, true;
      case Nil =>
        p := Boxed(value);
        return Some(value), false, true;
    }

    method TryCompareAndSwap(expected: V, value: V) returns (swapped: bool)
      modifies this
      ensures swapped <==> old(p) == Boxed(expected)
      ensures p == if swapped then Boxed(value) else old(p)
    {
      swapped := p == Boxed(expected);
      if swapped { p := Boxed(value); }
    }

    method CompareAndDelete(expected: V) returns (deleted: bool)
      modifies this
      ensures deleted <==> old(p) == Boxed(expected)
      ensures p == if deleted then Nil else old(p)
    {
      deleted := p == Boxed(expected);
      if deleted { p := Nil; }
    }

    method Delete() returns (value: Option<V>)
      modifies this
      ensures value == old(Content(p))
      ensures p == if old(p).Boxed? then Nil else old(p)
    {
      value := Content(p);
      if p.Boxed? { p := Nil; }
    }

    method UnexpungeLocked() returns (wasExpunged: bool)
      modifies this
      ensures wasExpunged <==> old(p) == Expunged
      ensures p == if wasExpunged then Nil else old(p)
    {
      wasExpunged := p.Expunged?;
      if wasExpunged { p := Nil; }
    }

    method TryExpungeLocked() returns (isExpunged: bool)
      modifies this
      ensures isExpunged <==> !old(p).Boxed?
      ensures p == if isExpunged then Expunged else old(p)
    {
      if p.Nil? { p := Expunged; }
      isExpunged := p.Expunged?;
    }
  }

  class Map<K(==, !new), V(==, !new)> {
    var read: map<K, Entry<K, V>>
    var amended: bool
    var dirty: Option<map<K, Entry<K, V>>>
    var misses: nat
    ghost var entries: set<Entry<K, V>>

    constructor ()
      ensures Valid() && Contents() == map[] && entries == {}
    {
      read, amended, dirty, misses, entries := map[], false, None, 0, {};
    }

    /** Every entry of either map is one of ours and sits under its own key. */
    ghost predicate Linked()
      reads this
    {
      && (forall k :: k in read ==> read[k] in entries && read[k].key == k)
      && (forall k :: k in Table(dirty) ==> Table(dirty)[k] in entries && Table(dirty)[k].key == k)
      && (forall k :: k in read && k in Table(dirty) ==> read[k] == Table(dirty)[k])
    }

    /** The discipline whenever `mu` is free. */
    ghost predicate Valid()
      reads this, entries
    {
      && Linked()
      && (dirty.Some? <==> amended)
      && (forall k :: k in Table(dirty) ==> Table(dirty)[k].p != Expunged)
      && (forall k :: k in read ==> (read[k].p == Expunged <==> dirty.Some? && k !in dirty.value))
      && (if dirty.Some? then misses < |dirty.value| else misses == 0)
    }

    ghost function Find(k: K): Option<Entry<K, V>>
      reads this
    {
      if k in read then Some(read[k]) else if k in Table(dirty) then Some(Table(dirty)[k]) else None
    }

    ghost function Lookup(k: K): Option<V>
      requires Linked()
      reads this, entries
    {
      if Find(k).Some? then Content(Find(k).value.p) else None
    }

    /** The plain map this object stands for. */
    ghost function Contents(): map<K, V>
      requires Linked()
      reads this, entries
    {
      map k | k in read.Keys + Table(dirty).Keys && Lookup(k).Some? :: Lookup(k).value
    }

    lemma LookupContents(k: K)
      requires Linked()
      ensures Get(Contents(), k) == Lookup(k)
    {
    }

    lemma ContentsAre(m: map<K, V>)
      requires Linked() && forall k :: Lookup(k) == Get(m, k)
      ensures Contents() == m
    {
      forall k ensures Get(Contents(), k) == Get(m, k) {
        LookupContents(k);
      }
      SameMap(Contents(), m);
    }

    /** missLocked: one more miss, or the promotion of dirty. */
    method MissLocked()
      requires Linked() && amended && dirty.Some?
      requires forall k :: k in Table(dirty) ==> Table(dirty)[k].p != Expunged
      requires forall k :: k in read ==> (read[k].p == Expunged <==> k !in dirty.value)
      modifies this
      ensures entries == old(entries)
      ensures Valid()
      ensures forall k :: Lookup(k) == old(Lookup(k))
      ensures Counted(old(read), old(dirty).value, old(misses), read, dirty, misses)
    {
      assert Table(dirty) == dirty.value;
      misses := misses + 1;
      if misses < |dirty.value| {
        return;
      }
      read, amended := dirty.value, false;
      dirty := None;
      misses := 0;
    }

    /** dirtyLocked: a copy of read without its dead entries, which become expunged. */
    method DirtyLocked()
      requires Valid()
      modifies this`dirty, entries
      ensures entries == old(entries) && read == old(read) && amended == old(amended) && misses == old(misses)
      ensures dirty.Some? && Linked()
      ensures dirty.value.Keys <= (if old(dirty).Some? then old(dirty).value.Keys else read.Keys)
      ensures old(dirty).Some? ==> dirty == old(dirty)
      ensures forall k :: k in dirty.value ==> dirty.value[k].p != Expunged
      ensures forall k :: k in read ==> (read[k].p == Expunged <==> k !in dirty.value)
      ensures forall k :: Lookup(k) == old(Lookup(k))
    {
      assert dirty.Some? ==> Table(dirty) == dirty.value;
      if dirty.Some? { return; }
      var todo := read.Keys;
      var copy: map<K, Entry<K, V>> := map[];
      while todo != {}
        invariant todo <= read.Keys && copy.Keys <= read.Keys - todo
        invariant forall k :: k in copy ==> copy[k] == read[k] && read[k].p != Expunged
        invariant forall k :: k in read && k !in todo && k !in copy ==> read[k].p == Expunged
        invariant forall k :: k in todo ==> read[k].p == old(read[k].p)
        invariant forall k :: k in read ==> Content(read[k].p) == old(Content(read[k].p))
        decreases todo
      {
        var k :| k in todo;
        var isExpunged := read[k].TryExpungeLocked();
        if !isExpunged { copy := copy[k := read[k]]; }
        todo := todo - {k};
      }
      dirty := Some(copy);
    }

    method Load(key: K) returns (value: Option<V>)
      requires Valid()
      modifies this
      ensures Valid() && entries == old(entries)
      ensures value == Get(old(Contents()), key)
      ensures Contents() == old(Contents())
      ensures if key in old(read) || !old(amended) then Unmoved(old(read), old(dirty), old(misses), read, dirty, misses)
              else Counted(old(read), old(dirty).value, old(misses), read, dirty, misses)
    {
      LookupContents(key);
      ghost var was := Contents();
      forall k ensures Lookup(k) == Get(was, k) { LookupContents(k); }
      if key in read {
        value := Content(read[key].p);
      } else if amended {
        if key in dirty.value {
          var e := dirty.value[key];
          MissLocked();
          value := Content(e.p);
        } else {
          MissLocked();
          value := None;
        }
      } else {
        value := None;
      }
      ContentsAre(was);
    }

    method Swap(key: K, value: V) returns (previous: Option<V>)
      requires Valid()
      modifies this, entries
      ensures Valid() && fresh(entries - old(entries))
      ensures previous == Get(old(Contents()), key)
      ensures Contents() == old(Contents())[key := value]
    {
      ghost var was := Contents();
      forall k ensures Lookup(k) == Get(was, k) { LookupContents(k); }
      if key in read {
        var e := read[key];
        var v, ok := e.TrySwap(value);
        if ok {
          previous := v;
          ContentsAre(was[key := value]);
          return;
        }
      }
      previous := SwapLocked(key, value);
      ContentsAre(was[key := value]);
    }

    /** The part of Swap that runs under `mu`. */
    method SwapLocked(key: K, value: V) returns (previous: Option<V>)
      requires Valid()
      modifies this, entries
      ensures Valid() && fresh(entries - old(entries))
      ensures previous == old(Lookup(key))
      ensures forall k :: Lookup(k) == if k == key then Some(value) else old(Lookup(k))
    {
      if key in read {
        var e := read[key];
        Unexpunge(key);
        previous := Content(e.p);
        e.p := Boxed(value);
      } else if key in Table(dirty) {
        var e := dirty.value[key];
        previous := Content(e.p);
        e.p := Boxed(value);
      } else {
        previous := None;
        InsertNew(key, value);
      }
    }

    /** Makes sure that the entry of a key in read is not expunged, and in dirty if there is one. */
    method Unexpunge(key: K)
      requires Valid() && key in read
      modifies this`dirty, read[key]
      ensures Valid() && read[key].p != Expunged
      ensures read[key].p == if old(read[key].p) == Expunged then Nil else old(read[key].p)
      ensures forall k :: Lookup(k) == old(Lookup(k))
    {
      var e := read[key];
      var wasExpunged := e.UnexpungeLocked();
      if wasExpunged {
        dirty := Some(dirty.value[key := e]);
      }
    }

    /** A key in neither map: allocates dirty if need be, and adds the key to it. */
    method InsertNew(key: K, value: V)
      requires Valid() && key !in read && key !in Table(dirty)
      modifies this, entries
      ensures Valid() && fresh(entries - old(entries))
      ensures forall k :: Lookup(k) == if k == key then Some(value) else old(Lookup(k))
    {
      if !amended {
        DirtyLocked();
        amended := true;
      }
      AddNew(key, value);
    }

    /** m.dirty[key] = newEntry(value), once dirty is there. */
    method AddNew(key: K, value: V)
      requires Linked() && amended && dirty.Some? && misses <= |dirty.value|
      requires forall k :: k in dirty.value ==> dirty.value[k].p != Expunged
      requires forall k :: k in read ==> (read[k].p == Expunged <==> k !in dirty.value)
      requires key !in read && key !in dirty.value
      modifies this
      ensures Valid() && fresh(entries - old(entries))
      ensures forall k :: Lookup(k) == if k == key then Some(value) else old(Lookup(k))
    {
      var e := new Entry(key, value);
      ghost var table := dirty.value;
      assert Table(dirty) == table;
      dirty := Some(dirty.value[key := e]);
      entries := entries + {e};
      assert Table(dirty) == table[key := e];
      assert forall k :: k in table ==> table[k] != e;
      assert forall k :: k in read ==> read[k] != e;
    }

    method Store(key: K, value: V)
      requires Valid()
      modifies this, entries
      ensures Valid() && fresh(entries - old(entries))
      ensures Contents() == old(Contents())[key := value]
    {
      var _ := Swap(key, value);
    }

    method LoadOrStore(key: K, value: V) returns (actual: V, loaded: bool)
      requires Valid()
      modifies this, entries
      ensures Valid() && fresh(entries - old(entries))
      ensures loaded <==> key in old(Contents())
      ensures actual == if loaded then old(Contents())[key] else value
      ensures Contents() == if loaded then old(Contents()) else old(Contents())[key := value]
      ensures key !in old(read) && old(amended) && key in old(dirty).value ==>
                Counted(old(read), old(dirty).value, old(misses), read, dirty, misses)
    {
      ghost var was := Contents();
      forall k ensures Lookup(k) == Get(was, k) { LookupContents(k); }
      if key in read {
        var e := read[key];
        var a, l, ok := e.TryLoadOrStore(value);
        if ok {
          ContentsAre(if l then was else was[key := value]);
          return a.value, l;
        }
      }
      actual, loaded := LoadOrStoreLocked(key, value);
      ContentsAre(if loaded then was else was[key := value]);
    }

    /** The part of LoadOrStore that runs under `mu`; there tryLoadOrStore never refuses. */
    method LoadOrStoreLocked(key: K, value: V) returns (actual: V, loaded: bool)
      requires Valid()
      modifies this, entries
      ensures Valid() && fresh(entries - old(entries))
      ensures loaded <==> old(Lookup(key)).Some?
      ensures actual == if loaded then old(Lookup(key)).value else value
      ensures forall k :: Lookup(k) == if k == key then Some(actual) else old(Lookup(k))
      ensures key !in old(read) && old(amended) && key in old(dirty).value ==>
                Counted(old(read), old(dirty).value, old(misses), read, dirty, misses)
    {
      if key in read {
        var e := read[key];
        Unexpunge(key);
        var a, l, ok := e.TryLoadOrStore(value);
        assert ok;
        return a.value, l;
      } else if key in Table(dirty) {
        var e := dirty.value[key];
        var a, l, ok := e.TryLoadOrStore(value);
        assert ok;
        MissLocked();
        return a.value, l;
      } else {
        InsertNew(key, value);
        return value, false;
      }
    }

    method LoadAndDelete(key: K) returns (value: Option<V>)
      requires Valid()
      modifies this, entries
      ensures Valid() && entries == old(entries)
      ensures value == Get(old(Contents()), key)
      ensures Contents() == old(Contents()) - {key}
      ensures if key in old(read) || !old(amended) then Unmoved(old(read), old(dirty), old(misses), read, dirty, misses)
              else Counted(old(read), old(dirty).value - {key}, old(misses), read, dirty, misses)
    {
      ghost var was := Contents();
      forall k ensures Lookup(k) == Get(was, k) { LookupContents(k); }
      value := DeleteEntry(key);
      ContentsAre(was - {key});
    }

    method DeleteEntry(key: K) returns (value: Option<V>)
      requires Valid()
      modifies this, entries
      ensures Valid() && entries == old(entries)
      ensures value == old(Lookup(key))
      ensures forall k :: Lookup(k) == if k == key then None else old(Lookup(k))
      ensures if key in old(read) || !old(amended) then Unmoved(old(read), old(dirty), old(misses), read, dirty, misses)
              else Counted(old(read), old(dirty).value - {key}, old(misses), read, dirty, misses)
    {
      if key in read {
        value := read[key].Delete();
      } else if amended {
        if key in dirty.value {
          value := DeleteDirtyEntry(key);
        } else {
          assert dirty.value - {key} == dirty.value;
          MissLocked();
          value := None;
        }
      } else {
        value := None;
      }
    }

    method DeleteDirtyEntry(key: K) returns (value: Option<V>)
      requires Valid() && key !in read && amended && key in dirty.value
      modifies this, entries
      ensures Valid() && entries == old(entries)
      ensures Counted(old(read), old(dirty).value - {key}, old(misses), read, dirty, misses)
      ensures value == old(Lookup(key))
      ensures forall k :: Lookup(k) == if k == key then None else old(Lookup(k))
    {
      var e := dirty.value[key];
      assert Table(dirty)[key] in entries;
      RemoveDirty(key);
      value := e.Delete();
      assert forall k :: Find(k).Some? ==> Find(k).value != e;
    }

    /** delete(m.dirty, key), counted as a miss. */
    method RemoveDirty(key: K)
      requires Valid() && key !in read && amended && key in dirty.value
      modifies this
      ensures Valid() && entries == old(entries)
      ensures forall k :: Lookup(k) == if k == key then None else old(Lookup(k))
      ensures forall k :: Find(k) != Some(old(dirty).value[key])
      ensures Counted(old(read), old(dirty).value - {key}, old(misses), read, dirty, misses)
    {
      ghost var table := dirty.value;
      assert Table(dirty) == table;
      dirty := Some(dirty.value - {key});
      assert Table(dirty) == table - {key};
      MissLocked();
      assert Table(dirty) == (if dirty.Some? then table - {key} else map[]);
    }

    method Delete(key: K)
      requires Valid()
      modifies this, entries
      ensures Valid() && entries == old(entries)
      ensures Contents() == old(Contents()) - {key}
    {
      var _ := LoadAndDelete(key);
    }

    method CompareAndSwap(key: K, expected: V, value: V) returns (swapped: bool)
      requires Valid()
      modifies this, entries
      ensures Valid() && entries == old(entries)
      ensures swapped <==> Get(old(Contents()), key) == Some(expected)
      ensures Contents() == if swapped then old(Contents())[key := value] else old(Contents())
      ensures if key in old(read) || !old(amended) || key !in old(dirty).value
              then Unmoved(old(read), old(dirty), old(misses), read, dirty, misses)
              else Counted(old(read), old(dirty).value, old(misses), read, dirty, misses)
    {
      ghost var was := Contents();
      forall k ensures Lookup(k) == Get(was, k) { LookupContents(k); }
      swapped := false;
      if key in read {
        swapped := read[key].TryCompareAndSwap(expected, value);
      } else if amended && key in dirty.value {
        swapped := dirty.value[key].TryCompareAndSwap(expected, value);
        MissLocked();
      }
      ContentsAre(if swapped then was[key := value] else was);
    }

    method CompareAndDelete(key: K, expected: V) returns (deleted: bool)
      requires Valid()
      modifies this, entries
      ensures Valid() && entries == old(entries)
      ensures deleted <==> Get(old(Contents()), key) == Some(expected)
      ensures Contents() == if deleted then old(Contents()) - {key} else old(Contents())
      ensures if key in old(read) || !old(amended) then Unmoved(old(read), old(dirty), old(misses), read, dirty, misses)
              else Counted(old(read), old(dirty).value, old(misses), read, dirty, misses)
    {
      ghost var was := Contents();
      forall k ensures Lookup(k) == Get(was, k) { LookupContents(k); }
      deleted := CompareAndDeleteEntry(key, expected);
      ContentsAre(if deleted then was - {key} else was);
    }

    method CompareAndDeleteEntry(key: K, expected: V) returns (deleted: bool)
      requires Valid()
      modifies this, entries
      ensures Valid() && entries == old(entries)
      ensures deleted <==> old(Lookup(key)) == Some(expected)
      ensures forall k :: Lookup(k) == if deleted && k == key then None else old(Lookup(k))
      ensures if key in old(read) || !old(amended) then Unmoved(old(read), old(dirty), old(misses), read, dirty, misses)
              else Counted(old(read), old(dirty).value, old(misses), read, dirty, misses)
    {
      deleted := false;
      if key in read {
        deleted := read[key].CompareAndDelete(expected);
      } else if amended {
        if key in dirty.value {
          var e := dirty.value[key];
          assert Table(dirty)[key] in entries;
          MissLocked();
          deleted := e.CompareAndDelete(expected);
        } else {
          MissLocked();
        }
      }
    }

    /** Range: visits the entries of read, after promoting dirty if read is incomplete, until `more`
        says no. No key is visited twice, every visit shows the map's value, and nothing is left out
        unless `more` stopped the iteration at the last visit. */
    method Range(more: (K, V) -> bool) returns (visited: seq<(K, V)>)
      requires Valid()
      modifies this
      ensures Valid() && entries == old(entries) && Contents() == old(Contents())
      ensures !amended && read == (if old(amended) then old(dirty).value else old(read))
      ensures forall i, j :: 0 <= i < j < |visited| ==> visited[i].0 != visited[j].0
      ensures forall i :: 0 <= i < |visited| ==> Get(old(Contents()), visited[i].0) == Some(visited[i].1)
      ensures forall i :: 0 <= i < |visited| - 1 ==> more(visited[i].0, visited[i].1)
      ensures (visited != [] && !more(visited[|visited| - 1].0, visited[|visited| - 1].1))
              || (forall k :: k in old(Contents()) ==> exists i :: 0 <= i < |visited| && visited[i].0 == k)
    {
      ghost var was := Contents();
      forall k ensures Lookup(k) == Get(was, k) { LookupContents(k); }
      if amended {
        PromoteAll();
      }
      ContentsAre(was);
      visited := [];
      var todo := read.Keys;
      while todo != {}
        invariant todo <= read.Keys
        invariant forall i :: 0 <= i < |visited| ==> visited[i].0 in read && visited[i].0 !in todo
        invariant forall i, j :: 0 <= i < j < |visited| ==> visited[i].0 != visited[j].0
        invariant forall i :: 0 <= i < |visited| ==> Get(was, visited[i].0) == Some(visited[i].1)
        invariant forall i :: 0 <= i < |visited| ==> more(visited[i].0, visited[i].1)
        invariant forall k :: k in was && k !in todo ==> exists i :: 0 <= i < |visited| && visited[i].0 == k
        decreases todo
      {
        var k :| k in todo;
        todo := todo - {k};
        assert Lookup(k) == Get(was, k);
        var v := Content(read[k].p);
        if v.Some? {
          ghost var before := visited;
          visited := visited + [(k, v.value)];
          assert visited[|before|].0 == k;
          assert forall i :: 0 <= i < |before| ==> visited[i] == before[i];
          if !more(k, v.value) {
            return;
          }
        }
      }
    }

    /** The promotion at the start of Range. */
    method PromoteAll()
      requires Valid() && amended
      modifies this
      ensures Valid() && !amended && entries == old(entries) && read == old(dirty).value
      ensures forall k :: Lookup(k) == old(Lookup(k))
    {
      assert Table(dirty) == dirty.value;
      read, amended := dirty.value, false;
      dirty := None;
      misses := 0;
    }
  }
}
