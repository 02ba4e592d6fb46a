/** The order of a listing: files/sort.go, and the part of files/entry.go that it reads. */
module FilesSort {
  import opened Text

  /** The fields of an entry that listing, watching and paging never look at. */
  type Detail(==, !new, 0)

  datatype Entry = Entry(
    name: string,
    isDir: bool,
    hidden: bool,
    size: int,
    mtimeMs: int,
    mime: string,
    thumbnail: string,
    detail: Detail,
    nameKey: string)  // the collation key, an opaque byte string

  datatype SortKey = SortName | SortSize | SortMtime | SortType

  datatype SortSpec = SortSpec(key: SortKey, desc: bool, dirsFirst: bool)

  // ---------------------------------------------------------------- the comparator

  function CompareName(a: Entry, b: Entry): int {
    var c := CompareBytes(a.nameKey, b.nameKey);
    if c != 0 then c else CompareBytes(a.name, b.name)
  }

  function CompareBy(a: Entry, b: Entry, key: SortKey): int {
    match key
    case SortSize => CompareInt(a.size, b.size)
    case SortMtime => CompareInt(a.mtimeMs, b.mtimeMs)
    case SortType => CompareBytes(a.mime, b.mime)
    case SortName => CompareName(a, b)
  }

  /** The comparator that sortEntries and insertSorted share. */
  function Compare(spec: SortSpec, a: Entry, b: Entry): int {
    if spec.dirsFirst && a.isDir != b.isDir then if a.isDir then -1 else 1
    else
      var c := CompareBy(a, b, spec.key);
      if c != 0 then if spec.desc then -c else c
      else CompareName(a, b)
  }

  lemma CompareNameLaws(a: Entry, b: Entry)
    ensures CompareName(a, b) == -CompareName(b, a)
    ensures CompareName(a, b) == 0 <==> a.nameKey == b.nameKey && a.name == b.name
  {
    CompareBytesLaws(a.nameKey, b.nameKey);
    CompareBytesLaws(a.name, b.name);
  }

  lemma CompareNameTransitive(a: Entry, b: Entry, c: Entry)
    requires CompareName(a, b) <= 0 && CompareName(b, c) <= 0
    ensures CompareName(a, c) <= 0
    ensures CompareName(a, c) == 0 ==> CompareName(a, b) == 0 && CompareName(b, c) == 0
  {
    CompareBytesTransitive(a.nameKey, b.nameKey, c.nameKey);
    if CompareBytes(a.nameKey, b.nameKey) == 0 && CompareBytes(b.nameKey, c.nameKey) == 0 {
      CompareBytesTransitive(a.name, b.name, c.name);
    }
    CompareBytesLaws(a.nameKey, b.nameKey);
    CompareBytesLaws(b.nameKey, c.nameKey);
  }

  lemma CompareByLaws(a: Entry, b: Entry, key: SortKey)
    ensures CompareBy(a, b, key) == -CompareBy(b, a, key)
  {
    CompareBytesLaws(a.mime, b.mime);
    CompareNameLaws(a, b);
  }

  lemma CompareByTransitive(a: Entry, b: Entry, c: Entry, key: SortKey)
    requires CompareBy(a, b, key) <= 0 && CompareBy(b, c, key) <= 0
    ensures CompareBy(a, c, key) <= 0
    ensures CompareBy(a, c, key) == 0 ==> CompareBy(a, b, key) == 0 && CompareBy(b, c, key) == 0
  {
    match key
    case SortType => CompareBytesTransitive(a.mime, b.mime, c.mime);
    case SortName => CompareNameTransitive(a, b, c);
    case _ =>
  }

  /** The comparator is a strict total order on entries with distinct names, whatever the spec. */
  lemma CompareIsTotal(spec: SortSpec, a: Entry, b: Entry)
    ensures Compare(spec, a, b) == -Compare(spec, b, a)
    ensures Compare(spec, a, b) == 0 <==>
              a.name == b.name && a.nameKey == b.nameKey && CompareBy(a, b, spec.key) == 0
              && (spec.dirsFirst ==> a.isDir == b.isDir)
  {
    CompareByLaws(a, b, spec.key);
    CompareNameLaws(a, b);
  }

  // ---------------------------------------------------------------- the order, in the fields of the entries

  ghost predicate NameBefore(a: Entry, b: Entry) {
    Lower(a.nameKey, b.nameKey) || (a.nameKey == b.nameKey && Lower(a.name, b.name))
  }

  ghost predicate FieldBefore(key: SortKey, a: Entry, b: Entry) {
    match key
    case SortSize => a.size < b.size
    case SortMtime => a.mtimeMs < b.mtimeMs
    case SortType => Lower(a.mime, b.mime)
    case SortName => NameBefore(a, b)
  }

  /** Directories come first if they are to; then the sorted field decides, the other way round if descending; and
      what agrees in it goes by name, never the other way round. */
  ghost predicate ListedBefore(spec: SortSpec, a: Entry, b: Entry) {
    if spec.dirsFirst && a.isDir != b.isDir then a.isDir
    else if FieldBefore(spec.key, a, b) then !spec.desc
    else if FieldBefore(spec.key, b, a) then spec.desc
    else NameBefore(a, b)
  }

  lemma CompareNameTells(a: Entry, b: Entry)
    ensures CompareName(a, b) < 0 <==> NameBefore(a, b)
  {
    CompareBytesTells(a.nameKey, b.nameKey);
    CompareBytesTells(a.name, b.name);
    CompareBytesLaws(a.nameKey, b.nameKey);
  }

  lemma CompareByTells(key: SortKey, a: Entry, b: Entry)
    ensures CompareBy(a, b, key) < 0 <==> FieldBefore(key, a, b)
  {
    CompareBytesTells(a.mime, b.mime);
    CompareNameTells(a, b);
  }

  /** The comparator puts one entry before another exactly when it is to be listed before it. */
  lemma CompareTells(spec: SortSpec, a: Entry, b: Entry)
    ensures Compare(spec, a, b) < 0 <==> ListedBefore(spec, a, b)
  {
    CompareByTells(spec.key, a, b);
    CompareByTells(spec.key, b, a);
    CompareByLaws(a, b, spec.key);
    CompareNameTells(a, b);
  }

  lemma CompareIsTransitive(spec: SortSpec, a: Entry, b: Entry, c: Entry)
    requires Compare(spec, a, b) <= 0 && Compare(spec, b, c) <= 0
    ensures Compare(spec, a, c) <= 0
    ensures Compare(spec, a, c) == 0 ==> Compare(spec, a, b) == 0 && Compare(spec, b, c) == 0
  {
    CompareByLaws(a, b, spec.key);
    CompareByLaws(b, c, spec.key);
    CompareByLaws(a, c, spec.key);
    if CompareBy(a, b, spec.key) <= 0 && CompareBy(b, c, spec.key) <= 0 {
      CompareByTransitive(a, b, c, spec.key);
    }
    if CompareBy(c, b, spec.key) <= 0 && CompareBy(b, a, spec.key) <= 0 {
      CompareByTransitive(c, b, a, spec.key);
    }
    if CompareName(a, b) <= 0 && CompareName(b, c) <= 0 {
      CompareNameTransitive(a, b, c);
    }
  }

  // ---------------------------------------------------------------- lists

  ghost predicate DistinctNames(s: seq<Entry>) {
    forall i, j :: 0 <= i < j < |s| ==> s[i].name != s[j].name
  }

  /** The index of the entry with that name; the length of the list if there is none. */
  function IndexOf(s: seq<Entry>, name: string): (i: nat)
    ensures i <= |s|
    ensures i < |s| ==> s[i].name == name
    ensures forall k :: 0 <= k < i ==> s[k].name != name
  {
    if s == [] then 0
    else if s[0].name == name then 0
    else
      var i := IndexOf(s[1..], name);
      assert forall k :: 1 <= k < 1 + i ==> s[k] == s[1..][k - 1];
      1 + i
  }

  ghost predicate Sorted(spec: SortSpec, s: seq<Entry>) {
    forall i, j :: 0 <= i < j < |s| ==> Compare(spec, s[i], s[j]) <= 0
  }

  /** In a sorted listing of distinct names every entry is to be listed before all that follow it. */
  lemma SortedMeans(spec: SortSpec, s: seq<Entry>)
    requires DistinctNames(s)
    ensures Sorted(spec, s) <==> forall i, j | 0 <= i < j < |s| :: ListedBefore(spec, s[i], s[j])
  {
    forall i, j | 0 <= i < j < |s| ensures Compare(spec, s[i], s[j]) <= 0 <==> ListedBefore(spec, s[i], s[j]) {
      CompareTells(spec, s[i], s[j]);
      CompareIsTotal(spec, s[i], s[j]);
    }
  }

  function InsertAt<T>(s: seq<T>, i: nat, x: T): (r: seq<T>)
    requires i <= |s|
    ensures |r| == |s| + 1 && r[i] == x
  {
    s[..i] + [x] + s[i..]
  }

  function DeleteAt<T>(s: seq<T>, i: nat): (r: seq<T>)
    requires i < |s|
    ensures |r| == |s| - 1
  {
    s[..i] + s[i + 1..]
  }

  /** The number of leading entries that do not come after e: where a stable sort puts e last. */
  function StableIndex(spec: SortSpec, s: seq<Entry>, e: Entry): (i: nat)
    ensures i <= |s|
  {
    if s == [] || Compare(spec, s[|s| - 1], e) <= 0 then |s| else StableIndex(spec, s[..|s| - 1], e)
  }

  /** slices.SortStableFunc with the comparator: the stable sort, defined by insertion. */
  function SortEntries(spec: SortSpec, s: seq<Entry>): (r: seq<Entry>)
    ensures |r| == |s|
  {
    if s == [] then []
    else
      var front := SortEntries(spec, s[..|s| - 1]);
      InsertAt(front, StableIndex(spec, front, s[|s| - 1]), s[|s| - 1])
  }

  lemma InsertAtMultiset<T>(s: seq<T>, i: nat, x: T)
    requires i <= |s|
    ensures multiset(InsertAt(s, i, x)) == multiset(s) + multiset{x}
  {
    assert s == s[..i] + s[i..];
  }

  lemma DeleteAtMultiset<T>(s: seq<T>, i: nat)
    requires i < |s|
    ensures multiset(DeleteAt(s, i)) + multiset{s[i]} == multiset(s)
  {
    assert s == s[..i] + [s[i]] + s[i + 1..];
  }

  lemma {:induction false} StableIndexSplits(spec: SortSpec, s: seq<Entry>, e: Entry)
    requires Sorted(spec, s)
    ensures var i := StableIndex(spec, s, e);
            && (forall k :: 0 <= k < i ==> Compare(spec, s[k], e) <= 0)
            && (forall k :: i <= k < |s| ==> Compare(spec, e, s[k]) <= 0)
  {
    if s != [] {
      var last := s[|s| - 1];
      CompareIsTotal(spec, last, e);
      if Compare(spec, last, e) <= 0 {
        forall k | 0 <= k < |s| ensures Compare(spec, s[k], e) <= 0 {
          if k < |s| - 1 { CompareIsTransitive(spec, s[k], last, e); }
        }
      } else {
        var front := s[..|s| - 1];
        StableIndexSplits(spec, front, e);
        forall k | StableIndex(spec, s, e) <= k < |s| ensures Compare(spec, e, s[k]) <= 0 {
          if k < |front| { assert front[k] == s[k]; }
        }
      }
    }
  }

  lemma InsertKeepsSorted(spec: SortSpec, s: seq<Entry>, i: nat, e: Entry)
    requires Sorted(spec, s) && i <= |s|
    requires forall k :: 0 <= k < i ==> Compare(spec, s[k], e) <= 0
    requires forall k :: i <= k < |s| ==> Compare(spec, e, s[k]) <= 0
    ensures Sorted(spec, InsertAt(s, i, e))
  {
  }

  lemma LastInMultiset<T>(s: seq<T>)
    requires s != []
    ensures multiset(s) == multiset(s[..|s| - 1]) + multiset{s[|s| - 1]}
  {
    assert s == s[..|s| - 1] + [s[|s| - 1]];
  }

  lemma {:induction false} SortEntriesPermutes(spec: SortSpec, s: seq<Entry>)
    ensures multiset(SortEntries(spec, s)) == multiset(s)
  {
    if s != [] {
      var front, e := SortEntries(spec, s[..|s| - 1]), s[|s| - 1];
      SortEntriesPermutes(spec, s[..|s| - 1]);
      InsertAtMultiset(front, StableIndex(spec, front, e), e);
      LastInMultiset(s);
    }
  }

  lemma {:induction false} SortEntriesOrders(spec: SortSpec, s: seq<Entry>)
    ensures Sorted(spec, SortEntries(spec, s))
  {
    if s != [] {
      var front, e := SortEntries(spec, s[..|s| - 1]), s[|s| - 1];
      SortEntriesOrders(spec, s[..|s| - 1]);
      StableIndexSplits(spec, front, e);
      InsertKeepsSorted(spec, front, StableIndex(spec, front, e), e);
    }
  }

  /** sortEntries sorts, and permutes. */
  lemma SortEntriesSorts(spec: SortSpec, s: seq<Entry>)
    ensures Sorted(spec, SortEntries(spec, s))
    ensures multiset(SortEntries(spec, s)) == multiset(s)
  {
    SortEntriesOrders(spec, s);
    SortEntriesPermutes(spec, s);
  }

  lemma TwiceCounts(r: seq<Entry>, i: nat, j: nat)
    requires i < j < |r| && r[i] == r[j]
    ensures multiset(r)[r[i]] >= 2
  {
    assert r == r[..i] + [r[i]] + r[i + 1..j] + [r[j]] + r[j + 1..];
  }

  lemma OnceCounts(s: seq<Entry>, a: nat)
    requires DistinctNames(s) && a < |s|
    ensures multiset(s)[s[a]] == 1
  {
    assert s == s[..a] + [s[a]] + s[a + 1..];
    assert s[a] !in s[..a] && s[a] !in s[a + 1..];
  }

  lemma {:induction false} MultisetDistinct(s: seq<Entry>, r: seq<Entry>)
    requires DistinctNames(s) && multiset(s) == multiset(r)
    ensures DistinctNames(r)
  {
    forall i, j | 0 <= i < j < |r| ensures r[i].name != r[j].name {
      if r[i].name == r[j].name {
        assert r[i] in multiset(r) && r[j] in multiset(r);
        assert r[i] in s && r[j] in s;
        var a :| 0 <= a < |s| && s[a] == r[i];
        var b :| 0 <= b < |s| && s[b] == r[j];
        assert a == b;
        TwiceCounts(r, i, j);
        OnceCounts(s, a);
      }
    }
  }

  lemma SortedHead(spec: SortSpec, s: seq<Entry>, r: seq<Entry>)
    requires s != [] && Sorted(spec, s) && Sorted(spec, r) && multiset(s) == multiset(r) && DistinctNames(s)
    ensures r != [] && s[0] == r[0]
  {
    assert s[0] in multiset(r);
    assert r[0] in multiset(s);
    var i :| 0 <= i < |s| && s[i] == r[0];
    var j :| 0 <= j < |r| && r[j] == s[0];
    CompareIsTotal(spec, s[0], r[0]);
  }

  lemma SortedTail(spec: SortSpec, s: seq<Entry>)
    requires s != [] && Sorted(spec, s) && DistinctNames(s)
    ensures Sorted(spec, s[1..]) && DistinctNames(s[1..])
    ensures multiset(s[1..]) == multiset(s) - multiset{s[0]}
  {
    assert s == [s[0]] + s[1..];
  }

  /** With distinct names there is only one sorted order. */
  lemma {:induction false} SortedIsUnique(spec: SortSpec, s: seq<Entry>, r: seq<Entry>)
    requires Sorted(spec, s) && Sorted(spec, r) && multiset(s) == multiset(r) && DistinctNames(s)
    ensures s == r
  {
    if s == [] {
      assert |multiset(r)| == 0;
    } else {
      MultisetDistinct(s, r);
      SortedHead(spec, s, r);
      SortedTail(spec, s);
      SortedTail(spec, r);
      SortedIsUnique(spec, s[1..], r[1..]);
      assert s == [s[0]] + s[1..] && r == [r[0]] + r[1..];
    }
  }

  // ---------------------------------------------------------------- insertion by binary search

  /** Which entries come before e. */
  function Lowers(spec: SortSpec, s: seq<Entry>, e: Entry): (lowers: seq<bool>)
    ensures |lowers| == |s|
    ensures forall k :: 0 <= k < |s| ==> lowers[k] == (Compare(spec, s[k], e) < 0)
  {
    seq(|s|, k requires 0 <= k < |s| => Compare(spec, s[k], e) < 0)
  }

  /** slices.BinarySearchFunc between i and j. */
  function SearchBetween(lowers: seq<bool>, i: nat, j: nat): (r: nat)
    requires i <= j <= |lowers|
    ensures i <= r <= j
    decreases j - i
  {
    if i == j then i
    else
      var h := (i + j) / 2;
      if lowers[h] then SearchBetween(lowers, h + 1, j) else SearchBetween(lowers, i, h)
  }

  /** If all that are lower come first, the search finds where they end. */
  lemma {:induction false} SearchSplits(lowers: seq<bool>, i: nat, j: nat)
    requires i <= j <= |lowers| && forall a, b :: 0 <= a < b < |lowers| && lowers[b] ==> lowers[a]
    ensures var r := SearchBetween(lowers, i, j);
            (forall k :: i <= k < r ==> lowers[k]) && (forall k :: r <= k < j ==> !lowers[k])
    decreases j - i
  {
    if i < j {
      var h := (i + j) / 2;
      if lowers[h] { SearchSplits(lowers, h + 1, j); } else { SearchSplits(lowers, i, h); }
    }
  }

  function SearchIndex(spec: SortSpec, s: seq<Entry>, e: Entry): (r: nat)
    ensures r <= |s|
  {
    SearchBetween(Lowers(spec, s, e), 0, |s|)
  }

  /** What insertSorted returns, on any list. */
  function Inserted(spec: SortSpec, s: seq<Entry>, e: Entry): seq<Entry> {
    InsertAt(s, SearchIndex(spec, s, e), e)
  }

  /** What resortAround returns: the entry at `index` is taken out and put where it belongs. */
  function Resorted(spec: SortSpec, s: seq<Entry>, index: nat): seq<Entry>
    requires index < |s|
  {
    Inserted(spec, DeleteAt(s, index), s[index])
  }

  method InsertSorted(entries: seq<Entry>, e: Entry, spec: SortSpec) returns (r: seq<Entry>)
    ensures r == Inserted(spec, entries, e)
  {
    var i, j := 0, |entries|;
    while i < j
      invariant 0 <= i <= j <= |entries|
      invariant SearchBetween(Lowers(spec, entries, e), i, j) == SearchIndex(spec, entries, e)
    {
      var h := (i + j) / 2;
      if Compare(spec, entries[h], e) < 0 {
        i := h + 1;
      } else {
        j := h;
      }
    }
    r := entries[..i] + [e] + entries[i..];
  }

  /** In a sorted listing whatever comes before e comes first. */
  lemma LowersComeFirst(spec: SortSpec, s: seq<Entry>, e: Entry, a: nat, b: nat)
    requires Sorted(spec, s) && a < b < |s| && Compare(spec, s[b], e) < 0
    ensures Compare(spec, s[a], e) < 0
  {
    CompareIsTransitive(spec, s[a], s[b], e);
  }

  lemma SearchIndexSplits(spec: SortSpec, s: seq<Entry>, e: Entry)
    requires Sorted(spec, s)
    ensures forall k :: 0 <= k < SearchIndex(spec, s, e) ==> Compare(spec, s[k], e) < 0
    ensures forall k :: SearchIndex(spec, s, e) <= k < |s| ==> Compare(spec, e, s[k]) <= 0
  {
    var lowers := Lowers(spec, s, e);
    forall a, b | 0 <= a < b < |lowers| && lowers[b] ensures lowers[a] { LowersComeFirst(spec, s, e, a, b); }
    SearchSplits(lowers, 0, |s|);
    forall k | SearchIndex(spec, s, e) <= k < |s| ensures Compare(spec, e, s[k]) <= 0 {
      assert !lowers[k];
      CompareIsTotal(spec, s[k], e);
    }
  }

  /** Inserting into a sorted listing gives what sorting the whole listing gives. */
  lemma InsertEqualsSort(spec: SortSpec, s: seq<Entry>, e: Entry)
    requires Sorted(spec, s) && DistinctNames(s + [e])
    ensures Inserted(spec, s, e) == SortEntries(spec, s + [e])
    ensures Sorted(spec, Inserted(spec, s, e))
  {
    var i := SearchIndex(spec, s, e);
    SearchIndexSplits(spec, s, e);
    InsertKeepsSorted(spec, s, i, e);
    InsertAtMultiset(s, i, e);
    SortEntriesSorts(spec, s + [e]);
    MultisetDistinct(s + [e], InsertAt(s, i, e));
    SortedIsUnique(spec, Inserted(spec, s, e), SortEntries(spec, s + [e]));
  }

  /** Moving one entry, in a listing whose other entries are sorted, gives what sorting all of it gives. */
  lemma ResortEqualsSort(spec: SortSpec, s: seq<Entry>, index: nat)
    requires index < |s| && DistinctNames(s) && Sorted(spec, DeleteAt(s, index))
    ensures Resorted(spec, s, index) == SortEntries(spec, s)
  {
    var rest, e := DeleteAt(s, index), s[index];
    DeleteAtMultiset(s, index);
    assert multiset(rest + [e]) == multiset(s);
    MultisetDistinct(s, rest + [e]);
    InsertEqualsSort(spec, rest, e);
    SortEntriesSorts(spec, s);
    SortEntriesSorts(spec, rest + [e]);
    MultisetDistinct(s, SortEntries(spec, s));
    SortedIsUnique(spec, SortEntries(spec, s), SortEntries(spec, rest + [e]));
  }

  // ---------------------------------------------------------------- staying sorted

  lemma DeleteKeepsSorted(spec: SortSpec, s: seq<Entry>, i: nat)
    requires Sorted(spec, s) && i < |s|
    ensures Sorted(spec, DeleteAt(s, i))
  {
    var r := DeleteAt(s, i);
    forall a, b | 0 <= a < b < |r| ensures Compare(spec, r[a], r[b]) <= 0 {
      assert r[a] == s[if a < i then a else a + 1] && r[b] == s[if b < i then b else b + 1];
    }
  }

  /** A listing is sorted when neighbours are in order. */
  lemma {:induction false} NeighboursSort(spec: SortSpec, s: seq<Entry>)
    requires forall i :: 0 < i < |s| ==> Compare(spec, s[i - 1], s[i]) <= 0
    ensures Sorted(spec, s)
  {
    if |s| > 1 {
      var front, last := s[..|s| - 1], |s| - 1;
      NeighboursSort(spec, front);
      forall a | 0 <= a < last ensures Compare(spec, s[a], s[last]) <= 0 {
        if a < last - 1 {
          assert front[a] == s[a] && front[last - 1] == s[last - 1];
          CompareIsTransitive(spec, s[a], s[last - 1], s[last]);
        }
      }
      assert forall a, b :: 0 <= a < b < last ==> s[a] == front[a] && s[b] == front[b];
    }
  }

  /** The entry fits between the neighbours of the one it stands for. */
  predicate FitsAt(spec: SortSpec, s: seq<Entry>, i: nat, e: Entry)
    requires i < |s|
  {
    && (i > 0 ==> Compare(spec, s[i - 1], e) <= 0)
    && (i < |s| - 1 ==> Compare(spec, e, s[i + 1]) <= 0)
  }

  /** Overwriting an entry where it stands keeps a listing sorted exactly when the new one fits there. */
  lemma OverwriteSortedExactly(spec: SortSpec, s: seq<Entry>, i: nat, e: Entry)
    requires Sorted(spec, s) && i < |s|
    ensures Sorted(spec, s[i := e]) <==> FitsAt(spec, s, i, e)
  {
    var r := s[i := e];
    if FitsAt(spec, s, i, e) {
      forall k | 0 < k < |r| ensures Compare(spec, r[k - 1], r[k]) <= 0 {}
      NeighboursSort(spec, r);
    } else if i > 0 && Compare(spec, s[i - 1], e) > 0 {
      assert Compare(spec, r[i - 1], r[i]) > 0;
    } else {
      assert Compare(spec, r[i], r[i + 1]) > 0;
    }
  }
}
