/** The batches a directory watch sends: the diff of two views (files/watch.go) and the client that
    replays it, removing by name first and then inserting at final indices in order. */
module FilesDiff {
  import opened Wrappers
  import opened FilesSort

  datatype Kind = Changes | Thumbnails | Resync | Gone

  datatype Batch = Batch(
    kind: Kind,
    seqNo: nat,
    added: seq<Entry>,
    addedAt: seq<nat>,
    changed: seq<Entry>,
    removed: seq<string>,
    thumbnails: seq<Entry>)

  function EmptyBatch(kind: Kind): Batch {
    Batch(kind, 0, [], [], [], [], [])
  }

  // ---------------------------------------------------------------- lists of entries

  function Filter(p: Entry -> bool, s: seq<Entry>): seq<Entry> {
    if s == [] then []
    else Filter(p, s[..|s| - 1]) + (if p(s[|s| - 1]) then [s[|s| - 1]] else [])
  }

  function Names(s: seq<Entry>): (r: seq<string>)
    ensures |r| == |s| && forall i :: 0 <= i < |s| ==> r[i] == s[i].name
  {
    seq(|s|, i requires 0 <= i < |s| => s[i].name)
  }

  function NameSet(s: seq<Entry>): set<string> {
    set e | e in s :: e.name
  }

  function Among(names: set<string>): Entry -> bool {
    (e: Entry) => e.name in names
  }

  function Outside(names: set<string>): Entry -> bool {
    (e: Entry) => e.name !in names
  }

  lemma {:induction false} FilterConcat(p: Entry -> bool, s: seq<Entry>, r: seq<Entry>)
    ensures Filter(p, s + r) == Filter(p, s) + Filter(p, r)
  {
    if r == [] {
      assert s + r == s;
    } else {
      FilterConcat(p, s, r[..|r| - 1]);
      assert (s + r)[..|s + r| - 1] == s + r[..|r| - 1];
    }
  }

  lemma FilterOne(p: Entry -> bool, e: Entry)
    ensures Filter(p, [e]) == if p(e) then [e] else []
  {
    assert [e][..0] == [];
  }

  lemma {:induction false} FilterIn(p: Entry -> bool, s: seq<Entry>, e: Entry)
    ensures e in Filter(p, s) <==> e in s && p(e)
  {
    if s != [] {
      FilterIn(p, s[..|s| - 1], e);
      assert s == s[..|s| - 1] + [s[|s| - 1]];
    }
  }

  lemma {:induction false} FilterAgrees(p: Entry -> bool, q: Entry -> bool, s: seq<Entry>)
    requires forall e :: e in s ==> p(e) == q(e)
    ensures Filter(p, s) == Filter(q, s)
  {
    if s != [] {
      FilterAgrees(p, q, s[..|s| - 1]);
    }
  }

  lemma {:induction false} FilterCommutes(p: Entry -> bool, q: Entry -> bool, s: seq<Entry>)
    ensures Filter(p, Filter(q, s)) == Filter(q, Filter(p, s))
  {
    if s != [] {
      var front, e := s[..|s| - 1], s[|s| - 1];
      FilterCommutes(p, q, front);
      FilterOne(p, e);
      FilterOne(q, e);
      FilterConcat(p, Filter(q, front), Filter(q, [e]));
      FilterConcat(q, Filter(p, front), Filter(p, [e]));
      assert Filter(p, []) == [] && Filter(q, []) == [];
    }
  }

  lemma {:induction false} FilterDistinct(p: Entry -> bool, s: seq<Entry>)
    requires DistinctNames(s)
    ensures DistinctNames(Filter(p, s))
  {
    if s != [] {
      var front := s[..|s| - 1];
      FilterDistinct(p, front);
      forall e | e in Filter(p, front) ensures e.name != s[|s| - 1].name {
        FilterIn(p, front, e);
      }
    }
  }

  lemma FilterMore(p: Entry -> bool, s: seq<Entry>, e: Entry)
    ensures Filter(p, s + [e]) == if p(e) then Filter(p, s) + [e] else Filter(p, s)
  {
    FilterConcat(p, s, [e]);
    FilterOne(p, e);
    assert Filter(p, s) + [] == Filter(p, s);
  }

  /** Those of s that satisfy p, at increasing places, and no other place has one. */
  ghost predicate PickedAt(p: Entry -> bool, s: seq<Entry>, r: seq<Entry>, places: seq<int>) {
    && |places| == |r|
    && (forall k | 0 <= k < |places| :: 0 <= places[k] < |s| && r[k] == s[places[k]] && p(r[k]))
    && (forall j, k | 0 <= j < k < |places| :: places[j] < places[k])
    && (forall i | 0 <= i < |s| && i !in places :: !p(s[i]))
  }

  lemma PickedMore(p: Entry -> bool, s: seq<Entry>, e: Entry, r: seq<Entry>, places: seq<int>)
    requires PickedAt(p, s, r, places)
    ensures p(e) ==> PickedAt(p, s + [e], r + [e], places + [|s|])
    ensures !p(e) ==> PickedAt(p, s + [e], r, places)
  {
    var more := places + [|s|];
    assert more[|places|] == |s|;
    forall i | 0 <= i < |s + [e]| && i !in more ensures !p((s + [e])[i]) {
      assert i !in places;
    }
  }

  lemma {:induction false} FilterPicks(p: Entry -> bool, s: seq<Entry>) returns (places: seq<int>)
    ensures PickedAt(p, s, Filter(p, s), places)
  {
    places := [];
    if s != [] {
      var front, last := s[..|s| - 1], s[|s| - 1];
      var before := FilterPicks(p, front);
      PickedMore(p, front, last, Filter(p, front), before);
      FilterMore(p, front, last);
      assert s == front + [last];
      places := if p(last) then before + [|front|] else before;
    }
  }

  lemma DistinctNamesOf(s: seq<Entry>, e: Entry, x: Entry)
    requires DistinctNames(s) && e in s && x in s && e.name == x.name
    ensures e == x
  {
  }

  // ---------------------------------------------------------------- the diff

  /** The names that are no longer in the view, in their old order. */
  function Vanished(before: seq<string>, view: seq<Entry>): seq<string> {
    if before == [] then []
    else
      var name := before[|before| - 1];
      Vanished(before[..|before| - 1], view) + (if name in NameSet(view) then [] else [name])
  }

  /** Where the names that are still in the view now stand, in their old order. */
  function KeptPositions(before: seq<string>, view: seq<Entry>): seq<nat> {
    if before == [] then []
    else
      var name := before[|before| - 1];
      KeptPositions(before[..|before| - 1], view) + (if name in NameSet(view) then [IndexOf(view, name)] else [])
  }

  predicate Increasing(s: seq<nat>) {
    forall i, j :: 0 <= i < j < |s| ==> s[i] < s[j]
  }

  function SetOf(names: seq<string>): set<string> {
    set x | x in names
  }

  /** The entries sent with a position: new ones, and touched ones if the order has changed. */
  function Placed(before: set<string>, touched: set<string>, inOrder: bool): Entry -> bool {
    (e: Entry) => e.name !in before || (e.name in touched && !inOrder)
  }

  /** The entries sent for replacement in place. */
  function Refreshed(before: set<string>, touched: set<string>, inOrder: bool): Entry -> bool {
    (e: Entry) => e.name in before && e.name in touched && inOrder
  }

  /** The entries that are removed first and inserted again. */
  function Moved(before: set<string>, touched: set<string>, inOrder: bool): Entry -> bool {
    (e: Entry) => e.name in before && e.name in touched && !inOrder
  }

  /** The positions, in the list, of the entries that satisfy p. */
  function Positions(p: Entry -> bool, s: seq<Entry>): seq<nat> {
    if s == [] then []
    else Positions(p, s[..|s| - 1]) + (if p(s[|s| - 1]) then [|s| - 1] else [])
  }

  function Diff(before: seq<string>, view: seq<Entry>, touched: set<string>): Batch {
    var inOrder := Increasing(KeptPositions(before, view));
    var prior := SetOf(before);
    Batch(Changes, 0,
          Filter(Placed(prior, touched, inOrder), view),
          Positions(Placed(prior, touched, inOrder), view),
          Filter(Refreshed(prior, touched, inOrder), view),
          Vanished(before, view) + Names(Filter(Moved(prior, touched, inOrder), view)),
          [])
  }

  // ---------------------------------------------------------------- the client

  /** Removes the first entry of that name, if there is one. */
  function RemoveName(s: seq<Entry>, name: string): seq<Entry> {
    var i := IndexOf(s, name);
    if i < |s| then DeleteAt(s, i) else s
  }

  function RemoveAll(s: seq<Entry>, names: seq<string>): seq<Entry> {
    if names == [] then s else RemoveName(RemoveAll(s, names[..|names| - 1]), names[|names| - 1])
  }

  /** Inserts the entries one after the other; None if an index is past the end. */
  function InsertAll(s: seq<Entry>, added: seq<Entry>, at: seq<nat>): Option<seq<Entry>> {
    if |added| != |at| then None
    else if added == [] then Some(s)
    else
      var r := InsertAll(s, added[..|added| - 1], at[..|at| - 1]);
      if r.Some? && at[|at| - 1] <= |r.value|
      then Some(InsertAt(r.value, at[|at| - 1], added[|added| - 1]))
      else None
  }

  /** Replaces the entry of that name where it stands. */
  function Replace(s: seq<Entry>, e: Entry): seq<Entry> {
    var i := IndexOf(s, e.name);
    if i < |s| then s[i := e] else s
  }

  function ReplaceAll(s: seq<Entry>, es: seq<Entry>): seq<Entry> {
    if es == [] then s else Replace(ReplaceAll(s, es[..|es| - 1]), es[|es| - 1])
  }

  /** What a client makes of a batch. */
  function Applied(list: seq<Entry>, b: Batch): Option<seq<Entry>> {
    var placed := InsertAll(RemoveAll(list, b.removed), b.added, b.addedAt);
    if placed.Some? then Some(ReplaceAll(ReplaceAll(placed.value, b.changed), b.thumbnails)) else None
  }

  // ---------------------------------------------------------------- replaying a diff

  lemma {:induction false} KeepsAll(p: Entry -> bool, s: seq<Entry>)
    requires forall e :: e in s ==> p(e)
    ensures Filter(p, s) == s
  {
    if s != [] {
      KeepsAll(p, s[..|s| - 1]);
      assert s == s[..|s| - 1] + [s[|s| - 1]];
    }
  }

  lemma FilterMiddle(p: Entry -> bool, a: seq<Entry>, x: Entry, b: seq<Entry>)
    requires !p(x) && (forall e :: e in a ==> p(e)) && (forall e :: e in b ==> p(e))
    ensures Filter(p, a + [x] + b) == a + b
  {
    assert Filter(p, a) == a by { KeepsAll(p, a); }
    assert Filter(p, b) == b by { KeepsAll(p, b); }
    assert Filter(p, [x]) == [] by { FilterOne(p, x); }
    assert Filter(p, a + [x]) == a + [] by { FilterConcat(p, a, [x]); }
    assert Filter(p, a + [x] + b) == Filter(p, a + [x]) + b by { FilterConcat(p, a + [x], b); }
    assert a + [] == a;
  }

  lemma RemoveNameFilters(s: seq<Entry>, name: string)
    requires DistinctNames(s)
    ensures RemoveName(s, name) == Filter(Outside({name}), s)
  {
    var i := IndexOf(s, name);
    if i < |s| {
      assert s == s[..i] + [s[i]] + s[i + 1..];
      FilterMiddle(Outside({name}), s[..i], s[i], s[i + 1..]);
    } else {
      KeepsAll(Outside({name}), s);
    }
  }

  lemma {:induction false} DropsAll(p: Entry -> bool, s: seq<Entry>)
    requires forall e :: e in s ==> !p(e)
    ensures Filter(p, s) == []
  {
    if s != [] { DropsAll(p, s[..|s| - 1]); }
  }

  lemma {:induction false} FilterTwice(names: set<string>, name: string, s: seq<Entry>)
    ensures Filter(Outside({name}), Filter(Outside(names), s)) == Filter(Outside(names + {name}), s)
  {
    if s != [] {
      var front, e := s[..|s| - 1], s[|s| - 1];
      FilterTwice(names, name, front);
      FilterConcat(Outside({name}), Filter(Outside(names), front), if e.name !in names then [e] else []);
      FilterOne(Outside({name}), e);
    }
  }

  lemma {:induction false} RemoveAllFilters(s: seq<Entry>, names: seq<string>)
    requires DistinctNames(s)
    ensures RemoveAll(s, names) == Filter(Outside(SetOf(names)), s)
  {
    if names == [] {
      KeepsAll(Outside(SetOf(names)), s);
    } else {
      var front, name := names[..|names| - 1], names[|names| - 1];
      RemoveAllFilters(s, front);
      FilterDistinct(Outside(SetOf(front)), s);
      RemoveNameFilters(RemoveAll(s, front), name);
      FilterTwice(SetOf(front), name, s);
      assert SetOf(names) == SetOf(front) + {name};
    }
  }

  function Not(p: Entry -> bool): Entry -> bool {
    (e: Entry) => !p(e)
  }

  lemma InsertAllMore(s: seq<Entry>, added: seq<Entry>, at: seq<nat>, e: Entry, i: nat)
    requires |added| == |at|
    ensures InsertAll(s, added + [e], at + [i]) ==
            (var r := InsertAll(s, added, at);
             if r.Some? && i <= |r.value| then Some(InsertAt(r.value, i, e)) else None)
  {
    assert (added + [e])[..|added|] == added && (at + [i])[..|at|] == at;
  }

  /** Inserting the entries that satisfy p at their final positions into a list of the others gives the
      whole list back. */
  lemma {:induction false} InsertAllCompletes(p: Entry -> bool, s: seq<Entry>, tail: seq<Entry>)
    ensures |Filter(p, s)| == |Positions(p, s)|
    ensures InsertAll(Filter(Not(p), s) + tail, Filter(p, s), Positions(p, s)) == Some(s + tail)
  {
    if s == [] {
      assert s + tail == tail == Filter(Not(p), s) + tail;
    } else {
      var front, e := s[..|s| - 1], s[|s| - 1];
      assert s == front + [e];
      if p(e) {
        InsertAllCompletes(p, front, tail);
        InsertAllMore(Filter(Not(p), front) + tail, Filter(p, front), Positions(p, front), e, |front|);
        assert InsertAt(front + tail, |front|, e) == s + tail;
        assert Filter(Not(p), s) == Filter(Not(p), front) + [] == Filter(Not(p), front);
        assert Filter(p, s) == Filter(p, front) + [e];
        assert Positions(p, s) == Positions(p, front) + [|front|];
      } else {
        InsertAllCompletes(p, front, [e] + tail);
        assert Filter(Not(p), s) == Filter(Not(p), front) + [e];
        assert Filter(Not(p), s) + tail == Filter(Not(p), front) + ([e] + tail);
        assert front + ([e] + tail) == s + tail;
        assert Filter(p, s) == Filter(p, front) + [] == Filter(p, front);
        assert Positions(p, s) == Positions(p, front) + [] == Positions(p, front);
      }
    }
  }

  // ---------------------------------------------------------------- the order has not changed

  /** The view with the entries that a list knows as the list knows them. */
  function Older(view: seq<Entry>, list: seq<Entry>): (r: seq<Entry>)
    ensures |r| == |view|
    ensures forall i :: 0 <= i < |view| ==>
      r[i] == (if IndexOf(list, view[i].name) < |list| then list[IndexOf(list, view[i].name)] else view[i])
  {
    seq(|view|, i requires 0 <= i < |view| =>
      if IndexOf(list, view[i].name) < |list| then list[IndexOf(list, view[i].name)] else view[i])
  }

  function Indices(view: seq<Entry>, list: seq<Entry>): (r: seq<nat>)
    ensures |r| == |list| && forall i :: 0 <= i < |list| ==> r[i] == IndexOf(view, list[i].name)
  {
    seq(|list|, i requires 0 <= i < |list| => IndexOf(view, list[i].name))
  }

  lemma IndexOfIn(s: seq<Entry>, name: string)
    ensures IndexOf(s, name) < |s| <==> name in NameSet(s)
  {
    var i := IndexOf(s, name);
    if i < |s| { assert s[i] in s; }
    if name in NameSet(s) {
      var e :| e in s && e.name == name;
    }
  }

  lemma IndexOfFront(s: seq<Entry>, name: string)
    requires s != [] && s[|s| - 1].name != name
    ensures IndexOf(s[..|s| - 1], name) == if name in NameSet(s) then IndexOf(s, name) else |s| - 1
  {
    IndexOfIn(s, name);
    IndexOfIn(s[..|s| - 1], name);
    var front := s[..|s| - 1];
    var i, j := IndexOf(s, name), IndexOf(front, name);
    assert forall k :: 0 <= k < |front| ==> front[k] == s[k];
    if i < |s| { assert front[i].name == name; }
  }

  lemma {:induction false} KeptFilters(before: seq<Entry>, view: seq<Entry>)
    ensures KeptPositions(Names(before), view) == Indices(view, Filter(Among(NameSet(view)), before))
  {
    if before != [] {
      KeptFilters(before[..|before| - 1], view);
      assert Names(before)[..|before| - 1] == Names(before[..|before| - 1]);
    }
  }

  lemma HeadName(list: seq<Entry>)
    ensures list != [] ==> list[0].name in NameSet(list)
  {
    assert list != [] ==> list[0] in list;
  }

  lemma AmongFront(view: seq<Entry>, list: seq<Entry>)
    requires view != [] && list != [] && DistinctNames(view) && list[|list| - 1].name == view[|view| - 1].name
    ensures var older := Older(view[..|view| - 1], list[..|list| - 1]);
            Filter(Among(NameSet(list)), older) == Filter(Among(NameSet(list[..|list| - 1])), older)
  {
    var front, list', last := view[..|view| - 1], list[..|list| - 1], list[|list| - 1];
    var older := Older(front, list');
    assert list == list' + [last];
    forall x | x in older ensures Among(NameSet(list))(x) == Among(NameSet(list'))(x) {
      var i :| 0 <= i < |older| && older[i] == x;
      assert x.name == front[i].name == view[i].name != last.name;
    }
    FilterAgrees(Among(NameSet(list)), Among(NameSet(list')), older);
  }

  lemma OlderFront(view: seq<Entry>, list: seq<Entry>, list': seq<Entry>)
    requires view != [] && DistinctNames(view) && DistinctNames(list)
    requires list' == list
             || (list != [] && list' == list[..|list| - 1] && list[|list| - 1].name == view[|view| - 1].name)
    ensures Older(view, list)[..|view| - 1] == Older(view[..|view| - 1], list')
    ensures list' != list ==> Older(view, list)[|view| - 1] == list[|list| - 1]
  {
    var front := view[..|view| - 1];
    forall i | 0 <= i < |front| ensures Older(view, list)[i] == Older(front, list')[i] {
      assert front[i] == view[i] && view[i].name != view[|view| - 1].name;
      if list' != list {
        IndexOfFront(list, view[i].name);
        IndexOfIn(list, view[i].name);
      }
    }
    if list' != list {
      var k := IndexOf(list, view[|view| - 1].name);
      IndexOfIn(list, view[|view| - 1].name);
      assert list[|list| - 1] in list;
    }
  }

  lemma ViewEndsLikeList(view: seq<Entry>, list: seq<Entry>)
    requires view != [] && list != [] && DistinctNames(view) && DistinctNames(list)
    requires list[|list| - 1].name == view[|view| - 1].name
    ensures var list' := list[..|list| - 1];
            Filter(Among(NameSet(list)), Older(view, list))
            == Filter(Among(NameSet(list')), Older(view[..|view| - 1], list')) + [list[|list| - 1]]
  {
    var front, list', last := view[..|view| - 1], list[..|list| - 1], list[|list| - 1];
    OlderFront(view, list, list');
    var older := Older(front, list');
    AmongFront(view, list);
    assert Older(view, list) == older + [last];
    assert last in list;
    FilterConcat(Among(NameSet(list)), older, [last]);
    FilterOne(Among(NameSet(list)), last);
  }

  lemma ViewEndsOtherwise(view: seq<Entry>, list: seq<Entry>)
    requires view != [] && DistinctNames(view) && DistinctNames(list) && view[|view| - 1].name !in NameSet(list)
    ensures Filter(Among(NameSet(list)), Older(view, list)) ==
            Filter(Among(NameSet(list)), Older(view[..|view| - 1], list))
  {
    var front, e := view[..|view| - 1], view[|view| - 1];
    OlderFront(view, list, list);
    IndexOfIn(list, e.name);
    var older := Older(front, list);
    assert Older(view, list) == older + [e];
    FilterConcat(Among(NameSet(list)), older, [e]);
    FilterOne(Among(NameSet(list)), e);
    assert Filter(Among(NameSet(list)), older) + [] == Filter(Among(NameSet(list)), older);
  }

  /** If the last name of the view is in the list, it is the last there. */
  lemma LastOfOrdered(view: seq<Entry>, list: seq<Entry>)
    requires view != [] && DistinctNames(view) && Increasing(Indices(view, list))
    requires view[|view| - 1].name in NameSet(list) && NameSet(list) <= NameSet(view)
    ensures list != [] && list[|list| - 1].name == view[|view| - 1].name
  {
    var x :| x in list && x.name == view[|view| - 1].name;
    var i :| 0 <= i < |list| && list[i] == x;
    assert Indices(view, list)[i] == |view| - 1;
    assert list[|list| - 1].name in NameSet(list);
    IndexOfIn(view, list[|list| - 1].name);
  }

  lemma OrderedFront(view: seq<Entry>, list: seq<Entry>, list': seq<Entry>)
    requires view != [] && DistinctNames(view) && DistinctNames(list) && Increasing(Indices(view, list))
    requires NameSet(list) <= NameSet(view)
    requires list' <= list && (forall x :: x in list' ==> x.name != view[|view| - 1].name)
    ensures var front := view[..|view| - 1];
            DistinctNames(front) && DistinctNames(list') && NameSet(list') <= NameSet(front)
            && Increasing(Indices(front, list'))
  {
    var front := view[..|view| - 1];
    forall i | 0 <= i < |list'|
      ensures list'[i].name in NameSet(front) && Indices(front, list')[i] == Indices(view, list)[i]
    {
      assert list'[i] == list[i] && list[i].name in NameSet(list);
      IndexOfFront(view, list[i].name);
      IndexOfIn(view, list[i].name);
      IndexOfIn(front, list[i].name);
    }
    forall n | n in NameSet(list') ensures n in NameSet(front) {
      var x :| x in list' && x.name == n;
    }
  }

  /** A list in the order of the view is the view, restricted to the names of the list. */
  lemma {:induction false} OrderedLikeView(view: seq<Entry>, list: seq<Entry>)
    requires DistinctNames(view) && DistinctNames(list) && NameSet(list) <= NameSet(view)
    requires Increasing(Indices(view, list))
    ensures Filter(Among(NameSet(list)), Older(view, list)) == list
  {
    if view == [] {
      HeadName(list);
    } else {
      var front, e := view[..|view| - 1], view[|view| - 1];
      if e.name in NameSet(list) {
        LastOfOrdered(view, list);
        var list' := list[..|list| - 1];
        OrderedFront(view, list, list');
        OrderedLikeView(front, list');
        ViewEndsLikeList(view, list);
      } else {
        OrderedFront(view, list, list);
        OrderedLikeView(front, list);
        ViewEndsOtherwise(view, list);
      }
    }
  }

  // ---------------------------------------------------------------- the theorem

  lemma VanishedSet(before: seq<string>, view: seq<Entry>, name: string)
    ensures name in Vanished(before, view) <==> name in before && name !in NameSet(view)
  {
    if before != [] {
      VanishedSet(before[..|before| - 1], view, name);
      assert before == before[..|before| - 1] + [before[|before| - 1]];
    }
  }

  lemma NamesIn(s: seq<Entry>)
    ensures SetOf(Names(s)) == NameSet(s)
    ensures forall n :: n in Names(s) <==> n in NameSet(s)
  {
    forall n ensures n in Names(s) <==> n in NameSet(s) {
      if n in Names(s) {
        var i :| 0 <= i < |s| && Names(s)[i] == n;
        assert s[i] in s;
      }
      if n in NameSet(s) {
        var e :| e in s && e.name == n;
        var i :| 0 <= i < |s| && s[i] == e;
        assert Names(s)[i] == n;
      }
    }
  }

  /** Entries whose names were not touched are the same, in the same order. */
  ghost predicate SameUntouched(before: seq<Entry>, view: seq<Entry>, touched: set<string>) {
    Filter(Outside(touched), before) == Filter(Outside(touched), view)
  }

  lemma UntouchedStays(before: seq<Entry>, view: seq<Entry>, touched: set<string>, e: Entry)
    requires SameUntouched(before, view, touched) && e.name !in touched
    ensures e in before <==> e in view
  {
    FilterIn(Outside(touched), before, e);
    FilterIn(Outside(touched), view, e);
  }

  /** What stays in place when the order has changed: the untouched entries. */
  lemma RemovedWhenMoved(before: seq<Entry>, view: seq<Entry>, touched: set<string>)
    requires DistinctNames(before) && SameUntouched(before, view, touched)
    ensures var gone := Vanished(Names(before), view) + Names(Filter(Moved(NameSet(before), touched, false), view));
            RemoveAll(before, gone) == Filter(Outside(touched), view)
  {
    var moved := Filter(Moved(NameSet(before), touched, false), view);
    var gone := Vanished(Names(before), view) + Names(moved);
    RemoveAllFilters(before, gone);
    NamesIn(before);
    NamesIn(moved);
    forall e | e in before ensures Outside(SetOf(gone))(e) == Outside(touched)(e) {
      VanishedSet(Names(before), view, e.name);
      assert e.name in NameSet(before);
      if e.name !in touched { UntouchedStays(before, view, touched, e); }
      forall x | x in view && x.name == e.name && e.name in touched ensures e.name in NameSet(moved) {
        FilterIn(Moved(NameSet(before), touched, false), view, x);
      }
      forall x | x in moved ensures x.name in touched {
        FilterIn(Moved(NameSet(before), touched, false), view, x);
      }
    }
    FilterAgrees(Outside(SetOf(gone)), Outside(touched), before);
  }

  lemma ReplaysMoved(before: seq<Entry>, view: seq<Entry>, touched: set<string>)
    requires DistinctNames(before) && SameUntouched(before, view, touched)
    requires !Increasing(KeptPositions(Names(before), view))
    ensures Applied(before, Diff(Names(before), view, touched)) == Some(view)
  {
    NamesIn(before);
    RemovedWhenMoved(before, view, touched);
    var p := Placed(NameSet(before), touched, false);
    forall e | e in view ensures Not(p)(e) == Outside(touched)(e) {
      if e.name !in touched {
        UntouchedStays(before, view, touched, e);
        assert e in before;
      }
    }
    FilterAgrees(Not(p), Outside(touched), view);
    InsertAllCompletes(p, view, []);
    assert Filter(Not(p), view) + [] == Filter(Not(p), view) && view + [] == view;
    DropsAll(Refreshed(NameSet(before), touched, false), view);
  }

  lemma {:induction false} FilterPointwise(p: Entry -> bool, a: seq<Entry>, b: seq<Entry>)
    requires |a| == |b| && forall i :: 0 <= i < |a| ==> p(a[i]) == p(b[i]) && (p(a[i]) ==> a[i] == b[i])
    ensures Filter(p, a) == Filter(p, b) && Positions(p, a) == Positions(p, b)
  {
    if a != [] {
      FilterPointwise(p, a[..|a| - 1], b[..|b| - 1]);
    }
  }

  lemma ReplaceAt(s: seq<Entry>, e: Entry, i: nat)
    requires DistinctNames(s) && i < |s|
    ensures |Replace(s, e)| == |s|
    ensures Replace(s, e)[i] == if e.name == s[i].name then e else s[i]
  {
  }

  lemma {:induction false} ReplaceAllKeepsNames(s: seq<Entry>, es: seq<Entry>)
    requires DistinctNames(s)
    ensures |ReplaceAll(s, es)| == |s| && DistinctNames(ReplaceAll(s, es))
    ensures forall i :: 0 <= i < |s| ==> ReplaceAll(s, es)[i].name == s[i].name
  {
    if es != [] {
      ReplaceAllKeepsNames(s, es[..|es| - 1]);
      var r := ReplaceAll(s, es[..|es| - 1]);
      forall i | 0 <= i < |s| ensures Replace(r, es[|es| - 1])[i].name == r[i].name {
        ReplaceAt(r, es[|es| - 1], i);
      }
    }
  }

  /** Replacement in place keeps the names, and puts the last entry sent for a name where it belongs. */
  lemma {:induction false} ReplaceAllAt(s: seq<Entry>, es: seq<Entry>, i: nat)
    requires DistinctNames(s) && i < |s|
    ensures |ReplaceAll(s, es)| == |s| && DistinctNames(ReplaceAll(s, es))
    ensures ReplaceAll(s, es)[i].name == s[i].name
    ensures DistinctNames(es) ==> forall e :: e in es && e.name == s[i].name ==> ReplaceAll(s, es)[i] == e
    ensures s[i].name !in NameSet(es) ==> ReplaceAll(s, es)[i] == s[i]
  {
    if es != [] {
      var front, last := es[..|es| - 1], es[|es| - 1];
      ReplaceAllKeepsNames(s, front);
      ReplaceAllKeepsNames(s, es);
      ReplaceAllAt(s, front, i);
      ReplaceAt(ReplaceAll(s, front), last, i);
      assert es == front + [last];
      assert last in es;
      forall e | DistinctNames(es) && e in es && e.name == s[i].name ensures ReplaceAll(s, es)[i] == e {
        if e.name == last.name { DistinctNamesOf(es, e, last); }
      }
    }
  }

  /** The part of the old view that is left once the vanished names are removed. */
  lemma RemovedInOrder(before: seq<Entry>, view: seq<Entry>, touched: set<string>)
    requires DistinctNames(before)
    ensures var gone := Vanished(Names(before), view) + Names(Filter(Moved(NameSet(before), touched, true), view));
            RemoveAll(before, gone) == Filter(Among(NameSet(view)), before)
  {
    DropsAll(Moved(NameSet(before), touched, true), view);
    var gone := Vanished(Names(before), view) + Names(Filter(Moved(NameSet(before), touched, true), view));
    assert gone == Vanished(Names(before), view);
    RemoveAllFilters(before, gone);
    NamesIn(before);
    forall e | e in before ensures Outside(SetOf(gone))(e) == Among(NameSet(view))(e) {
      VanishedSet(Names(before), view, e.name);
      assert e.name in NameSet(before);
    }
    FilterAgrees(Outside(SetOf(gone)), Among(NameSet(view)), before);
  }

  lemma KeptNames(before: seq<Entry>, view: seq<Entry>, kept: seq<Entry>)
    requires kept == Filter(Among(NameSet(view)), before)
    ensures NameSet(kept) == NameSet(before) * NameSet(view)
  {
    forall n ensures n in NameSet(kept) <==> n in NameSet(before) && n in NameSet(view) {
      if n in NameSet(kept) {
        var e :| e in kept && e.name == n;
        FilterIn(Among(NameSet(view)), before, e);
      }
      if n in NameSet(before) && n in NameSet(view) {
        var e :| e in before && e.name == n;
        FilterIn(Among(NameSet(view)), before, e);
      }
    }
  }

  lemma OlderNames(view: seq<Entry>, list: seq<Entry>, i: nat)
    requires i < |view|
    ensures Older(view, list)[i].name == view[i].name
    ensures view[i].name !in NameSet(list) ==> Older(view, list)[i] == view[i]
    ensures view[i].name in NameSet(list) ==> Older(view, list)[i] in list
  {
    IndexOfIn(list, view[i].name);
  }

  lemma OlderPlaced(before: seq<Entry>, view: seq<Entry>, touched: set<string>, kept: seq<Entry>)
    requires kept == Filter(Among(NameSet(view)), before)
    ensures var p, older := Placed(NameSet(before), touched, true), Older(view, kept);
            Filter(p, view) == Filter(p, older) && Positions(p, view) == Positions(p, older)
  {
    var p := Placed(NameSet(before), touched, true);
    var older := Older(view, kept);
    KeptNames(before, view, kept);
    forall i | 0 <= i < |view| ensures p(view[i]) == p(older[i]) && (p(view[i]) ==> view[i] == older[i]) {
      OlderNames(view, kept, i);
    }
    FilterPointwise(p, view, older);
  }

  lemma OlderKept(before: seq<Entry>, view: seq<Entry>, touched: set<string>, kept: seq<Entry>)
    requires DistinctNames(before) && DistinctNames(view) && kept == Filter(Among(NameSet(view)), before)
    requires Increasing(KeptPositions(Names(before), view))
    ensures Filter(Not(Placed(NameSet(before), touched, true)), Older(view, kept)) == kept
  {
    var p := Placed(NameSet(before), touched, true);
    var older := Older(view, kept);
    KeptFilters(before, view);
    FilterDistinct(Among(NameSet(view)), before);
    KeptNames(before, view, kept);
    OrderedLikeView(view, kept);
    forall e | e in older ensures Not(p)(e) == Among(NameSet(kept))(e) {
      var i :| 0 <= i < |older| && older[i] == e;
      OlderNames(view, kept, i);
      assert view[i] in view && view[i].name in NameSet(view);
    }
    FilterAgrees(Not(p), Among(NameSet(kept)), older);
  }

  /** Insertion gives the new view, but for the entries that were touched and stayed. */
  lemma InsertedInOrder(before: seq<Entry>, view: seq<Entry>, touched: set<string>, kept: seq<Entry>)
    requires DistinctNames(before) && DistinctNames(view) && kept == Filter(Among(NameSet(view)), before)
    requires Increasing(KeptPositions(Names(before), view))
    ensures var p := Placed(NameSet(before), touched, true);
            InsertAll(kept, Filter(p, view), Positions(p, view)) == Some(Older(view, kept))
  {
    var older := Older(view, kept);
    OlderPlaced(before, view, touched, kept);
    OlderKept(before, view, touched, kept);
    InsertAllCompletes(Placed(NameSet(before), touched, true), older, []);
    assert kept + [] == kept && older + [] == older;
  }

  lemma RefreshedAt(before: seq<Entry>, view: seq<Entry>, touched: set<string>, kept: seq<Entry>, i: nat)
    requires DistinctNames(before) && DistinctNames(view) && kept == Filter(Among(NameSet(view)), before)
    requires SameUntouched(before, view, touched) && i < |view| && DistinctNames(Older(view, kept))
    ensures |ReplaceAll(Older(view, kept), Filter(Refreshed(NameSet(before), touched, true), view))| == |view|
    ensures ReplaceAll(Older(view, kept), Filter(Refreshed(NameSet(before), touched, true), view))[i] == view[i]
  {
    var older := Older(view, kept);
    var q := Refreshed(NameSet(before), touched, true);
    var es := Filter(q, view);
    var name := view[i].name;
    FilterDistinct(q, view);
    OlderNames(view, kept, i);
    ReplaceAllAt(older, es, i);
    FilterIn(q, view, view[i]);
    KeptNames(before, view, kept);
    assert name in NameSet(view);
    if q(view[i]) {
      assert view[i] in es;
    } else {
      if name in NameSet(es) {
        var e :| e in es && e.name == name;
        FilterIn(q, view, e);
      }
      if name in NameSet(before) {
        FilterIn(Among(NameSet(view)), before, older[i]);
        UntouchedStays(before, view, touched, older[i]);
        DistinctNamesOf(view, older[i], view[i]);
      }
    }
  }

  lemma RefreshedInOrder(before: seq<Entry>, view: seq<Entry>, touched: set<string>, kept: seq<Entry>)
    requires DistinctNames(before) && DistinctNames(view) && kept == Filter(Among(NameSet(view)), before)
    requires SameUntouched(before, view, touched)
    ensures ReplaceAll(Older(view, kept), Filter(Refreshed(NameSet(before), touched, true), view)) == view
  {
    var older := Older(view, kept);
    var q := Refreshed(NameSet(before), touched, true);
    var es := Filter(q, view);
    KeptNames(before, view, kept);
    FilterDistinct(q, view);
    forall i | 0 <= i < |view| ensures older[i].name == view[i].name { OlderNames(view, kept, i); }
    ReplaceAllKeepsNames(older, es);
    forall i | 0 <= i < |view| ensures ReplaceAll(older, es)[i] == view[i] {
      RefreshedAt(before, view, touched, kept, i);
    }
  }

  /** Replaying a diff on the old view yields the new view, for every set of touched names, as long as
      names are distinct and the untouched entries are the same in the same order. Neither view need be
      sorted. */
  lemma DiffReplays(before: seq<Entry>, view: seq<Entry>, touched: set<string>)
    requires DistinctNames(before) && DistinctNames(view) && SameUntouched(before, view, touched)
    ensures Applied(before, Diff(Names(before), view, touched)) == Some(view)
  {
    if Increasing(KeptPositions(Names(before), view)) {
      NamesIn(before);
      var kept := Filter(Among(NameSet(view)), before);
      RemovedInOrder(before, view, touched);
      InsertedInOrder(before, view, touched, kept);
      RefreshedInOrder(before, view, touched, kept);
    } else {
      ReplaysMoved(before, view, touched);
    }
  }

  // ---------------------------------------------------------------- what is sent, exactly

  /** Of two names that are still there, the one that stood first stands first. */
  ghost predicate OrderKept(before: seq<string>, view: seq<Entry>) {
    forall i, j | 0 <= i < j < |before| && before[i] in NameSet(view) && before[j] in NameSet(view) ::
      IndexOf(view, before[i]) < IndexOf(view, before[j])
  }

  lemma {:induction false} KeptPositionsAre(before: seq<string>, view: seq<Entry>, at: nat)
    ensures at in KeptPositions(before, view) <==>
            exists i :: 0 <= i < |before| && before[i] in NameSet(view) && IndexOf(view, before[i]) == at
  {
    if before != [] {
      var front, name := before[..|before| - 1], before[|before| - 1];
      KeptPositionsAre(front, view, at);
      if i :| 0 <= i < |before| && before[i] in NameSet(view) && IndexOf(view, before[i]) == at {
        assert i < |front| ==> front[i] == before[i];
      }
    }
  }

  lemma IncreasingMore(s: seq<nat>, x: nat)
    ensures Increasing(s + [x]) <==> Increasing(s) && forall y | y in s :: y < x
  {
    var r := s + [x];
    if Increasing(r) {
      forall i, j | 0 <= i < j < |s| ensures s[i] < s[j] { assert r[i] == s[i] && r[j] == s[j]; }
      forall y | y in s ensures y < x {
        var i :| 0 <= i < |s| && s[i] == y;
        assert r[i] == y && r[|s|] == x;
      }
    }
    if Increasing(s) && forall y | y in s :: y < x {
      forall i, j | 0 <= i < j < |r| ensures r[i] < r[j] {
        if j == |s| { assert r[i] == s[i] && s[i] in s; }
      }
    }
  }

  lemma {:induction false} OrderKeptMore(before: seq<string>, view: seq<Entry>)
    requires before != []
    ensures var front, last := before[..|before| - 1], before[|before| - 1];
            OrderKept(before, view) <==>
            && OrderKept(front, view)
            && (last in NameSet(view) ==>
                  forall i | 0 <= i < |front| && front[i] in NameSet(view) ::
                    IndexOf(view, front[i]) < IndexOf(view, last))
  {
    var front, last := before[..|before| - 1], before[|before| - 1];
    if OrderKept(before, view) {
      forall i, j | 0 <= i < j < |front| && front[i] in NameSet(view) && front[j] in NameSet(view)
        ensures IndexOf(view, front[i]) < IndexOf(view, front[j])
      {
        assert before[i] == front[i] && before[j] == front[j];
      }
      forall i | 0 <= i < |front| && front[i] in NameSet(view) && last in NameSet(view)
        ensures IndexOf(view, front[i]) < IndexOf(view, last)
      {
        assert before[i] == front[i] && before[|front|] == last;
      }
    }
  }

  lemma KeptBelow(before: seq<string>, view: seq<Entry>, at: nat)
    ensures (forall y | y in KeptPositions(before, view) :: y < at) <==>
            forall i | 0 <= i < |before| && before[i] in NameSet(view) :: IndexOf(view, before[i]) < at
  {
    forall i | 0 <= i < |before| && before[i] in NameSet(view)
      ensures IndexOf(view, before[i]) in KeptPositions(before, view)
    {
      KeptPositionsAre(before, view, IndexOf(view, before[i]));
    }
    forall y | y in KeptPositions(before, view)
      ensures exists i :: 0 <= i < |before| && before[i] in NameSet(view) && IndexOf(view, before[i]) == y
    {
      KeptPositionsAre(before, view, y);
    }
  }

  lemma {:induction false} OrderKeptExactly(before: seq<string>, view: seq<Entry>)
    ensures Increasing(KeptPositions(before, view)) <==> OrderKept(before, view)
  {
    if before != [] {
      var front, name := before[..|before| - 1], before[|before| - 1];
      OrderKeptExactly(front, view);
      OrderKeptMore(before, view);
      var kept := KeptPositions(front, view);
      if name in NameSet(view) {
        IncreasingMore(kept, IndexOf(view, name));
        KeptBelow(front, view, IndexOf(view, name));
        assert KeptPositions(before, view) == kept + [IndexOf(view, name)];
      } else {
        assert KeptPositions(before, view) == kept;
      }
    }
  }

  lemma {:induction false} SameNumber(p: Entry -> bool, s: seq<Entry>)
    ensures |Positions(p, s)| == |Filter(p, s)|
  {
    if s != [] { SameNumber(p, s[..|s| - 1]); }
  }

  lemma {:induction false} PositionsAre(p: Entry -> bool, s: seq<Entry>, k: nat)
    requires k < |Filter(p, s)|
    ensures |Positions(p, s)| == |Filter(p, s)|
    ensures Positions(p, s)[k] < |s| && s[Positions(p, s)[k]] == Filter(p, s)[k]
  {
    if k < |Filter(p, s[..|s| - 1])| {
      PositionsAre(p, s[..|s| - 1], k);
    } else {
      SameNumber(p, s[..|s| - 1]);
    }
  }

  lemma RemovedNames(before: seq<string>, view: seq<Entry>, touched: set<string>, name: string)
    ensures var inOrder := Increasing(KeptPositions(before, view));
            name in Diff(before, view, touched).removed <==>
            name in before && (name !in NameSet(view) || (name in touched && !inOrder))
  {
    var inOrder, prior := Increasing(KeptPositions(before, view)), SetOf(before);
    var moved := Filter(Moved(prior, touched, inOrder), view);
    VanishedSet(before, view, name);
    forall e ensures e in moved <==> e in view && e.name in prior && e.name in touched && !inOrder {
      FilterIn(Moved(prior, touched, inOrder), view, e);
    }
    if name in NameSet(view) && name in before && name in touched && !inOrder {
      var e :| e in view && e.name == name;
      assert e in moved;
      var k :| 0 <= k < |moved| && moved[k] == e;
      assert Names(moved)[k] == name;
    }
    if name in Names(moved) {
      var k :| 0 <= k < |moved| && Names(moved)[k] == name;
      assert moved[k] in moved;
    }
  }

  /** A batch names what it must and no more. Untouched entries that stay are not sent. While those that stay keep
      their order, a touched one is sent in place of the old; when they do not, it is removed and added. */
  lemma DiffSendsExactly(before: seq<string>, view: seq<Entry>, touched: set<string>)
    requires DistinctNames(view)
    ensures var b := Diff(before, view, touched);
            && (forall e :: e in b.added <==>
                  e in view && (e.name !in before || (e.name in touched && !OrderKept(before, view))))
            && (forall e :: e in b.changed <==>
                  e in view && e.name in before && e.name in touched && OrderKept(before, view))
            && (forall name :: name in b.removed <==>
                  name in before && (name !in NameSet(view) || (name in touched && !OrderKept(before, view))))
            && |b.addedAt| == |b.added|
            && (forall k | 0 <= k < |b.added| :: b.addedAt[k] < |view| && view[b.addedAt[k]] == b.added[k])
            && b.thumbnails == []
  {
    var inOrder, prior := Increasing(KeptPositions(before, view)), SetOf(before);
    OrderKeptExactly(before, view);
    forall e
      ensures e in Filter(Placed(prior, touched, inOrder), view) <==> e in view && Placed(prior, touched, inOrder)(e)
      ensures e in Filter(Refreshed(prior, touched, inOrder), view) <==>
              e in view && Refreshed(prior, touched, inOrder)(e)
    {
      FilterIn(Placed(prior, touched, inOrder), view, e);
      FilterIn(Refreshed(prior, touched, inOrder), view, e);
    }
    SameNumber(Placed(prior, touched, inOrder), view);
    forall k | 0 <= k < |Filter(Placed(prior, touched, inOrder), view)|
      ensures Positions(Placed(prior, touched, inOrder), view)[k] < |view|
      ensures view[Positions(Placed(prior, touched, inOrder), view)[k]] ==
              Filter(Placed(prior, touched, inOrder), view)[k]
    {
      PositionsAre(Placed(prior, touched, inOrder), view, k);
    }
    forall name ensures name in Diff(before, view, touched).removed <==>
        name in before && (name !in NameSet(view) || (name in touched && !inOrder))
    {
      RemovedNames(before, view, touched, name);
    }
  }
}
