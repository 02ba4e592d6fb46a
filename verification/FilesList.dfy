/** Cursor paging of a listing: files/list.go. */
module FilesList {
  import opened Wrappers
  import opened Text
  import opened FilesSort

  const DEFAULT_PAGE_SIZE := 500

  /** The largest Go int, which bounds the length of every slice and what Atoi accepts. */
  const MAX_INT := 0x7FFF_FFFF_FFFF_FFFF

  type Int = i: int | -MAX_INT - 1 <= i <= MAX_INT

  /** What adding two Go ints gives when their sum is i. */
  function Wrapped(i: int): int {
    if i > MAX_INT then i - 0x1_0000_0000_0000_0000
    else if i < -MAX_INT - 1 then i + 0x1_0000_0000_0000_0000
    else i
  }

  datatype Page = Page(entries: seq<Entry>, total: nat, cursor: string)

  // ---------------------------------------------------------------- strconv and strings.Cut

  function DigitChar(d: nat): char
    requires d < 10
  {
    '0' + d as char
  }

  function Itoa(n: nat): (s: string)
    ensures s != [] && forall c :: c in s ==> '0' <= c <= '9'
  {
    if n < 10 then [DigitChar(n)] else Itoa(n / 10) + [DigitChar(n % 10)]
  }

  function Digits(s: string): Option<nat> {
    if s == [] then Some(0)
    else
      var front := Digits(s[..|s| - 1]);
      var c := s[|s| - 1];
      if front.Some? && '0' <= c <= '9' then Some(10 * front.value + (c as int - '0' as int)) else None
  }

  /** strconv.Atoi: an optional sign, then digits, within the range of an int. */
  function Atoi(s: string): Option<int> {
    var signed := s != [] && (s[0] == '-' || s[0] == '+');
    var digits := if signed then s[1..] else s;
    if digits == [] then None
    else
      var n := Digits(digits);
      if n.None? then None
      else
        var v: int := n.value;
        var i := if signed && s[0] == '-' then -v else v;
        if -MAX_INT - 1 <= i <= MAX_INT then Some(i) else None
  }

  lemma {:induction false} DigitsOfItoa(n: nat)
    ensures Digits(Itoa(n)) == Some(n)
  {
    if n >= 10 {
      DigitsOfItoa(n / 10);
      assert Itoa(n)[..|Itoa(n)| - 1] == Itoa(n / 10);
    } else {
      assert Digits(Itoa(n)[..0]) == Some(0);
    }
  }

  lemma AtoiOfItoa(n: nat)
    requires n <= MAX_INT
    ensures Atoi(Itoa(n)) == Some(n)
  {
    DigitsOfItoa(n);
    assert Itoa(n)[0] in Itoa(n);
  }

  // ---------------------------------------------------------------- paging

  /** The cursor that pageOf issues after the entry at index i. */
  function CursorAfter(i: nat, name: string): string {
    Itoa(i) + ":" + name
  }

  function ResumeAt(entries: seq<Entry>, cursor: string): int {
    if cursor == "" then 0
    else
      var cut := IndexOfChar(cursor, ':');
      if cut == |cursor| then 0
      else
        var index, name := Atoi(cursor[..cut]), cursor[cut + 1..];
        if index.None? then 0
        else if 0 <= index.value < |entries| && entries[index.value].name == name then index.value + 1
        else if IndexOf(entries, name) < |entries| then IndexOf(entries, name) + 1
        else if index.value < |entries| then index.value else |entries|
  }

  function PageSize(limit: Int): Int {
    if limit <= 0 then DEFAULT_PAGE_SIZE else limit
  }

  /** One page; None where the slice expression is out of range and the program panics. */
  function PageOf(entries: seq<Entry>, cursor: string, limit: Int): Option<Page> {
    var start := ResumeAt(entries, cursor);
    var sum := Wrapped(start + PageSize(limit));
    var end := if sum < |entries| then sum else |entries|;
    if start >= |entries| then Some(Page([], |entries|, ""))
    else if !(0 <= start <= end) then None
    else Some(Page(entries[start..end], |entries|,
                   if end < |entries| then CursorAfter(end - 1, entries[end - 1].name) else ""))
  }

  /** A cursor with a negative index and the name of no entry, which no page ever issues. */
  predicate Foreign(entries: seq<Entry>, cursor: string) {
    var cut := IndexOfChar(cursor, ':');
    && cut < |cursor|
    && Atoi(cursor[..cut]).Some? && Atoi(cursor[..cut]).value < 0
    && IndexOf(entries, cursor[cut + 1..]) == |entries|
  }

  /** There is an entry to resume at, and the end of the page is past the largest int. */
  predicate Overflows(entries: seq<Entry>, cursor: string, limit: Int) {
    0 <= ResumeAt(entries, cursor) < |entries| && PageSize(limit) > MAX_INT - ResumeAt(entries, cursor)
  }

  lemma ResumeIsNegative(entries: seq<Entry>, cursor: string)
    ensures ResumeAt(entries, cursor) < 0 <==> Foreign(entries, cursor)
  {
  }

  /** The slice expression is out of range exactly for such a cursor and for such a limit. */
  lemma PageFailsExactly(entries: seq<Entry>, cursor: string, limit: Int)
    requires |entries| <= MAX_INT
    ensures PageOf(entries, cursor, limit) == None <==> Foreign(entries, cursor) || Overflows(entries, cursor, limit)
  {
    ResumeIsNegative(entries, cursor);
  }

  /** No limit that leaves room for the whole listing overflows. */
  lemma ModestLimitsFit(entries: seq<Entry>, cursor: string, limit: Int)
    requires PageSize(limit) <= MAX_INT - |entries|
    ensures !Overflows(entries, cursor, limit)
  {
  }

  lemma CursorCuts(i: nat, name: string)
    ensures IndexOfChar(CursorAfter(i, name), ':') == |Itoa(i)|
    ensures CursorAfter(i, name)[..|Itoa(i)|] == Itoa(i)
    ensures CursorAfter(i, name)[|Itoa(i)| + 1..] == name
  {
    var cursor := CursorAfter(i, name);
    assert cursor[|Itoa(i)|] == ':';
    assert forall k :: 0 <= k < |Itoa(i)| ==> cursor[k] == Itoa(i)[k] && Itoa(i)[k] in Itoa(i);
  }

  /** An issued cursor resumes after its entry, wherever the entry is by then. */
  lemma CursorResumes(entries: seq<Entry>, i: nat, j: nat)
    requires DistinctNames(entries) && j < |entries| && i <= MAX_INT
    ensures ResumeAt(entries, CursorAfter(i, entries[j].name)) == j + 1
  {
    CursorCuts(i, entries[j].name);
    AtoiOfItoa(i);
  }

  /** After any edit of the list in which the cursor's entry survives, the next page starts at that entry's
      successor, unless there is one and the limit reaches past the largest int. */
  lemma PageAfterEdit(entries: seq<Entry>, i: nat, edited: seq<Entry>, j: nat, limit: Int)
    requires i < |entries| <= MAX_INT && |edited| <= MAX_INT
    requires DistinctNames(edited) && j < |edited| && edited[j].name == entries[i].name
    ensures var page := PageOf(edited, CursorAfter(i, entries[i].name), limit);
            && (page.Some? <==> j + 1 == |edited| || PageSize(limit) <= MAX_INT - (j + 1))
            && (page.Some? ==>
                  && page.value.entries <= edited[j + 1..]
                  && (page.value.entries == [] <==> j + 1 == |edited|)
                  && (page.value.cursor == "" <==> page.value.entries == edited[j + 1..]))
  {
    CursorResumes(edited, i, j);
  }

  /** When the entry of a cursor is gone the next page starts at its index, or at the end of what is left. */
  lemma PageAfterLoss(edited: seq<Entry>, i: nat, name: string)
    requires i <= MAX_INT && IndexOf(edited, name) == |edited|
    ensures ResumeAt(edited, CursorAfter(i, name)) == if i < |edited| then i else |edited|
  {
    CursorCuts(i, name);
    AtoiOfItoa(i);
  }

  /** If it is the only one gone, that is where its successor now stands: nothing is left out or shown twice. */
  lemma PageAfterDeletion(entries: seq<Entry>, i: nat)
    requires DistinctNames(entries) && i < |entries| <= MAX_INT
    ensures var rest := DeleteAt(entries, i);
            ResumeAt(rest, CursorAfter(i, entries[i].name)) == i && rest[i..] == entries[i + 1..]
  {
    var rest := DeleteAt(entries, i);
    assert forall k | 0 <= k < |rest| :: rest[k] == entries[if k < i then k else k + 1];
    PageAfterLoss(rest, i, entries[i].name);
  }

  /** A cursor without a colon, or without a number before it, starts from the beginning. */
  lemma MalformedStartsOver(entries: seq<Entry>, cursor: string)
    requires ':' !in cursor || (exists k | 0 <= k < |cursor| :: cursor[k] == ':' && ':' !in cursor[..k]
                                                                && Atoi(cursor[..k]) == None)
    ensures ResumeAt(entries, cursor) == 0
  {
    if k :| 0 <= k < |cursor| && cursor[k] == ':' && ':' !in cursor[..k] && Atoi(cursor[..k]) == None {
      assert forall i | 0 <= i < k :: cursor[i] == cursor[..k][i];
      assert IndexOfChar(cursor, ':') == k;
    }
  }

  /** A page has as many entries as were asked for, 500 if none were, or all that are left; and it tells how many
      there are. */
  lemma PageIsFull(entries: seq<Entry>, cursor: string, limit: Int)
    requires |entries| <= MAX_INT && PageOf(entries, cursor, limit).Some?
    ensures var page, start := PageOf(entries, cursor, limit).value, ResumeAt(entries, cursor);
            var asked, left := if limit <= 0 then 500 else limit, |entries| - start;
            && page.total == |entries|
            && start >= 0
            && |page.entries| == if left <= 0 then 0 else if asked < left then asked else left
  {
    PageFailsExactly(entries, cursor, limit);
    ResumeIsNegative(entries, cursor);
  }

  // ---------------------------------------------------------------- the two failures

  /** Every cursor "-1:name" with the name of no entry is such a cursor. */
  lemma ForeignCursorFails(entries: seq<Entry>, name: string, limit: Int)
    requires |entries| <= MAX_INT && IndexOf(entries, name) == |entries|
    ensures Foreign(entries, "-1:" + name) && PageOf(entries, "-1:" + name, limit) == None
  {
    var cursor := "-1:" + name;
    assert cursor[0] == '-' && cursor[1] == '1' && cursor[2] == ':';
    assert IndexOfChar(cursor, ':') == 2;
    assert cursor[..2] == "-1" && cursor[3..] == name;
    assert Atoi("-1") == Some(-1) by {
      assert "-1"[1..] == ['1'];
      assert Digits([]) == Some(0);
      assert ['1'][..0] == [];
    }
    PageFailsExactly(entries, cursor, limit);
  }

  /** In every list of two or more entries the first page of one entry issues a cursor from which a page of
      the largest limit fails. */
  lemma IssuedCursorOverflows(entries: seq<Entry>)
    requires DistinctNames(entries) && 2 <= |entries| <= MAX_INT
    ensures var cursor := CursorAfter(0, entries[0].name);
            && PageOf(entries, "", 1) == Some(Page(entries[..1], |entries|, cursor))
            && !Foreign(entries, cursor) && Overflows(entries, cursor, MAX_INT)
            && PageOf(entries, cursor, MAX_INT) == None
  {
    var cursor := CursorAfter(0, entries[0].name);
    CursorResumes(entries, 0, 0);
    ResumeIsNegative(entries, cursor);
    PageFailsExactly(entries, cursor, MAX_INT);
  }

  // ---------------------------------------------------------------- following the cursors

  /** A page is the stretch of entries from where its cursor resumes. */
  ghost predicate Stretch(entries: seq<Entry>, start: nat, page: Page) {
    var end := start + |page.entries|;
    && end <= |entries| && page.entries == entries[start..end]
    && (page.cursor == "" <==> end == |entries|)
    && (end < |entries| ==> start < end && page.cursor == CursorAfter(end - 1, entries[end - 1].name))
  }

  lemma PageStretch(entries: seq<Entry>, cursor: string, limit: Int, start: nat)
    requires ResumeAt(entries, cursor) == start <= |entries| && start <= MAX_INT
    ensures PageOf(entries, cursor, limit).Some? <==> start == |entries| || PageSize(limit) <= MAX_INT - start
    ensures PageOf(entries, cursor, limit).Some? ==> Stretch(entries, start, PageOf(entries, cursor, limit).value)
  {
  }

  /** The cursor of the request that follows some pages. */
  function NextCursor(pages: seq<Page>): string {
    if pages == [] then "" else pages[|pages| - 1].cursor
  }

  ghost predicate Request(entries: seq<Entry>, limits: nat -> Int, pages: seq<Page>, k: nat)
    requires k < |pages|
  {
    && (k > 0 ==> pages[k - 1].cursor != "")
    && PageOf(entries, NextCursor(pages[..k]), limits(k)) == Some(pages[k])
  }

  /** The pages a client gets from a fixed list by starting without a cursor and following the cursors it
      is given, asking for limits(k) entries in its k-th request. */
  ghost predicate Walk(entries: seq<Entry>, limits: nat -> Int, pages: seq<Page>) {
    forall k :: 0 <= k < |pages| ==> Request(entries, limits, pages, k)
  }

  function Concat(pages: seq<Page>): seq<Entry> {
    if pages == [] then [] else Concat(pages[..|pages| - 1]) + pages[|pages| - 1].entries
  }

  lemma WalkFront(entries: seq<Entry>, limits: nat -> Int, pages: seq<Page>)
    requires Walk(entries, limits, pages) && pages != []
    ensures Walk(entries, limits, pages[..|pages| - 1])
    ensures PageOf(entries, NextCursor(pages[..|pages| - 1]), limits(|pages| - 1)) == Some(pages[|pages| - 1])
    ensures |pages| > 1 ==> NextCursor(pages[..|pages| - 1]) != ""
  {
    var front := pages[..|pages| - 1];
    assert Request(entries, limits, pages, |pages| - 1);
    forall k | 0 <= k < |front| ensures Request(entries, limits, front, k) {
      assert Request(entries, limits, pages, k);
      assert front[..k] == pages[..k];
    }
  }

  /** Where the walk stands after some pages. */
  ghost predicate Reached(entries: seq<Entry>, pages: seq<Page>) {
    var n := |Concat(pages)|;
    && n <= |entries| && Concat(pages) == entries[..n]
    && (pages != [] ==> (NextCursor(pages) == "" <==> n == |entries|))
    && (NextCursor(pages) != "" ==> |pages| <= n)
    && (NextCursor(pages) != "" || pages == [] ==> ResumeAt(entries, NextCursor(pages)) == n)
  }

  lemma ConcatMore(front: seq<Page>, page: Page)
    ensures Concat(front + [page]) == Concat(front) + page.entries && NextCursor(front + [page]) == page.cursor
  {
    assert (front + [page])[..|front|] == front;
  }

  lemma StretchMore(entries: seq<Entry>, n: nat, page: Page)
    requires n <= |entries| && Stretch(entries, n, page)
    ensures entries[..n] + page.entries == entries[..n + |page.entries|]
  {
  }

  lemma OnePageFurther(entries: seq<Entry>, front: seq<Page>, page: Page)
    requires DistinctNames(entries) && |entries| <= MAX_INT
    requires Reached(entries, front) && |front| <= |entries| && Stretch(entries, |Concat(front)|, page)
    requires |front| <= |Concat(front)|
    ensures Reached(entries, front + [page]) && |front + [page]| <= |entries| + 1
  {
    var n := |Concat(front)|;
    var end := n + |page.entries|;
    ConcatMore(front, page);
    StretchMore(entries, n, page);
    if end < |entries| { CursorResumes(entries, end - 1, end - 1); }
  }

  lemma {:induction false} WalkReaches(entries: seq<Entry>, limits: nat -> Int, pages: seq<Page>)
    requires DistinctNames(entries) && |entries| <= MAX_INT && Walk(entries, limits, pages)
    ensures Reached(entries, pages)
    ensures |pages| <= |entries| + 1
  {
    if pages != [] {
      var front, page := pages[..|pages| - 1], pages[|pages| - 1];
      WalkFront(entries, limits, pages);
      WalkReaches(entries, limits, front);
      var n := |Concat(front)|;
      PageStretch(entries, NextCursor(front), limits(|front|), n);
      OnePageFurther(entries, front, page);
    }
  }

  /** Following the cursors over a fixed list visits the entries exactly once and in order, has visited
      all of them when it is given no further cursor, and never takes more requests than one per entry
      and one. */
  lemma WalkVisitsAll(entries: seq<Entry>, limits: nat -> Int, pages: seq<Page>)
    requires DistinctNames(entries) && |entries| <= MAX_INT && Walk(entries, limits, pages)
    ensures Concat(pages) <= entries
    ensures pages != [] ==> (NextCursor(pages) == "" <==> Concat(pages) == entries)
    ensures |pages| <= |entries| + 1
  {
    WalkReaches(entries, limits, pages);
  }

  /** Until then the next request is answered, unless its limit reaches past the largest int; no limit does
      that leaves room for the whole listing. */
  lemma WalkGoesOn(entries: seq<Entry>, limits: nat -> Int, pages: seq<Page>)
    requires DistinctNames(entries) && |entries| <= MAX_INT && Walk(entries, limits, pages)
    requires pages == [] || NextCursor(pages) != ""
    ensures var size := PageSize(limits(|pages|));
            && (PageOf(entries, NextCursor(pages), limits(|pages|)).Some? <==> size <= MAX_INT - |Concat(pages)|)
            && (size <= MAX_INT - |entries| ==> PageOf(entries, NextCursor(pages), limits(|pages|)).Some?)
  {
    WalkReaches(entries, limits, pages);
    PageStretch(entries, NextCursor(pages), limits(|pages|), |Concat(pages)|);
  }
}
