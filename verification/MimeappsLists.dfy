/** Semicolon lists: splitList of desktop/parser.go and its inverse in desktop/mimeapps.go. */
module MimeappsLists {
  import opened Text

  /** strings.Split. */
  function Split(s: string, c: char): (parts: seq<string>)
    ensures |parts| > 0
  {
    if s == "" then [""]
    else
      var before := Split(s[..|s| - 1], c);
      if s[|s| - 1] == c then before + [""]
      else before[|before| - 1 := before[|before| - 1] + [s[|s| - 1]]]
  }

  /** The parts that are not blank, trimmed. */
  function Items(parts: seq<string>): seq<string> {
    if parts == [] then []
    else
      var last := TrimSpace(parts[|parts| - 1]);
      Items(parts[..|parts| - 1]) + if last == "" then [] else [last]
  }

  function ListOf(value: string): seq<string> {
    Items(Split(value, ';'))
  }

  method SplitList(value: string) returns (out: seq<string>)
    ensures out == ListOf(value)
  {
    if value == "" { return []; }
    var parts := Split(value, ';');
    out := [];
    for i := 0 to |parts|
      invariant out == Items(parts[..i])
    {
      assert parts[..i + 1][..i] == parts[..i];
      var p := TrimSpace(parts[i]);
      if p == "" { continue; }
      out := out + [p];
    }
    assert parts[..|parts|] == parts;
  }

  function Flatten(list: seq<string>): string {
    Join(list, ";") + ";"
  }

  // ---------------------------------------------------------------- splitting undoes flattening

  predicate Item(s: string) {
    s != "" && Trimmed(s) && ';' !in s
  }

  lemma {:induction false} SplitWhole(s: string, c: char)
    requires c !in s
    ensures Split(s, c) == [s]
  {
    if s != "" {
      SplitWhole(s[..|s| - 1], c);
      assert s == s[..|s| - 1] + [s[|s| - 1]];
    }
  }

  lemma {:induction false} SplitMore(s: string, item: string, c: char)
    requires c !in item
    ensures Split(s + [c] + item, c) == Split(s, c) + [item]
  {
    var whole := s + [c] + item;
    if item == "" {
      assert whole[..|whole| - 1] == s;
    } else {
      SplitMore(s, item[..|item| - 1], c);
      assert whole[..|whole| - 1] == s + [c] + item[..|item| - 1];
      assert item == item[..|item| - 1] + [item[|item| - 1]];
    }
  }

  lemma {:induction false} SplitJoined(list: seq<string>)
    requires list != [] && forall x | x in list :: ';' !in x
    ensures Split(Join(list, ";"), ';') == list
  {
    if |list| == 1 {
      SplitWhole(list[0], ';');
    } else {
      var before, last := list[..|list| - 1], list[|list| - 1];
      SplitJoined(before);
      SplitMore(Join(before, ";"), last, ';');
      assert list == before + [last];
      assert Join(list, ";") == Join(before, ";") + [';'] + last;
    }
  }

  lemma {:induction false} ItemsStay(list: seq<string>)
    requires forall x | x in list :: Item(x)
    ensures Items(list) == list
  {
    if list != [] {
      ItemsStay(list[..|list| - 1]);
      assert Item(list[|list| - 1]);
      TrimSpaceTrims(list[|list| - 1]);
      assert list == list[..|list| - 1] + [list[|list| - 1]];
    }
  }

  lemma BlankTail(list: seq<string>)
    ensures Items(list + [""]) == Items(list)
  {
  }

  /** A list of items comes back from its text, the empty one too. */
  lemma ListOfFlatten(list: seq<string>)
    requires forall x | x in list :: Item(x)
    ensures ListOf(Flatten(list)) == list
  {
    if list == [] {
      assert Split(";", ';') == ["", ""] by { SplitMore("", "", ';'); }
      assert ["", ""][..1] == [""] && [""][..0] == [];
    } else {
      SplitJoined(list);
      SplitMore(Join(list, ";"), "", ';');
      assert Flatten(list) == Join(list, ";") + [';'] + "";
      ItemsStay(list);
      BlankTail(list);
    }
  }

  /** Every item is written with a semicolon after it. */
  lemma FlattenEndsEach(list: seq<string>, item: string)
    ensures Flatten([]) == ";" && Flatten([item]) == item + ";"
    ensures list != [] ==> Flatten(list + [item]) == Flatten(list) + item + ";"
  {
    if list != [] {
      assert (list + [item])[..|list|] == list;
      assert Flatten(list + [item]) == Join(list, ";") + ";" + item + ";";
    }
  }

  lemma ListOfItem(item: string)
    requires Item(item)
    ensures ListOf(item) == [item]
  {
    SplitWhole(item, ';');
    ItemsStay([item]);
  }

  lemma {:induction false} TrimLeftKeeps(s: string)
    ensures TrimLeft(s) == s[|s| - |TrimLeft(s)|..]
  {
    if s != "" && IsSpace(s[0]) { TrimLeftKeeps(s[1..]); }
  }

  lemma TrimSpaceKeeps(s: string)
    ensures forall c | c in TrimSpace(s) :: c in s
  {
    TrimLeftKeeps(s);
  }

  /** What comes out of any text is a list of items. */
  lemma {:induction false} ItemsAreTrimmed(parts: seq<string>)
    requires forall p | p in parts :: ';' !in p
    ensures forall x | x in Items(parts) :: Item(x)
  {
    if parts != [] {
      ItemsAreTrimmed(parts[..|parts| - 1]);
      TrimSpaceTrims(parts[|parts| - 1]);
      TrimSpaceKeeps(parts[|parts| - 1]);
    }
  }

  lemma {:induction false} PartsAreClear(s: string, c: char)
    ensures forall p | p in Split(s, c) :: c !in p
  {
    if s != "" { PartsAreClear(s[..|s| - 1], c); }
  }

  lemma ListsAreItems(value: string)
    ensures forall x | x in ListOf(value) :: Item(x)
  {
    PartsAreClear(value, ';');
    ItemsAreTrimmed(Split(value, ';'));
  }
}
