/** The few string operations of Go's strings package that the parsers and encoders use. */
module Text {
  /** Unicode's white space. */
  predicate IsSpace(c: char) {
    || c == '\t' || c == '\n' || c == '\U{0B}' || c == '\U{0C}' || c == '\r' || c == ' '
    || c == '\U{85}' || c == '\U{A0}' || c == '\U{1680}' || '\U{2000}' <= c <= '\U{200A}'
    || c == '\U{2028}' || c == '\U{2029}' || c == '\U{202F}' || c == '\U{205F}' || c == '\U{3000}'
  }

  function TrimLeft(s: string): (r: string)
    ensures |r| <= |s| && (r != "" ==> !IsSpace(r[0]))
  {
    if s != "" && IsSpace(s[0]) then TrimLeft(s[1..]) else s
  }

  function TrimRight(s: string): (r: string)
    ensures |r| <= |s| && (r != "" ==> !IsSpace(r[|r| - 1]))
    ensures r == s[..|r|]
  {
    if s != "" && IsSpace(s[|s| - 1]) then TrimRight(s[..|s| - 1]) else s
  }

  function TrimSpace(s: string): string {
    TrimRight(TrimLeft(s))
  }

  /** Nothing left to trim. */
  predicate Trimmed(s: string) {
    s == "" || (!IsSpace(s[0]) && !IsSpace(s[|s| - 1]))
  }

  lemma TrimSpaceTrims(s: string)
    ensures Trimmed(TrimSpace(s)) && |TrimSpace(s)| <= |s|
    ensures Trimmed(s) ==> TrimSpace(s) == s
  {
  }

  /** What is cut off are blanks at the two ends, and only they. */
  predicate Cut(s: string, r: string, i: nat, j: nat) {
    && i <= j <= |s| && r == s[i..j]
    && (forall k | 0 <= k < i :: IsSpace(s[k])) && (forall k | j <= k < |s| :: IsSpace(s[k]))
  }

  lemma {:induction false} TrimLeftCuts(s: string) returns (i: nat)
    ensures i <= |s| && TrimLeft(s) == s[i..] && forall k | 0 <= k < i :: IsSpace(s[k])
  {
    i := 0;
    if s != "" && IsSpace(s[0]) {
      i := TrimLeftCuts(s[1..]);
      assert s[1..][i..] == s[i + 1..];
      assert forall k | 1 <= k < i + 1 :: s[k] == s[1..][k - 1];
      i := i + 1;
    }
  }

  lemma {:induction false} TrimRightCuts(s: string)
    ensures forall k | |TrimRight(s)| <= k < |s| :: IsSpace(s[k])
  {
    if s != "" && IsSpace(s[|s| - 1]) { TrimRightCuts(s[..|s| - 1]); }
  }

  lemma TrimSpaceCuts(s: string) returns (i: nat, j: nat)
    ensures Cut(s, TrimSpace(s), i, j)
  {
    i := TrimLeftCuts(s);
    TrimRightCuts(TrimLeft(s));
    j := i + |TrimSpace(s)|;
    assert forall k | j <= k < |s| :: s[k] == TrimLeft(s)[k - i];
    assert TrimSpace(s) == TrimLeft(s)[..|TrimSpace(s)|];
  }

  lemma {:induction false} ShownLeft(line: string, c: char)
    requires c in line && !IsSpace(c)
    ensures c in TrimLeft(line)
  {
    if IsSpace(line[0]) {
      assert line == [line[0]] + line[1..];
      ShownLeft(line[1..], c);
    }
  }

  lemma {:induction false} ShownRight(line: string, c: char)
    requires c in line && !IsSpace(c)
    ensures TrimRight(line) != ""
  {
    if IsSpace(line[|line| - 1]) {
      assert line == line[..|line| - 1] + [line[|line| - 1]];
      ShownRight(line[..|line| - 1], c);
    }
  }

  /** A character that is no blank survives trimming. */
  lemma ShownWhole(line: string, c: char)
    requires c in line && !IsSpace(c)
    ensures TrimSpace(line) != ""
  {
    ShownLeft(line, c);
    ShownRight(TrimLeft(line), c);
  }

  /** strings.Join. */
  function Join(parts: seq<string>, separator: string): string {
    if parts == [] then ""
    else if |parts| == 1 then parts[0]
    else Join(parts[..|parts| - 1], separator) + separator + parts[|parts| - 1]
  }

  /** strings.Count of one character. */
  function Count(s: string, c: char): nat {
    if s == "" then 0 else Count(s[..|s| - 1], c) + if s[|s| - 1] == c then 1 else 0
  }

  lemma {:induction false} CountCounts(s: string, c: char)
    ensures Count(s, c) == multiset(s)[c]
  {
    if s != "" {
      CountCounts(s[..|s| - 1], c);
      assert s == s[..|s| - 1] + [s[|s| - 1]];
    }
  }

  /** strings.IndexByte, with the length for a character that is not there. */
  function IndexOfChar(s: string, c: char): (i: nat)
    ensures i <= |s|
    ensures i < |s| ==> s[i] == c
    ensures forall k :: 0 <= k < i ==> s[k] != c
  {
    if s == [] || s[0] == c then 0
    else
      var i := IndexOfChar(s[1..], c);
      assert forall k :: 1 <= k < 1 + i ==> s[k] == s[1..][k - 1];
      1 + i
  }

  // ---------------------------------------------------------------- order

  function CompareInt(a: int, b: int): int {
    if a < b then -1 else if a > b then 1 else 0
  }

  /** Byte-wise comparison, as in bytes.Compare and strings.Compare. */
  function CompareBytes(a: string, b: string): int {
    if a == [] then if b == [] then 0 else -1
    else if b == [] then 1
    else if a[0] != b[0] then CompareInt(a[0] as int, b[0] as int)
    else CompareBytes(a[1..], b[1..])
  }

  /** Up to place n the two agree, and there the first ends or has the smaller character. */
  predicate LowerAt(a: string, b: string, n: nat) {
    && n <= |a| && n < |b| && a[..n] == b[..n]
    && (n < |a| ==> a[n] < b[n])
  }

  /** Before in dictionary order. */
  ghost predicate Lower(a: string, b: string) {
    exists n :: LowerAt(a, b, n)
  }

  lemma {:induction false} CompareBytesTells(a: string, b: string)
    ensures CompareBytes(a, b) < 0 <==> Lower(a, b)
  {
    if a == [] {
      if b != [] { assert LowerAt(a, b, 0); }
    } else if b != [] && a[0] == b[0] {
      CompareBytesTells(a[1..], b[1..]);
      if n: nat :| LowerAt(a[1..], b[1..], n) {
        assert a[..n + 1] == [a[0]] + a[1..][..n] && b[..n + 1] == [b[0]] + b[1..][..n];
        assert LowerAt(a, b, n + 1);
      }
      if n: nat :| LowerAt(a, b, n) {
        assert n > 0;
        assert a[1..][..n - 1] == a[..n][1..] && b[1..][..n - 1] == b[..n][1..];
        assert LowerAt(a[1..], b[1..], n - 1);
      }
    } else if b != [] {
      if a[0] < b[0] { assert LowerAt(a, b, 0); }
      if n: nat :| LowerAt(a, b, n) { assert n > 0 ==> a[..n][0] == b[..n][0]; }
    }
  }

  lemma {:induction false} CompareBytesLaws(a: string, b: string)
    ensures CompareBytes(a, b) == -CompareBytes(b, a)
    ensures CompareBytes(a, b) == 0 <==> a == b
  {
    if a != [] && b != [] && a[0] == b[0] {
      CompareBytesLaws(a[1..], b[1..]);
      assert a == [a[0]] + a[1..] && b == [b[0]] + b[1..];
    }
  }

  lemma {:induction false} CompareBytesTransitive(a: string, b: string, c: string)
    requires CompareBytes(a, b) <= 0 && CompareBytes(b, c) <= 0
    ensures CompareBytes(a, c) <= 0
    ensures CompareBytes(a, c) == 0 ==> CompareBytes(a, b) == 0 && CompareBytes(b, c) == 0
  {
    if a != [] && b != [] && c != [] && a[0] == b[0] && b[0] == c[0] {
      CompareBytesTransitive(a[1..], b[1..], c[1..]);
    }
  }

  predicate IsLeast(s: set<string>, k: string) {
    k in s && forall j | j in s :: CompareBytes(k, j) <= 0
  }

  lemma {:induction false} SomeLeast(s: set<string>) returns (k: string)
    requires s != {}
    ensures IsLeast(s, k)
  {
    k :| k in s;
    CompareBytesLaws(k, k);
    if s != {k} {
      var least := SomeLeast(s - {k});
      CompareBytesLaws(k, least);
      if CompareBytes(least, k) <= 0 {
        k := least;
      } else {
        forall j | j in s ensures CompareBytes(k, j) <= 0 {
          if j != k { CompareBytesTransitive(k, least, j); }
        }
      }
    }
  }

  function LeastOf(s: set<string>): (k: string)
    requires s != {}
    ensures k in s
  {
    assert exists k :: IsLeast(s, k) by { var k := SomeLeast(s); }
    assert forall j, k | IsLeast(s, j) && IsLeast(s, k) :: j == k by {
      forall j, k | IsLeast(s, j) && IsLeast(s, k) ensures j == k { CompareBytesLaws(j, k); }
    }
    var k :| k in s && IsLeast(s, k);
    k
  }

  lemma LeastIsLeast(s: set<string>)
    requires s != {}
    ensures IsLeast(s, LeastOf(s))
  {
  }

  /** The members of a set in byte order: sort.Strings of a map's keys. */
  function SortedKeys(s: set<string>): seq<string> {
    if s == {} then [] else [LeastOf(s)] + SortedKeys(s - {LeastOf(s)})
  }

  /** Each member once. */
  lemma {:induction false} SortedKeysAreTheKeys(s: set<string>)
    ensures forall k :: k in SortedKeys(s) <==> k in s
    ensures |SortedKeys(s)| == |s|
    ensures forall i, j | 0 <= i < j < |SortedKeys(s)| :: SortedKeys(s)[i] != SortedKeys(s)[j]
  {
    if s != {} {
      var rest := s - {LeastOf(s)};
      SortedKeysAreTheKeys(rest);
      var keys := SortedKeys(s);
      forall i, j | 0 <= i < j < |keys| ensures keys[i] != keys[j] {
        assert keys[j] == SortedKeys(rest)[j - 1] && keys[j] in SortedKeys(rest);
        if i > 0 { assert keys[i] == SortedKeys(rest)[i - 1]; }
      }
    }
  }

  lemma LeastIsBelow(s: set<string>, k: string)
    requires k in s && k != LeastOf(s)
    ensures CompareBytes(LeastOf(s), k) < 0
  {
    LeastIsLeast(s);
    CompareBytesLaws(LeastOf(s), k);
  }

  lemma {:induction false} SortedKeysAscend(s: set<string>)
    ensures forall i, j | 0 <= i < j < |SortedKeys(s)| :: CompareBytes(SortedKeys(s)[i], SortedKeys(s)[j]) < 0
  {
    if s != {} {
      var rest, keys := s - {LeastOf(s)}, SortedKeys(s);
      SortedKeysAscend(rest);
      SortedKeysAreTheKeys(rest);
      assert forall j | 1 <= j < |keys| :: keys[j] == SortedKeys(rest)[j - 1];
      forall i, j | 0 <= i < j < |keys| ensures CompareBytes(keys[i], keys[j]) < 0 {
        if i == 0 {
          assert SortedKeys(rest)[j - 1] in SortedKeys(rest);
          LeastIsBelow(s, keys[j]);
        }
      }
    }
  }
}
