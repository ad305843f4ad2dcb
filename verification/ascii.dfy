/**
 ASCII-only counterparts of the Go `strings` functions the capture server
 relies on: upper/lower casing, whitespace trimming, prefix handling,
 substring search, `Split` and `Join`. Strings are sequences of characters;
 case mapping and whitespace are restricted to ASCII.
 */
module Ascii {
  import opened Wrappers

  /** Applies `f` to every character of `s`. */
  function MapChars(f: char -> char, s: string): (r: string)
    ensures |r| == |s|
    ensures forall i :: 0 <= i < |s| ==> r[i] == f(s[i])
  {
    if s == [] then [] else [f(s[0])] + MapChars(f, s[1..])
  }

  function UpperChar(c: char): char {
    if 'a' <= c <= 'z' then (c as int - 32) as char else c
  }

  function LowerChar(c: char): char {
    if 'A' <= c <= 'Z' then (c as int + 32) as char else c
  }

  /** `strings.ToUpper` on ASCII text: character by character, and no lower-case letter survives. */
  function ToUpper(s: string): (r: string)
    ensures |r| == |s| && forall i :: 0 <= i < |s| ==> r[i] == UpperChar(s[i])
    ensures forall i :: 0 <= i < |r| ==> !('a' <= r[i] <= 'z')
  {
    MapChars(UpperChar, s)
  }

  /** `strings.ToLower` on ASCII text: character by character, and no upper-case letter survives. */
  function ToLower(s: string): (r: string)
    ensures |r| == |s| && forall i :: 0 <= i < |s| ==> r[i] == LowerChar(s[i])
    ensures forall i :: 0 <= i < |r| ==> !('A' <= r[i] <= 'Z')
  {
    MapChars(LowerChar, s)
  }

  /** Upper-casing leaves text without lower-case ASCII letters unchanged. */
  lemma ToUpperKeepsUpper(s: string)
    requires forall i :: 0 <= i < |s| ==> !('a' <= s[i] <= 'z')
    ensures ToUpper(s) == s
  {
  }

  /** The upper-cased text starts with `p` when its first characters upper-case to `p`. */
  lemma ToUpperHasPrefix(s: string, p: string)
    requires |p| <= |s| && forall i :: 0 <= i < |p| ==> UpperChar(s[i]) == p[i]
    ensures HasPrefix(ToUpper(s), p)
  {
    assert ToUpper(s)[..|p|] == p;
  }

  /** The lower-cased text starts with `p` when its first characters lower-case to `p`. */
  lemma ToLowerHasPrefix(s: string, p: string)
    requires |p| <= |s| && forall i :: 0 <= i < |p| ==> LowerChar(s[i]) == p[i]
    ensures HasPrefix(ToLower(s), p)
  {
    assert ToLower(s)[..|p|] == p;
  }

  /** ASCII white space as `strings.TrimSpace` sees it: tab, LF, VT, FF, CR, space. */
  predicate IsSpace(c: char) {
    c == ' ' || c == '\t' || c == '\n' || c == '\r' || c as int == 11 || c as int == 12
  }

  predicate AllSpace(s: string) {
    forall k :: 0 <= k < |s| ==> IsSpace(s[k])
  }

  /** Removes leading white space. */
  function TrimLeft(s: string): string {
    if s != [] && IsSpace(s[0]) then TrimLeft(s[1..]) else s
  }

  /** Removes trailing white space. */
  function TrimRight(s: string): string {
    if s != [] && IsSpace(s[|s| - 1]) then TrimRight(s[..|s| - 1]) else s
  }

  /** `TrimLeft` cuts only white space from the front and stops at the first other character. */
  lemma {:induction false} TrimLeftCutsSpace(s: string)
    decreases |s|
    ensures |TrimLeft(s)| <= |s| && TrimLeft(s) == s[|s| - |TrimLeft(s)|..]
    ensures AllSpace(s[..|s| - |TrimLeft(s)|])
    ensures TrimLeft(s) != [] ==> !IsSpace(TrimLeft(s)[0])
  {
    if s != [] && IsSpace(s[0]) {
      var tail := s[1..];
      TrimLeftCutsSpace(tail);
      var n := |TrimLeft(tail)|;
      assert TrimLeft(s) == TrimLeft(tail);
      assert s[|s| - n..] == tail[|tail| - n..];
      assert s[..|s| - n] == [s[0]] + tail[..|tail| - n];
    }
  }

  /** `TrimRight` cuts only white space from the back and stops at the last other character. */
  lemma {:induction false} TrimRightCutsSpace(s: string)
    decreases |s|
    ensures |TrimRight(s)| <= |s| && TrimRight(s) == s[..|TrimRight(s)|]
    ensures AllSpace(s[|TrimRight(s)|..])
    ensures TrimRight(s) != [] ==> !IsSpace(TrimRight(s)[|TrimRight(s)| - 1])
  {
    if s != [] && IsSpace(s[|s| - 1]) {
      var init := s[..|s| - 1];
      TrimRightCutsSpace(init);
      var n := |TrimRight(init)|;
      assert TrimRight(s) == TrimRight(init);
      assert s[..n] == init[..n];
      assert s[n..] == init[n..] + [s[|s| - 1]];
    }
  }

  /**
   `r` is `s` with its white-space margins removed: a slice of `s` that
   neither starts nor ends with white space, and only white space was cut.
   */
  ghost predicate IsTrimOf(s: string, r: string) {
    exists i, j :: TrimCut(s, i, j) && r == s[i..j]
  }

  /** `s[..i]` and `s[j..]` are white space, and `s[i..j]` neither starts nor ends with it. */
  predicate TrimCut(s: string, i: int, j: int) {
    && 0 <= i <= j <= |s| && AllSpace(s[..i]) && AllSpace(s[j..])
    && (i < j ==> !IsSpace(s[i]) && !IsSpace(s[j - 1]))
  }

  /** `strings.TrimSpace` on ASCII text. */
  function TrimSpace(s: string): (r: string)
    ensures IsTrimOf(s, r)
  {
    var l := TrimLeft(s);
    var r := TrimRight(l);
    TrimLeftCutsSpace(s);
    TrimRightCutsSpace(l);
    assert r == s[|s| - |l|..|s| - |l| + |r|];
    assert s[|s| - |l| + |r|..] == l[|r|..];
    assert TrimCut(s, |s| - |l|, |s| - |l| + |r|);
    r
  }

  /** Cutting only white-space margins leaves every character outside `s[i..j]` white space. */
  lemma MarginsAreSpace(s: string, i: nat, j: nat)
    requires i <= j <= |s| && AllSpace(s[..i]) && AllSpace(s[j..])
    ensures forall k :: 0 <= k < |s| && !(i <= k < j) ==> IsSpace(s[k])
  {
    forall k | 0 <= k < |s| && !(i <= k < j)
      ensures IsSpace(s[k])
    {
      if k < i { assert s[..i][k] == s[k]; } else { assert s[j..][k - j] == s[k]; }
    }
  }

  /** A character that is not white space lies between the margins. */
  lemma NonSpaceInside(s: string, i: nat, j: nat, k: nat)
    requires i <= j <= |s| && AllSpace(s[..i]) && AllSpace(s[j..])
    requires k < |s| && !IsSpace(s[k])
    ensures i <= k < j
  {
    MarginsAreSpace(s, i, j);
  }

  /** Two cuts of `s` into white-space margins and a middle that starts and ends with non-space agree. */
  lemma TrimCutsAgree(s: string, i1: int, j1: int, i2: int, j2: int)
    requires TrimCut(s, i1, j1) && TrimCut(s, i2, j2)
    ensures (i1 < j1) == (i2 < j2)
    ensures i1 < j1 ==> i1 == i2 && j1 == j2
  {
    // a non-empty middle starts at the first and ends after the last
    // non-space character, and the other cut must enclose both
    if i1 < j1 {
      NonSpaceInside(s, i2, j2, i1);
      NonSpaceInside(s, i2, j2, j1 - 1);
    }
    if i2 < j2 {
      NonSpaceInside(s, i1, j1, i2);
      NonSpaceInside(s, i1, j1, j2 - 1);
    }
  }

  /** At most one text is the trim of `s`, so `IsTrimOf` pins `TrimSpace` down exactly. */
  lemma TrimIsUnique(s: string, r1: string, r2: string)
    requires IsTrimOf(s, r1) && IsTrimOf(s, r2)
    ensures r1 == r2
  {
    var i1, j1 :| TrimCut(s, i1, j1) && r1 == s[i1..j1];
    var i2, j2 :| TrimCut(s, i2, j2) && r2 == s[i2..j2];
    TrimCutsAgree(s, i1, j1, i2, j2);
  }

  /** Text that neither starts nor ends with white space is its own trim. */
  lemma TrimSpaceKeepsUnpadded(s: string)
    requires s != [] ==> !IsSpace(s[0]) && !IsSpace(s[|s| - 1])
    ensures TrimSpace(s) == s
  {
  }

  /** `strings.HasPrefix`. */
  predicate HasPrefix(s: string, p: string) {
    |p| <= |s| && s[..|p|] == p
  }

  /** `strings.TrimPrefix`: drops `p` from the front of `s` when it is there. */
  function TrimPrefix(s: string, p: string): (r: string)
    ensures HasPrefix(s, p) ==> p + r == s
    ensures !HasPrefix(s, p) ==> r == s
  {
    if HasPrefix(s, p) then s[|p|..] else s
  }

  /** `pat` occurs in `s` at position `k`. */
  predicate Occurs(s: string, pat: string, k: int) {
    0 <= k && k + |pat| <= |s| && s[k..k + |pat|] == pat
  }

  /** The first occurrence of `pat` in `s` at or after position `k`. */
  function IndexFrom(s: string, pat: string, k: nat): (r: Option<nat>)
    decreases |s| - k
    ensures r.Some? ==> k <= r.value && Occurs(s, pat, r.value)
    ensures r.Some? ==> forall j :: k <= j < r.value ==> !Occurs(s, pat, j)
    ensures r.None? ==> forall j :: k <= j ==> !Occurs(s, pat, j)
  {
    if k + |pat| > |s| then None
    else if s[k..k + |pat|] == pat then Some(k)
    else IndexFrom(s, pat, k + 1)
  }

  /** `strings.Index`, with `None` for Go's -1. */
  function Index(s: string, pat: string): (r: Option<nat>)
    ensures r.Some? ==> Occurs(s, pat, r.value) && forall j :: 0 <= j < r.value ==> !Occurs(s, pat, j)
    ensures r.None? ==> forall j :: !Occurs(s, pat, j)
  {
    IndexFrom(s, pat, 0)
  }

  /** `strings.Contains`. */
  function Contains(s: string, pat: string): (b: bool)
    ensures b <==> exists j :: Occurs(s, pat, j)
  {
    Index(s, pat).Some?
  }

  /** Text without the pattern's first character cannot contain the pattern. */
  lemma LacksFirstCharNotContained(s: string, pat: string)
    requires pat != []
    requires forall i :: 0 <= i < |s| ==> s[i] != pat[0]
    ensures !Contains(s, pat)
  {
    forall j | 0 <= j && j + |pat| <= |s|
      ensures !Occurs(s, pat, j)
    {
      assert s[j..j + |pat|][0] == s[j];
    }
  }

  /** `strings.Join`. */
  function Join(parts: seq<string>, sep: string): string
  {
    if |parts| == 0 then ""
    else if |parts| == 1 then parts[0]
    else parts[0] + sep + Join(parts[1..], sep)
  }

  /**
   `strings.Split` for a non-empty separator: the pieces between successive
   non-overlapping occurrences of `sep`, scanned from the left.
   */
  function Split(s: string, sep: string): (parts: seq<string>)
    requires sep != []
    decreases |s|
    ensures |parts| >= 1
    ensures Join(parts, sep) == s
    ensures |parts| == 1 <==> !Contains(s, sep)
    ensures forall k :: 0 <= k < |parts| - 1 ==> EndsAtFirstSeparator(parts[k], sep)
    ensures !Contains(parts[|parts| - 1], sep)
  {
    match Index(s, sep)
    case None => [s]
    case Some(i) =>
      var rest := Split(s[i + |sep|..], sep);
      SplitCons(s, sep, i, rest);
      [s[..i]] + rest
  }

  /**
   Putting the text before the first separator in front of a split of the text
   after it gives a split of the whole text.
   */
  lemma SplitCons(s: string, sep: string, i: nat, rest: seq<string>)
    requires Index(s, sep) == Some(i)
    requires |rest| >= 1 && Join(rest, sep) == s[i + |sep|..]
    requires forall k :: 0 <= k < |rest| - 1 ==> EndsAtFirstSeparator(rest[k], sep)
    ensures Join([s[..i]] + rest, sep) == s
    ensures Contains(s, sep)
    ensures forall k :: 0 <= k < |rest| ==> EndsAtFirstSeparator(([s[..i]] + rest)[k], sep)
  {
    JoinCons(s[..i], rest, sep);
    SliceAround(s, i, i + |sep|);
    FirstPieceEndsAtSeparator(s, sep, i);
    var parts := [s[..i]] + rest;
    assert forall k :: 1 <= k < |parts| ==> parts[k] == rest[k - 1];
  }

  /** A piece of a split: the separator written after it is the first one in it. */
  predicate EndsAtFirstSeparator(piece: string, sep: string) {
    Index(piece + sep, sep) == Some(|piece|)
  }

  /** The text before the first separator, followed by the separator, first contains it at its end. */
  lemma FirstPieceEndsAtSeparator(s: string, sep: string, i: nat)
    requires Index(s, sep) == Some(i)
    ensures EndsAtFirstSeparator(s[..i], sep)
  {
    var t := s[..i] + sep;
    assert t == s[..i + |sep|];
    forall j | 0 <= j < i
      ensures !Occurs(t, sep, j)
    {
      assert !Occurs(s, sep, j);
      assert forall m :: j <= m < j + |sep| ==> t[m] == s[m];
    }
    assert Occurs(t, sep, i);
    FirstOccurrenceIsIndex(t, sep, i);
  }

  /** An occurrence with none before it is the one `Index` reports. */
  lemma FirstOccurrenceIsIndex(t: string, pat: string, i: nat)
    requires Occurs(t, pat, i)
    requires forall j :: 0 <= j < i ==> !Occurs(t, pat, j)
    ensures Index(t, pat) == Some(i)
  {
  }

  /** Text is the concatenation of the pieces before, between and after two cut points. */
  lemma SliceAround(s: string, i: nat, j: nat)
    requires i <= j <= |s|
    ensures s == s[..i] + s[i..j] + s[j..]
  {
    assert s[..i] + s[i..j] == s[..j];
  }

  /** Joining a leading piece in front of further pieces puts one separator between them. */
  lemma JoinCons(x: string, rest: seq<string>, sep: string)
    requires rest != []
    ensures Join([x] + rest, sep) == x + sep + Join(rest, sep)
  {
    assert ([x] + rest)[1..] == rest;
  }

  /** The first piece of a split ends at the first separator, and the rest rejoin to what follows it. */
  lemma SplitAtFirst(s: string, sep: string, i: nat)
    requires sep != []
    requires Index(s, sep) == Some(i)
    ensures Split(s, sep)[0] == s[..i]
    ensures Join(Split(s, sep)[1..], sep) == s[i + |sep|..]
  {
    assert Split(s, sep)[1..] == Split(s[i + |sep|..], sep);
  }
}
