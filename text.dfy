/**
 * The Python string operations the backend relies on: `strip`, `startswith`,
 * `endswith`, `find`, `replace`, `split`, `lower` and the decimal rendering of
 * an `int` inside an f-string.
 */
module Text {
  import opened Wrappers

  /** Python's `str.isspace()` for a single character (the 29 whitespace code points). */
  predicate IsSpace(c: char) {
    c in SpaceChars || ('\U{001C}' <= c <= '\U{001F}') || ('\U{2000}' <= c <= '\U{200A}')
  }

  const SpaceChars: set<char> :=
    {' ', '\t', '\n', '\r', '\U{000B}', '\U{000C}', '\U{0085}', '\U{00A0}', '\U{1680}',
     '\U{2028}', '\U{2029}', '\U{202F}', '\U{205F}', '\U{3000}'}

  /** No whitespace at either end: what `strip()` returns. */
  predicate IsStripped(s: string) {
    s == [] || (!IsSpace(s[0]) && !IsSpace(s[|s| - 1]))
  }

  predicate StartsWith(s: string, p: string) {
    |p| <= |s| && s[..|p|] == p
  }

  predicate EndsWith(s: string, p: string) {
    |p| <= |s| && s[|s| - |p|..] == p
  }

  /** `p` occurs in `s` starting at index `i`. */
  predicate OccursAt(s: string, p: string, i: int) {
    0 <= i && i + |p| <= |s| && s[i..i + |p|] == p
  }

  /** `str.lstrip()`: drops the longest all-whitespace prefix. */
  function LStrip(s: string): (r: string)
    ensures |r| <= |s| && r == s[|s| - |r|..]
    ensures forall i :: 0 <= i < |s| - |r| ==> IsSpace(s[i])
    ensures r == [] || !IsSpace(r[0])
    decreases |s|
  {
    if s != [] && IsSpace(s[0]) then LStrip(s[1..]) else s
  }

  /** `str.rstrip()`: drops the longest all-whitespace suffix. */
  function RStrip(s: string): (r: string)
    ensures |r| <= |s| && r == s[..|r|]
    ensures forall i :: |r| <= i < |s| ==> IsSpace(s[i])
    ensures r == [] || !IsSpace(r[|r| - 1])
    decreases |s|
  {
    if s != [] && IsSpace(s[|s| - 1]) then RStrip(s[..|s| - 1]) else s
  }

  /** `str.strip()`. */
  function Strip(s: string): (r: string)
    ensures |r| <= |s|
    ensures IsStripped(r)
  {
    var l := LStrip(s);
    var r := RStrip(l);
    assert r != [] ==> r[0] == l[0];
    r
  }

  /** Everything of `s` outside `s[i..j]` is whitespace. */
  predicate Trimmed(s: string, i: int, j: int)
    requires 0 <= i <= j <= |s|
  {
    (forall k :: 0 <= k < i ==> IsSpace(s[k])) && (forall k :: j <= k < |s| ==> IsSpace(s[k]))
  }

  /** `strip()` keeps a piece `s[i..j]` of the string and removes only whitespace around it. */
  lemma StripPiece(s: string) returns (i: nat, j: nat)
    ensures i <= j <= |s| && Strip(s) == s[i..j] && Trimmed(s, i, j)
  {
    var l := LStrip(s);
    var r := RStrip(l);
    i := |s| - |l|;
    j := i + |r|;
    PrefixOfSuffix(s, l, r);
  }

  /** A prefix `r` of a suffix `l` of `s` is the piece of `s` that starts where `l` does. */
  lemma PrefixOfSuffix(s: string, l: string, r: string)
    requires |l| <= |s| && l == s[|s| - |l|..]
    requires |r| <= |l| && r == l[..|r|]
    requires forall k :: |r| <= k < |l| ==> IsSpace(l[k])
    ensures r == s[|s| - |l|..|s| - |l| + |r|]
    ensures forall k :: |s| - |l| + |r| <= k < |s| ==> IsSpace(s[k])
  {
    forall k | |s| - |l| + |r| <= k < |s| ensures IsSpace(s[k]) {
      assert s[k] == l[k - (|s| - |l|)];
    }
  }

  /** A string made only of whitespace strips to nothing. */
  lemma {:induction false} StripAllSpace(s: string)
    requires forall k :: 0 <= k < |s| ==> IsSpace(s[k])
    ensures LStrip(s) == [] && Strip(s) == []
    decreases |s|
  {
    if s != [] {
      assert IsSpace(s[0]);
      StripAllSpace(s[1..]);
    }
  }

  /** A non-empty stripped piece lies inside any other piece with only whitespace around it. */
  lemma PieceInside(s: string, i: int, j: int, i': int, j': int)
    requires 0 <= i < j <= |s| && IsStripped(s[i..j])
    requires 0 <= i' <= j' <= |s| && Trimmed(s, i', j')
    ensures i' <= i && j <= j'
  {
    assert s[i..j][0] == s[i] && s[i..j][j - i - 1] == s[j - 1];
  }

  /** The piece `Strip` keeps is the only one with these properties: `strip()` is determined by them. */
  lemma StripUnique(s: string, i: int, j: int)
    requires 0 <= i <= j <= |s| && Trimmed(s, i, j) && IsStripped(s[i..j])
    ensures Strip(s) == s[i..j]
  {
    if i < j {
      var i', j' := StripPiece(s);
      SamePiece(s, i, j, i', j');
    } else {
      assert forall k :: 0 <= k < |s| ==> IsSpace(s[k]);
      StripAllSpace(s);
    }
  }

  /** Two pieces with only whitespace around them, one non-empty and both stripped, are the same piece. */
  lemma SamePiece(s: string, i: int, j: int, i': int, j': int)
    requires 0 <= i < j <= |s| && IsStripped(s[i..j]) && Trimmed(s, i, j)
    requires 0 <= i' <= j' <= |s| && IsStripped(s[i'..j']) && Trimmed(s, i', j')
    ensures i == i' && j == j'
  {
    PieceInside(s, i, j, i', j');
    PieceInside(s, i', j', i, j);
  }

  /** Stripping a string that has no whitespace at its ends leaves it as it is. */
  lemma StripStripped(s: string)
    requires IsStripped(s)
    ensures Strip(s) == s
  {
  }

  /** Whitespace in front of an already stripped string is all that `strip()` removes. */
  lemma {:induction false} StripAfterSpaces(w: string, s: string)
    requires forall k :: 0 <= k < |w| ==> IsSpace(w[k])
    requires IsStripped(s)
    ensures Strip(w + s) == s
  {
    LStripSpaces(w, s);
    StripStripped(s);
  }

  lemma {:induction false} LStripSpaces(w: string, s: string)
    requires forall k :: 0 <= k < |w| ==> IsSpace(w[k])
    requires IsStripped(s)
    ensures LStrip(w + s) == s
    decreases |w|
  {
    if w == [] {
      assert w + s == s;
    } else {
      assert (w + s)[1..] == w[1..] + s;
      LStripSpaces(w[1..], s);
    }
  }

  /** `s.rfind(c)`: the index of the last `c` in `s`, or -1 when there is none. */
  function RFind(s: string, c: char): (r: int)
    ensures -1 <= r < |s|
    ensures r >= 0 ==> s[r] == c
    ensures forall j :: r < j < |s| ==> s[j] != c
    decreases |s|
  {
    if s == [] then -1
    else if s[|s| - 1] == c then |s| - 1
    else RFind(s[..|s| - 1], c)
  }

  /** RFind is determined by its contract: the last index holding `c`, or -1. */
  lemma RFindLast(s: string, c: char, k: int)
    requires k == -1 || (0 <= k < |s| && s[k] == c)
    requires forall j :: k < j < |s| ==> s[j] != c
    ensures RFind(s, c) == k
  {
  }

  /** `s.find(p)`, searching from index `i` on; `None` stands for Python's `-1`. */
  function FindFrom(s: string, p: string, i: nat): (r: Option<nat>)
    requires i <= |s|
    ensures r.Some? ==> i <= r.value && OccursAt(s, p, r.value)
    ensures r.Some? ==> forall j :: i <= j < r.value ==> !OccursAt(s, p, j)
    ensures r.None? ==> forall j :: i <= j ==> !OccursAt(s, p, j)
    decreases |s| - i
  {
    if OccursAt(s, p, i) then Some(i)
    else if i == |s| then None
    else FindFrom(s, p, i + 1)
  }

  /** `s.find(p)`: the first index at which `p` occurs. */
  function Find(s: string, p: string): (r: Option<nat>)
    ensures r.Some? ==> OccursAt(s, p, r.value) && forall j :: 0 <= j < r.value ==> !OccursAt(s, p, j)
    ensures r.None? ==> forall j :: !OccursAt(s, p, j)
  {
    FindFrom(s, p, 0)
  }

  /** `s.replace(pat, rep)`: every non-overlapping occurrence, scanning left to right. */
  function ReplaceAll(s: string, pat: string, rep: string): string
    requires pat != []
    decreases |s|
  {
    if |s| < |pat| then s
    else if s[..|pat|] == pat then rep + ReplaceAll(s[|pat|..], pat, rep)
    else [s[0]] + ReplaceAll(s[1..], pat, rep)
  }

  /** An occurrence in `s[1..]` is one in `s`, one place further on. */
  lemma OccursInTail(s: string, pat: string, j: int)
    requires |s| >= 1 && OccursAt(s[1..], pat, j)
    ensures OccursAt(s, pat, j + 1)
  {
    assert s[1..][j..j + |pat|] == s[j + 1..j + 1 + |pat|];
  }

  /** Where `pat` does not occur, replacing it changes nothing. */
  lemma {:induction false} ReplaceAllAbsent(s: string, pat: string, rep: string)
    requires pat != [] && forall j :: !OccursAt(s, pat, j)
    ensures ReplaceAll(s, pat, rep) == s
    decreases |s|
  {
    if |s| >= |pat| {
      assert !OccursAt(s, pat, 0);
      forall j | OccursAt(s[1..], pat, j) ensures false {
        OccursInTail(s, pat, j);
      }
      ReplaceAllAbsent(s[1..], pat, rep);
      assert [s[0]] + s[1..] == s;
    }
  }

  /** Removing occurrences never makes a string longer. */
  lemma {:induction false} RemoveAllNoLonger(s: string, pat: string)
    requires pat != []
    ensures |ReplaceAll(s, pat, [])| <= |s|
    decreases |s|
  {
    if |s| < |pat| {
    } else if s[..|pat|] == pat {
      RemoveAllNoLonger(s[|pat|..], pat);
    } else {
      RemoveAllNoLonger(s[1..], pat);
    }
  }

  /** When `pat` occurs in `s`, removing every occurrence takes away at least `|pat|` characters. */
  lemma {:induction false} RemoveAllShrinks(s: string, pat: string, j: int)
    requires pat != [] && OccursAt(s, pat, j)
    ensures |ReplaceAll(s, pat, [])| <= |s| - |pat|
    decreases |s|
  {
    if s[..|pat|] == pat {
      RemoveAllNoLonger(s[|pat|..], pat);
    } else {
      assert j != 0;
      assert s[1..][j - 1..j - 1 + |pat|] == s[j..j + |pat|];
      RemoveAllShrinks(s[1..], pat, j - 1);
    }
  }

  /** A string that starts with `pat`: its first occurrence is replaced first. */
  lemma ReplaceAllAtStart(pat: string, t: string, rep: string)
    requires pat != []
    ensures ReplaceAll(pat + t, pat, rep) == rep + ReplaceAll(t, pat, rep)
  {
    assert (pat + t)[..|pat|] == pat;
    assert (pat + t)[|pat|..] == t;
  }

  /** The occurrences of `pat` in `s[1..]` are those in `s`, one place earlier. */
  lemma OccursShift(s: string, pat: string, k: nat)
    requires |s| >= 1 && 1 <= k
    requires OccursAt(s, pat, k) && forall j :: 0 <= j < k ==> !OccursAt(s, pat, j)
    ensures !OccursAt(s, pat, 0) && k + |pat| <= |s|
    ensures OccursAt(s[1..], pat, k - 1) && forall j :: 0 <= j < k - 1 ==> !OccursAt(s[1..], pat, j)
  {
    var t := s[1..];
    assert t[k - 1..k - 1 + |pat|] == s[k..k + |pat|];
    forall j | 0 <= j < k - 1 ensures !OccursAt(t, pat, j) {
      assert !OccursAt(s, pat, j + 1);
      if j + |pat| <= |t| {
        assert t[j..j + |pat|] == s[j + 1..j + 1 + |pat|];
      }
    }
  }

  /** How the slices of `s[1..]` around position `k - 1` relate to those of `s` around `k`. */
  lemma TailSlices(s: string, k: nat, n: nat)
    requires 1 <= k && k + n <= |s|
    ensures s[1..][k - 1 + n..] == s[k + n..]
    ensures s[..k] == [s[0]] + s[1..][..k - 1]
  {
  }

  /** A string that does not start with `pat` keeps its first character. */
  lemma ReplaceAllSkip(s: string, pat: string, rep: string)
    requires pat != [] && |s| >= |pat| && !OccursAt(s, pat, 0)
    ensures ReplaceAll(s, pat, rep) == [s[0]] + ReplaceAll(s[1..], pat, rep)
  {
  }

  /**
   * Replacement goes left to right: up to the first occurrence of `pat` (at `k`) the
   * string is kept, that occurrence becomes `rep`, and the rest after it is replaced
   * in the same way.
   */
  lemma {:induction false} ReplaceAllFirst(s: string, pat: string, rep: string, k: nat)
    requires pat != [] && OccursAt(s, pat, k)
    requires forall j :: 0 <= j < k ==> !OccursAt(s, pat, j)
    ensures ReplaceAll(s, pat, rep) == s[..k] + rep + ReplaceAll(s[k + |pat|..], pat, rep)
    decreases k
  {
    if k == 0 {
      ReplaceAllFirstAtZero(s, pat, rep);
      assert s[..0] + rep == rep;
    } else {
      OccursShift(s, pat, k);
      ReplaceAllFirst(s[1..], pat, rep, k - 1);
      ReplaceAllFirstStep(s, pat, rep, k);
    }
  }

  /** ReplaceAllFirst when the first occurrence is at the start. */
  lemma ReplaceAllFirstAtZero(s: string, pat: string, rep: string)
    requires pat != [] && OccursAt(s, pat, 0)
    ensures ReplaceAll(s, pat, rep) == rep + ReplaceAll(s[|pat|..], pat, rep)
  {
    assert s[..|pat|] == pat;
  }

  /** One step of ReplaceAllFirst: a first character that starts no occurrence is kept. */
  lemma ReplaceAllFirstStep(s: string, pat: string, rep: string, k: nat)
    requires pat != [] && 1 <= k && k + |pat| <= |s| && !OccursAt(s, pat, 0)
    requires ReplaceAll(s[1..], pat, rep) == s[1..][..k - 1] + rep + ReplaceAll(s[1..][k - 1 + |pat|..], pat, rep)
    ensures ReplaceAll(s, pat, rep) == s[..k] + rep + ReplaceAll(s[k + |pat|..], pat, rep)
  {
    var t, u := s[1..], s[k + |pat|..];
    TailSlices(s, k, |pat|);
    ReplaceAllSkip(s, pat, rep);
    ConsConcat(s[0], t[..k - 1], rep, ReplaceAll(u, pat, rep), ReplaceAll(s, pat, rep), ReplaceAll(t, pat, rep));
  }

  /** Putting `c` in front of `pre + mid + post` extends its first part. */
  lemma ConsConcat(c: char, pre: string, mid: string, post: string, r: string, r': string)
    requires r == [c] + r' && r' == pre + mid + post
    ensures r == [c] + pre + mid + post
  {
  }

  /** `s.split(sep)`: at least one part, and no part contains the separator. */
  function Split(s: string, sep: char): (parts: seq<string>)
    ensures |parts| >= 1
    ensures forall k :: 0 <= k < |parts| ==> sep !in parts[k]
    decreases |s|
  {
    if s == [] then [[]]
    else
      var rest := Split(s[1..], sep);
      if s[0] == sep then [[]] + rest else [[s[0]] + rest[0]] + rest[1..]
  }

  /** `sep.join(parts)`. */
  function Join(parts: seq<string>, sep: char): string
    requires |parts| >= 1
    decreases |parts|
  {
    if |parts| == 1 then parts[0] else parts[0] + [sep] + Join(parts[1..], sep)
  }

  /** Splitting loses nothing: joining the parts back gives the original string. */
  lemma {:induction false} JoinSplit(s: string, sep: char)
    ensures Join(Split(s, sep), sep) == s
    decreases |s|
  {
    if s != [] {
      var rest := Split(s[1..], sep);
      JoinSplit(s[1..], sep);
      if s[0] == sep {
        assert ([[]] + rest)[1..] == rest;
      } else if |rest| > 1 {
        var parts := [[s[0]] + rest[0]] + rest[1..];
        assert parts[1..] == rest[1..];
        assert Join(parts, sep) == [s[0]] + (rest[0] + [sep] + Join(rest[1..], sep));
      }
    }
  }

  /** The first part of a split is the text before the first separator. */
  lemma {:induction false} SplitFirstLine(a: string, b: string, sep: char)
    requires sep !in a
    ensures Split(a + [sep] + b, sep) == [a] + Split(b, sep)
    decreases |a|
  {
    if a == [] {
      assert (a + [sep] + b)[1..] == b;
    } else {
      assert (a + [sep] + b)[1..] == a[1..] + [sep] + b;
      SplitFirstLine(a[1..], b, sep);
      assert [a[0]] + a[1..] == a;
    }
  }

  /** Index of the first element of `lines` at or after `i` that starts with `p`. */
  function FirstWithPrefixFrom(lines: seq<string>, p: string, i: nat): (r: Option<nat>)
    requires i <= |lines|
    ensures r.Some? ==> i <= r.value < |lines| && StartsWith(lines[r.value], p)
    ensures r.Some? ==> forall j :: i <= j < r.value ==> !StartsWith(lines[j], p)
    ensures r.None? ==> forall j :: i <= j < |lines| ==> !StartsWith(lines[j], p)
    decreases |lines| - i
  {
    if i == |lines| then None
    else if StartsWith(lines[i], p) then Some(i)
    else FirstWithPrefixFrom(lines, p, i + 1)
  }

  /** `next((l for l in lines if l.startswith(p)), None)`, as an index. */
  function FirstWithPrefix(lines: seq<string>, p: string): (r: Option<nat>)
    ensures r.Some? ==> r.value < |lines| && StartsWith(lines[r.value], p)
    ensures r.Some? ==> forall j :: 0 <= j < r.value ==> !StartsWith(lines[j], p)
    ensures r.None? ==> forall j :: 0 <= j < |lines| ==> !StartsWith(lines[j], p)
  {
    FirstWithPrefixFrom(lines, p, 0)
  }

  /** `str.lower()` on one character, for the ASCII letters. */
  function LowerChar(c: char): char {
    if 'A' <= c <= 'Z' then (c as int + 32) as char else c
  }

  /** `str.lower()`, character by character. */
  function Lower(s: string): (r: string)
    ensures |r| == |s| && forall i {:trigger r[i]} :: 0 <= i < |s| ==> r[i] == LowerChar(s[i])
  {
    seq(|s|, i requires 0 <= i < |s| => LowerChar(s[i]))
  }

  predicate IsDigits(s: string) {
    forall i :: 0 <= i < |s| ==> '0' <= s[i] <= '9'
  }

  /** The number a string of decimal digits denotes. */
  function DigitsValue(s: string): nat
    requires IsDigits(s)
    decreases |s|
  {
    if s == [] then 0 else DigitsValue(s[..|s| - 1]) * 10 + (s[|s| - 1] as int - '0' as int)
  }

  /** The decimal rendering of a natural number, as `f"{n}"` prints it. */
  function NatToString(n: nat): (r: string)
    ensures |r| >= 1 && IsDigits(r)
    ensures r[0] != '0' || n == 0
  {
    if n < 10 then ["0123456789"[n]]
    else NatToString(n / 10) + ["0123456789"[n % 10]]
  }

  /** Reading the rendering back gives the number again. */
  lemma {:induction false} NatToStringValue(n: nat)
    ensures DigitsValue(NatToString(n)) == n
  {
    if n >= 10 {
      var s := NatToString(n);
      assert s[..|s| - 1] == NatToString(n / 10);
      NatToStringValue(n / 10);
    }
  }

  /** The decimal rendering of an integer, with a leading `-` when negative. */
  function IntToString(n: int): (r: string)
    ensures n >= 0 ==> r == NatToString(n)
    ensures n < 0 ==> r == "-" + NatToString(-n)
  {
    if n < 0 then "-" + NatToString(-n) else NatToString(n)
  }
}
