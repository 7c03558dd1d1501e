/**
 * The JavaScript string built-ins the content pipeline relies on, on `seq<char>`:
 * `trim`, `startsWith`/`endsWith`, `indexOf`, `replace` with a string pattern,
 * `replace` with a global literal pattern, `split(',')` and `split(/[\r\n]+/)`.
 */
module Strings {
  import opened Wrappers

  /**
   * The code points that ECMAScript's `String.prototype.trim` removes and that
   * the regular-expression class `\s` matches: WhiteSpace (tab, vertical tab,
   * form feed, space, no-break space, byte-order mark and the Zs separators)
   * and LineTerminator (LF, CR, LS, PS).
   */
  predicate IsSpace(c: char) {
    || c == '\t' || c == '\n' || c == '\U{000B}' || c == '\U{000C}' || c == '\r'
    || c == ' ' || c == '\U{00A0}' || c == '\U{1680}'
    || ('\U{2000}' <= c <= '\U{200A}')
    || c == '\U{2028}' || c == '\U{2029}' || c == '\U{202F}' || c == '\U{205F}'
    || c == '\U{3000}' || c == '\U{FEFF}'
  }

  /** The regular-expression character class `[\r\n]`. */
  predicate IsBreak(c: char) {
    c == '\r' || c == '\n'
  }

  predicate AllSpace(s: string) {
    forall i :: 0 <= i < |s| ==> IsSpace(s[i])
  }

  /** No leading and no trailing whitespace: what `trim` produces. */
  predicate Trimmed(s: string) {
    |s| > 0 ==> !IsSpace(s[0]) && !IsSpace(s[|s| - 1])
  }

  /** The position just after the run of whitespace that starts at `i`. */
  function SpaceRunEnd(s: string, i: nat): (j: nat)
    requires i <= |s|
    ensures i <= j <= |s|
    ensures forall k :: i <= k < j ==> IsSpace(s[k])
    ensures j < |s| ==> !IsSpace(s[j])
    decreases |s| - i
  {
    if i < |s| && IsSpace(s[i]) then SpaceRunEnd(s, i + 1) else i
  }

  /** The start of the run of whitespace that ends at `j`, not going below `lo`. */
  function SpaceRunStart(s: string, lo: nat, j: nat): (i: nat)
    requires lo <= j <= |s|
    ensures lo <= i <= j
    ensures forall k :: i <= k < j ==> IsSpace(s[k])
    ensures i > lo ==> !IsSpace(s[i - 1])
    decreases j
  {
    if j > lo && IsSpace(s[j - 1]) then SpaceRunStart(s, lo, j - 1) else j
  }

  /** `s.trim()`: `s` with its leading and trailing whitespace removed. */
  function Trim(s: string): (r: string)
    ensures Trimmed(r) && |r| <= |s|
  {
    var lo := SpaceRunEnd(s, 0);
    s[lo..SpaceRunStart(s, lo, |s|)]
  }

  /** `trim` keeps exactly the slice between the leading and the trailing whitespace. */
  lemma TrimAt(s: string, i: nat, j: nat)
    requires i < j <= |s| && !IsSpace(s[i]) && !IsSpace(s[j - 1])
    requires forall k :: 0 <= k < i ==> IsSpace(s[k])
    requires forall k :: j <= k < |s| ==> IsSpace(s[k])
    ensures Trim(s) == s[i..j]
  {
    var lo := SpaceRunEnd(s, 0);
    assert lo == i;
    var hi := SpaceRunStart(s, lo, |s|);
    assert hi == j;
  }

  /** `trim` removes whitespace only: what it keeps is a slice of `s` with all-space margins. */
  lemma TrimIsInfix(s: string)
    ensures var r := Trim(s);
      exists i :: 0 <= i <= |s| - |r| && r == s[i..i + |r|] && AllSpace(s[..i]) && AllSpace(s[i + |r|..])
  {
    var lo := SpaceRunEnd(s, 0);
    var hi := SpaceRunStart(s, lo, |s|);
    assert AllSpace(s[..lo]);
    assert AllSpace(s[hi..]);
  }

  lemma TrimOfTrimmed(s: string)
    requires Trimmed(s)
    ensures Trim(s) == s
  {
    if |s| > 0 {
      TrimAt(s, 0, |s|);
    }
  }

  lemma TrimOfAllSpace(s: string)
    requires AllSpace(s)
    ensures Trim(s) == ""
  {
  }

  /** Whitespace around a string does not survive `trim`. */
  lemma TrimIgnoresPadding(l: string, m: string, r: string)
    requires AllSpace(l) && AllSpace(r)
    ensures Trim(l + m + r) == Trim(m)
  {
    var s := l + m + r;
    var lo, hi := TrimBounds(m);
    PaddedMargins(l, m, r, lo, hi);
    if lo == hi {
      TrimOfAllSpace(s);
    } else {
      assert s[|l| + lo..|l| + hi] == m[lo..hi];
      TrimAt(s, |l| + lo, |l| + hi);
    }
  }

  /** Where `trim` cuts `m`. */
  lemma TrimBounds(m: string) returns (lo: nat, hi: nat)
    ensures lo <= hi <= |m| && Trim(m) == m[lo..hi]
    ensures forall k :: 0 <= k < lo ==> IsSpace(m[k])
    ensures forall k :: hi <= k < |m| ==> IsSpace(m[k])
    ensures lo == hi ==> Trim(m) == ""
  {
    lo := SpaceRunEnd(m, 0);
    hi := SpaceRunStart(m, lo, |m|);
  }

  /** Outside the part of `m` between `lo` and `hi`, the padded string is all whitespace. */
  lemma PaddedMargins(l: string, m: string, r: string, lo: nat, hi: nat)
    requires AllSpace(l) && AllSpace(r) && lo <= hi <= |m|
    requires forall k :: 0 <= k < lo ==> IsSpace(m[k])
    requires forall k :: hi <= k < |m| ==> IsSpace(m[k])
    ensures forall k :: 0 <= k < |l| + lo || |l| + hi <= k < |l + m + r| ==> IsSpace((l + m + r)[k])
  {
    var s := l + m + r;
    forall k | 0 <= k < |l| + lo || |l| + hi <= k < |s|
      ensures IsSpace(s[k])
    {
      if k < |l| {
        assert s[k] == l[k];
      } else if k < |l| + |m| {
        assert s[k] == m[k - |l|];
      } else {
        assert s[k] == r[k - |l| - |m|];
      }
    }
  }

  predicate StartsWith(s: string, p: string) {
    |p| <= |s| && s[..|p|] == p
  }

  predicate EndsWith(s: string, p: string) {
    |p| <= |s| && s[|s| - |p|..] == p
  }

  /** `p` occurs somewhere in `s` (`s.includes(p)`). */
  predicate Contains(s: string, p: string) {
    exists j :: 0 <= j <= |s| && StartsWith(s[j..], p)
  }

  lemma ContainsStep(s: string, p: string)
    requires |s| > 0
    ensures Contains(s, p) <==> StartsWith(s, p) || Contains(s[1..], p)
  {
    if Contains(s, p) && !StartsWith(s, p) {
      var j :| 0 <= j <= |s| && StartsWith(s[j..], p);
      assert j > 0;
      assert s[1..][j - 1..] == s[j..];
    }
    if Contains(s[1..], p) {
      var j :| 0 <= j <= |s[1..]| && StartsWith(s[1..][j..], p);
      assert s[1..][j..] == s[j + 1..];
    }
    if StartsWith(s, p) {
      assert s[0..] == s;
    }
  }

  /**
   * `s.indexOf(p)`: the first position where `p` occurs, or `None` (the source's -1).
   */
  function IndexOf(s: string, p: string): (r: Option<nat>)
    ensures r.Some? ==> r.value <= |s| && StartsWith(s[r.value..], p)
    ensures r.Some? ==> forall j :: 0 <= j < r.value ==> !StartsWith(s[j..], p)
    ensures r.None? <==> !Contains(s, p)
    decreases |s|
  {
    if StartsWith(s, p) then
      assert s[0..] == s;
      Some(0)
    else if |s| == 0 then
      assert forall j :: 0 <= j <= |s| ==> s[j..] == s;
      None
    else
      ContainsStep(s, p);
      match IndexOf(s[1..], p)
      case None => None
      case Some(i) =>
        assert s[i + 1..] == s[1..][i..];
        assert forall j :: 1 <= j < i + 1 ==> s[j..] == s[1..][j - 1..];
        assert s[0..] == s;
        Some(i + 1)
  }

  /** `s.indexOf(c)` for a one-character pattern: the first position of `c`, or `None`. */
  function IndexOfChar(s: string, c: char): (r: Option<nat>)
    ensures r.Some? ==> r.value < |s| && s[r.value] == c && c !in s[..r.value]
    ensures r.None? <==> c !in s
    decreases |s|
  {
    if |s| == 0 then None
    else if s[0] == c then Some(0)
    else
      match IndexOfChar(s[1..], c)
      case None => None
      case Some(i) =>
        assert s[..i + 1] == [s[0]] + s[1..][..i];
        Some(i + 1)
  }

  /** The first occurrence of `p` in `s` starts at `i`. */
  predicate FirstAt(s: string, p: string, i: nat) {
    i + |p| <= |s| && s[i..i + |p|] == p && forall j :: 0 <= j < i ==> !StartsWith(s[j..], p)
  }

  /**
   * `s.replace(p, r)` with a string pattern: only the FIRST occurrence of `p` is
   * replaced; without an occurrence `s` is returned unchanged.
   */
  function ReplaceFirst(s: string, p: string, r: string): (t: string)
    ensures !Contains(s, p) ==> t == s
    ensures Contains(s, p) ==> exists i: nat :: FirstAt(s, p, i) && t == s[..i] + r + s[i + |p|..]
  {
    match IndexOf(s, p)
    case None => s
    case Some(i) =>
      assert s[i..][..|p|] == s[i..i + |p|];
      assert FirstAt(s, p, i);
      var t := s[..i] + r + s[i + |p|..];
      assert FirstAt(s, p, i) && t == s[..i] + r + s[i + |p|..];
      t
  }

  /**
   * `s.replace(/p/g, r)` for a pattern `p` without metacharacters and a
   * replacement without `$`: every occurrence of `p`, scanning left to right
   * and never overlapping, becomes `r`.
   */
  function ReplaceAll(s: string, p: string, r: string): string
    requires |p| > 0
    decreases |s|
  {
    if |s| == 0 then ""
    else if StartsWith(s, p) then r + ReplaceAll(s[|p|..], p, r)
    else [s[0]] + ReplaceAll(s[1..], p, r)
  }

  /** A string without occurrences of the pattern is left as it is. */
  lemma {:induction false} ReplaceAllAbsent(s: string, p: string, r: string)
    requires |p| > 0 && !Contains(s, p)
    ensures ReplaceAll(s, p, r) == s
    decreases |s|
  {
    if |s| > 0 {
      ContainsStep(s, p);
      ReplaceAllAbsent(s[1..], p, r);
    }
  }

  /** Each occurrence found at the front is replaced. */
  lemma ReplaceAllHit(p: string, w: string, r: string)
    requires |p| > 0
    ensures ReplaceAll(p + w, p, r) == r + ReplaceAll(w, p, r)
  {
    assert StartsWith(p + w, p);
    assert (p + w)[|p|..] == w;
  }

  /** No occurrence of `p` in `a + b` starts inside `a` and ends inside `b`. */
  predicate NoSpan(a: string, b: string, p: string) {
    forall j :: 0 <= j < |a| < j + |p| ==> !StartsWith((a + b)[j..], p)
  }

  /** Cutting `k` characters off the front of `a` keeps the cut clean. */
  lemma NoSpanShift(a: string, b: string, p: string, k: nat)
    requires k <= |a| && NoSpan(a, b, p)
    ensures NoSpan(a[k..], b, p)
  {
    forall j | 0 <= j < |a[k..]| < j + |p| ensures !StartsWith((a[k..] + b)[j..], p) {
      assert (a[k..] + b)[j..] == (a + b)[j + k..];
    }
  }

  /**
   * A global replace works on the two sides of a cut separately when no
   * occurrence of the pattern straddles the cut.
   */
  lemma {:induction false} ReplaceAllSplit(a: string, b: string, p: string, r: string)
    requires |p| > 0 && NoSpan(a, b, p)
    ensures ReplaceAll(a + b, p, r) == ReplaceAll(a, p, r) + ReplaceAll(b, p, r)
    decreases |a|
  {
    var s := a + b;
    if |a| == 0 {
      assert s == b;
    } else if StartsWith(s, p) {
      assert s[0..] == s;
      assert |p| <= |a|;
      assert a[..|p|] == s[..|p|];
      assert s[|p|..] == a[|p|..] + b;
      NoSpanShift(a, b, p, |p|);
      ReplaceAllSplit(a[|p|..], b, p, r);
    } else {
      if |p| <= |a| {
        assert a[..|p|] == s[..|p|];
      }
      assert s[1..] == a[1..] + b;
      NoSpanShift(a, b, p, 1);
      ReplaceAllSplit(a[1..], b, p, r);
    }
  }

  /** The number of occurrences of the character `c` in `s`. */
  function Count(s: string, c: char): nat
    decreases |s|
  {
    if |s| == 0 then 0 else (if s[0] == c then 1 else 0) + Count(s[1..], c)
  }

  /** `s.split(c)` for a one-character separator: the pieces between separators, empty ones kept. */
  function Split(s: string, c: char): (parts: seq<string>)
    ensures |parts| > 0
    ensures forall i :: 0 <= i < |parts| ==> c !in parts[i]
    decreases |s|
  {
    if |s| == 0 then [""]
    else
      var rest := Split(s[1..], c);
      if s[0] == c then [""] + rest
      else [[s[0]] + rest[0]] + rest[1..]
  }

  /** `parts.join(sep)`. */
  function Join(parts: seq<string>, sep: string): string
    decreases |parts|
  {
    if |parts| == 0 then ""
    else if |parts| == 1 then parts[0]
    else parts[0] + sep + Join(parts[1..], sep)
  }

  /** Splitting at a separator and joining with it gives back the input. */
  lemma {:induction false} JoinSplit(s: string, c: char)
    ensures Join(Split(s, c), [c]) == s
    decreases |s|
  {
    if |s| > 0 {
      var rest := Split(s[1..], c);
      JoinSplit(s[1..], c);
      if s[0] == c {
        assert Split(s, c) == [""] + rest;
        if |rest| == 1 {
          assert Join([""] + rest, [c]) == "" + [c] + rest[0];
        } else {
          assert ([""] + rest)[1..] == rest;
        }
        assert s == [s[0]] + s[1..];
      } else {
        var parts := [[s[0]] + rest[0]] + rest[1..];
        assert Split(s, c) == parts;
        if |rest| == 1 {
          assert Join(parts, [c]) == [s[0]] + rest[0];
        } else {
          assert parts[1..] == rest[1..];
          assert Join(rest, [c]) == rest[0] + [c] + Join(rest[1..], [c]);
        }
        assert s == [s[0]] + s[1..];
      }
    }
  }

  /** There is one more piece than there are separators. */
  lemma {:induction false} SplitCount(s: string, c: char)
    ensures |Split(s, c)| == Count(s, c) + 1
    decreases |s|
  {
    if |s| > 0 {
      SplitCount(s[1..], c);
    }
  }

  /** A text without the separator is one piece. */
  lemma {:induction false} SplitWithoutSeparator(a: string, c: char)
    requires c !in a
    ensures Split(a, c) == [a]
    decreases |a|
  {
    if |a| > 0 {
      SplitWithoutSeparator(a[1..], c);
      assert a == [a[0]] + a[1..];
    }
  }

  /** The first separator ends the first piece. */
  lemma {:induction false} SplitAtFirstSeparator(a: string, b: string, c: char)
    requires c !in a
    ensures Split(a + [c] + b, c) == [a] + Split(b, c)
    decreases |a|
  {
    var s := a + [c] + b;
    if |a| == 0 {
      assert s[1..] == b;
    } else {
      assert s[1..] == a[1..] + [c] + b;
      SplitAtFirstSeparator(a[1..], b, c);
      assert a == [a[0]] + a[1..];
    }
  }

  /** Joining pieces free of the separator and splitting again gives the pieces back. */
  lemma {:induction false} SplitJoin(parts: seq<string>, c: char)
    requires |parts| > 0
    requires forall i :: 0 <= i < |parts| ==> c !in parts[i]
    ensures Split(Join(parts, [c]), c) == parts
    decreases |parts|
  {
    if |parts| == 1 {
      SplitWithoutSeparator(parts[0], c);
    } else {
      SplitJoin(parts[1..], c);
      SplitAtFirstSeparator(parts[0], Join(parts[1..], [c]), c);
      assert parts == [parts[0]] + parts[1..];
    }
  }

  /** `parts.map(t => t.trim())`. */
  function TrimEach(parts: seq<string>): (r: seq<string>)
    ensures |r| == |parts|
    ensures forall i :: 0 <= i < |r| ==> r[i] == Trim(parts[i])
  {
    seq(|parts|, i requires 0 <= i < |parts| => Trim(parts[i]))
  }

  /** The position just after the run of line breaks that starts at `i`. */
  function BreakRunEnd(s: string, i: nat): (j: nat)
    requires i <= |s|
    ensures i <= j <= |s|
    ensures forall k :: i <= k < j ==> IsBreak(s[k])
    ensures j < |s| ==> !IsBreak(s[j])
    decreases |s| - i
  {
    if i < |s| && IsBreak(s[i]) then BreakRunEnd(s, i + 1) else i
  }

  /** The first line break at or after `i`. */
  function FirstBreak(s: string, i: nat): (r: Option<nat>)
    requires i <= |s|
    ensures r.Some? ==> i <= r.value < |s| && IsBreak(s[r.value])
    ensures r.Some? ==> forall k :: i <= k < r.value ==> !IsBreak(s[k])
    ensures r.None? ==> forall k :: i <= k < |s| ==> !IsBreak(s[k])
    decreases |s| - i
  {
    if i == |s| then None
    else if IsBreak(s[i]) then Some(i)
    else FirstBreak(s, i + 1)
  }

  predicate NoBreak(s: string) {
    forall k :: 0 <= k < |s| ==> !IsBreak(s[k])
  }

  /** `s` with every line-break character removed. */
  function DropBreaks(s: string): string
    decreases |s|
  {
    if |s| == 0 then ""
    else (if IsBreak(s[0]) then "" else [s[0]]) + DropBreaks(s[1..])
  }

  /** The concatenation of a list of strings. */
  function Concat(parts: seq<string>): string
    decreases |parts|
  {
    if |parts| == 0 then "" else parts[0] + Concat(parts[1..])
  }

  /**
   * `s.split(/[\r\n]+/)`: the pieces between maximal runs of line breaks. A
   * leading or trailing run gives an empty first or last piece.
   */
  function SplitLines(s: string): (lines: seq<string>)
    ensures |lines| > 0
    ensures forall k :: 0 <= k < |lines| ==> NoBreak(lines[k])
    decreases |s|
  {
    match FirstBreak(s, 0)
    case None => [s]
    case Some(i) => [s[..i]] + SplitLines(s[BreakRunEnd(s, i)..])
  }

  /** A text without line breaks is a single line. */
  lemma SplitLinesOfLine(s: string)
    requires NoBreak(s)
    ensures SplitLines(s) == [s]
  {
  }

  /**
   * A maximal run of line breaks ends the first line: the line is the text
   * before the run, and splitting goes on after it.
   */
  lemma SplitLinesAtBreaks(a: string, r: string, b: string)
    requires NoBreak(a) && |r| > 0 && forall k :: 0 <= k < |r| ==> IsBreak(r[k])
    requires |b| == 0 || !IsBreak(b[0])
    ensures SplitLines(a + r + b) == [a] + SplitLines(b)
  {
    var s := a + r + b;
    assert IsBreak(s[|a|]);
    assert forall k :: 0 <= k < |a| ==> s[k] == a[k];
    var i := FirstBreak(s, 0).value;
    assert i == |a|;
    assert forall k :: |a| <= k < |a| + |r| ==> s[k] == r[k - |a|];
    assert |a| + |r| < |s| ==> s[|a| + |r|] == b[0];
    assert BreakRunEnd(s, i) == |a| + |r|;
    assert s[..|a|] == a && s[|a| + |r|..] == b;
  }

  lemma {:induction false} DropBreaksAppend(a: string, b: string)
    ensures DropBreaks(a + b) == DropBreaks(a) + DropBreaks(b)
    decreases |a|
  {
    if |a| > 0 {
      assert (a + b)[1..] == a[1..] + b;
      DropBreaksAppend(a[1..], b);
    } else {
      assert a + b == b;
    }
  }

  lemma {:induction false} DropBreaksOfNoBreak(s: string)
    requires NoBreak(s)
    ensures DropBreaks(s) == s
    decreases |s|
  {
    if |s| > 0 {
      DropBreaksOfNoBreak(s[1..]);
    }
  }

  lemma {:induction false} DropBreaksOfBreaks(s: string)
    requires forall k :: 0 <= k < |s| ==> IsBreak(s[k])
    ensures DropBreaks(s) == ""
    decreases |s|
  {
    if |s| > 0 {
      DropBreaksOfBreaks(s[1..]);
    }
  }

  /** The lines hold exactly the non-break characters of `s`, in order. */
  lemma {:induction false} SplitLinesKeepsText(s: string)
    ensures Concat(SplitLines(s)) == DropBreaks(s)
    decreases |s|
  {
    match FirstBreak(s, 0)
    case None =>
      DropBreaksOfNoBreak(s);
    case Some(i) =>
      var j := BreakRunEnd(s, i);
      SplitLinesKeepsText(s[j..]);
      assert s == s[..i] + s[i..j] + s[j..];
      DropBreaksAppend(s[..i] + s[i..j], s[j..]);
      DropBreaksAppend(s[..i], s[i..j]);
      DropBreaksOfNoBreak(s[..i]);
      DropBreaksOfBreaks(s[i..j]);
  }
}
