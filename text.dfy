/**
 * The parts of Python's `str` that the line parser relies on: whitespace,
 * `strip`/`lstrip`, `split` with an explicit separator, and the substring test `in`.
 */
module Text {

  /**
   * Python's notion of whitespace for `str.strip()` and `str.lstrip()` without
   * arguments: the code points that `str.isspace()` accepts.
   */
  predicate IsSpace(c: char)
  {
    var n := c as int;
    (0x09 <= n <= 0x0D) || (0x1C <= n <= 0x20) || n == 0x85 || n == 0xA0 ||
    n == 0x1680 || (0x2000 <= n <= 0x200A) || n == 0x2028 || n == 0x2029 ||
    n == 0x202F || n == 0x205F || n == 0x3000
  }

  /** No whitespace at either end: what `strip()` returns. */
  predicate IsStripped(s: string)
  {
    s == [] || (!IsSpace(s[0]) && !IsSpace(s[|s| - 1]))
  }

  /** The length of the longest all-whitespace prefix of `s`. */
  function LeadingSpaces(s: string): (k: nat)
    ensures k <= |s|
  {
    if s == [] || !IsSpace(s[0]) then 0 else 1 + LeadingSpaces(s[1..])
  }

  /** The leading whitespace is whitespace, and the character after it is not. */
  lemma {:induction false} LeadingSpacesSpec(s: string)
    ensures forall i :: 0 <= i < LeadingSpaces(s) ==> IsSpace(s[i])
    ensures LeadingSpaces(s) < |s| ==> !IsSpace(s[LeadingSpaces(s)])
  {
    if s != [] && IsSpace(s[0]) {
      LeadingSpacesSpec(s[1..]);
      forall i | 1 <= i < LeadingSpaces(s) ensures IsSpace(s[i]) {
        assert s[i] == s[1..][i - 1];
      }
      if LeadingSpaces(s) < |s| {
        assert s[LeadingSpaces(s)] == s[1..][LeadingSpaces(s[1..])];
      }
    }
  }

  /** The length of the longest all-whitespace suffix of `s`. */
  function TrailingSpaces(s: string): (k: nat)
    ensures k <= |s|
  {
    if s == [] || !IsSpace(s[|s| - 1]) then 0 else 1 + TrailingSpaces(s[..|s| - 1])
  }

  /** The trailing whitespace is whitespace, and the character before it is not. */
  lemma {:induction false} TrailingSpacesSpec(s: string)
    ensures forall i :: |s| - TrailingSpaces(s) <= i < |s| ==> IsSpace(s[i])
    ensures TrailingSpaces(s) < |s| ==> !IsSpace(s[|s| - 1 - TrailingSpaces(s)])
  {
    if s != [] && IsSpace(s[|s| - 1]) {
      var t := s[..|s| - 1];
      TrailingSpacesSpec(t);
      forall i | |s| - TrailingSpaces(s) <= i < |s| - 1 ensures IsSpace(s[i]) {
        assert s[i] == t[i];
      }
      if TrailingSpaces(s) < |s| {
        assert s[|s| - 1 - TrailingSpaces(s)] == t[|t| - 1 - TrailingSpaces(t)];
      }
    }
  }

  /** `s.lstrip()` */
  function LStrip(s: string): string
  {
    s[LeadingSpaces(s)..]
  }

  /** `s.rstrip()` */
  function RStrip(s: string): string
  {
    s[..|s| - TrailingSpaces(s)]
  }

  /** `s.strip()` */
  function Strip(s: string): (r: string)
    ensures |r| <= |s|
  {
    RStrip(LStrip(s))
  }

  /**
   * What `strip()` returns: a stripped text, namely the slice of `s` that
   * starts after its leading whitespace, with only whitespace outside it.
   */
  lemma StripSpec(s: string)
    ensures IsStripped(Strip(s))
    ensures LeadingSpaces(s) + |Strip(s)| <= |s|
    ensures Strip(s) == s[LeadingSpaces(s)..LeadingSpaces(s) + |Strip(s)|]
    ensures forall i :: 0 <= i < |s| && !(LeadingSpaces(s) <= i < LeadingSpaces(s) + |Strip(s)|) ==> IsSpace(s[i])
  {
    StripEnds(s);
    StripOutside(s);
  }

  /** The slice `strip()` keeps: from the end of the leading whitespace to the start of the trailing whitespace. */
  lemma StripShape(s: string) returns (a: nat, b: nat)
    ensures a == LeadingSpaces(s) && b == TrailingSpaces(s[a..])
    ensures a + b <= |s| && Strip(s) == s[a..|s| - b]
  {
    a := LeadingSpaces(s);
    b := TrailingSpaces(s[a..]);
  }

  /** The text `strip()` keeps starts and ends with a non-whitespace character. */
  lemma StripEnds(s: string)
    ensures IsStripped(Strip(s))
  {
    var a, b := StripShape(s);
    var t := s[a..];
    var r := Strip(s);
    if r != [] {
      LeadingSpacesSpec(s);
      TrailingSpacesSpec(t);
      assert r[0] == s[a];
      assert r[|r| - 1] == t[|t| - 1 - b];
    }
  }

  /** Everything `strip()` drops is whitespace. */
  lemma StripOutside(s: string)
    ensures LeadingSpaces(s) + |Strip(s)| <= |s|
    ensures Strip(s) == s[LeadingSpaces(s)..LeadingSpaces(s) + |Strip(s)|]
    ensures forall i :: 0 <= i < |s| && !(LeadingSpaces(s) <= i < LeadingSpaces(s) + |Strip(s)|) ==> IsSpace(s[i])
  {
    var a, b := StripShape(s);
    var t := s[a..];
    LeadingSpacesSpec(s);
    TrailingSpacesSpec(t);
    forall i | |s| - b <= i < |s| ensures IsSpace(s[i]) {
      assert s[i] == t[i - a];
    }
  }

  /** Stripping text that is already stripped changes nothing. */
  lemma StripStripped(s: string)
    requires IsStripped(s)
    ensures Strip(s) == s
  {
  }

  /** `sub` occurs in `s` starting at index `i`. */
  predicate OccursAt(s: string, sub: string, i: nat)
  {
    i + |sub| <= |s| && s[i..i + |sub|] == sub
  }

  /** Python's `sub in s` for strings. */
  predicate Contains(s: string, sub: string)
  {
    exists i: nat :: i <= |s| && OccursAt(s, sub, i)
  }

  /** An occurrence needs room: a text shorter than `sub` does not contain it. */
  lemma ContainsNeedsRoom(s: string, sub: string)
    ensures Contains(s, sub) ==> |sub| <= |s|
  {
    if Contains(s, sub) {
      var i: nat :| i <= |s| && OccursAt(s, sub, i);
    }
  }

  /**
   * `s.split(sep)` for a non-empty separator: cut `s` at every occurrence of
   * `sep`, scanning from the left and never reusing characters of an
   * occurrence already cut.
   */
  function Split(s: string, sep: string): (parts: seq<string>)
    requires sep != []
    ensures |parts| >= 1
    decreases |s|
  {
    if |s| < |sep| then [s]
    else if s[..|sep|] == sep then [[]] + Split(s[|sep|..], sep)
    else
      var rest := Split(s[1..], sep);
      [[s[0]] + rest[0]] + rest[1..]
  }

  /** `sep.join(parts)` */
  function Join(parts: seq<string>, sep: string): string
  {
    if parts == [] then []
    else if |parts| == 1 then parts[0]
    else parts[0] + sep + Join(parts[1..], sep)
  }

  /** Joining the pieces of a split with the same separator gives back the text. */
  lemma {:induction false} JoinSplit(s: string, sep: string)
    requires sep != []
    ensures Join(Split(s, sep), sep) == s
    decreases |s|
  {
    if |s| < |sep| {
    } else if s[..|sep|] == sep {
      var rest := Split(s[|sep|..], sep);
      assert Split(s, sep) == [[]] + rest;
      JoinSplit(s[|sep|..], sep);
      JoinEmptyHead(rest, sep);
      assert s == s[..|sep|] + s[|sep|..];
    } else {
      var rest := Split(s[1..], sep);
      assert Split(s, sep) == [[s[0]] + rest[0]] + rest[1..];
      JoinSplit(s[1..], sep);
      JoinConsHead(s[0], rest, sep);
      assert s == [s[0]] + s[1..];
    }
  }

  /** An empty first piece contributes only the separator that follows it. */
  lemma JoinEmptyHead(parts: seq<string>, sep: string)
    requires parts != []
    ensures Join([[]] + parts, sep) == sep + Join(parts, sep)
  {
    assert ([[]] + parts)[1..] == parts;
  }

  /** A character put in front of the first piece ends up in front of the joined text. */
  lemma JoinConsHead(c: char, parts: seq<string>, sep: string)
    requires parts != []
    ensures Join([[c] + parts[0]] + parts[1..], sep) == [c] + Join(parts, sep)
  {
    var q := [[c] + parts[0]] + parts[1..];
    if |parts| > 1 {
      assert q[1..] == parts[1..];
    }
  }

  lemma OccursAtShift(s: string, sub: string, i: nat)
    requires s != [] && i >= 1
    ensures OccursAt(s, sub, i) <==> OccursAt(s[1..], sub, i - 1)
  {
    if i + |sub| <= |s| {
      SliceOfSlice(s, 1, |s|, i - 1, i - 1 + |sub|);
    }
  }

  /** A text that does not start with `sub` contains it exactly when its tail does. */
  lemma ContainsTail(s: string, sub: string)
    requires s != [] && !OccursAt(s, sub, 0)
    ensures Contains(s, sub) <==> Contains(s[1..], sub)
  {
    if Contains(s, sub) {
      var i: nat :| i <= |s| && OccursAt(s, sub, i);
      OccursAtShift(s, sub, i);
      assert OccursAt(s[1..], sub, i - 1);
    }
    if Contains(s[1..], sub) {
      var i: nat :| i <= |s[1..]| && OccursAt(s[1..], sub, i);
      OccursAtShift(s, sub, i + 1);
      assert OccursAt(s, sub, i + 1);
    }
  }

  /** A split yields a single piece exactly when the separator does not occur. */
  lemma {:induction false} SplitSingleIff(s: string, sep: string)
    requires sep != []
    ensures |Split(s, sep)| == 1 <==> !Contains(s, sep)
    decreases |s|
  {
    if |s| < |sep| {
      ContainsNeedsRoom(s, sep);
    } else if s[..|sep|] == sep {
      assert OccursAt(s, sep, 0);
    } else {
      SplitSingleIff(s[1..], sep);
      assert !OccursAt(s, sep, 0);
      ContainsTail(s, sep);
    }
  }

  /** Splitting on one character yields one piece more than it has occurrences. */
  lemma {:induction false} SplitCharCount(s: string, c: char)
    ensures |Split(s, [c])| == multiset(s)[c] + 1
    decreases |s|
  {
    if s == [] {
    } else {
      assert s == [s[0]] + s[1..];
      SplitCharCount(s[1..], c);
      if s[0] == c {
        assert s[..1] == [c];
      } else {
        assert s[..1] != [c];
      }
    }
  }

  /** The first piece of a split is a prefix of the text. */
  lemma SplitFirstIsPrefix(s: string, sep: string)
    requires sep != []
    ensures |Split(s, sep)[0]| <= |s| && Split(s, sep)[0] == s[..|Split(s, sep)[0]|]
  {
    var parts := Split(s, sep);
    JoinSplit(s, sep);
    if |parts| > 1 {
      assert Join(parts, sep) == parts[0] + (sep + Join(parts[1..], sep));
    }
  }

  /** No piece of a split still contains the separator. */
  lemma {:induction false} SplitPiecesAvoidSep(s: string, sep: string)
    requires sep != []
    ensures forall k :: 0 <= k < |Split(s, sep)| ==> !Contains(Split(s, sep)[k], sep)
    decreases |s|
  {
    var parts := Split(s, sep);
    if |s| < |sep| {
      ContainsNeedsRoom(s, sep);
    } else if s[..|sep|] == sep {
      var rest := Split(s[|sep|..], sep);
      SplitPiecesAvoidSep(s[|sep|..], sep);
      assert parts == [[]] + rest;
      ContainsNeedsRoom([], sep);
      forall k | 0 <= k < |parts| ensures !Contains(parts[k], sep) {
        if k > 0 {
          assert parts[k] == rest[k - 1];
        }
      }
    } else {
      var rest := Split(s[1..], sep);
      SplitPiecesAvoidSep(s[1..], sep);
      SplitFirstIsPrefix(s[1..], sep);
      var first := [s[0]] + rest[0];
      assert parts == [first] + rest[1..];
      assert first == s[..|first|];
      if |sep| <= |first| {
        assert first[..|sep|] == s[..|sep|];
      }
      assert !OccursAt(first, sep, 0);
      ContainsTail(first, sep);
      assert first[1..] == rest[0];
      forall k | 0 <= k < |parts| ensures !Contains(parts[k], sep) {
        if k > 0 {
          assert parts[k] == rest[k];
        }
      }
    }
  }

  /**
   * Stripping whitespace cannot destroy an occurrence of a separator that
   * begins and ends with a non-whitespace character.
   */
  lemma ContainsSurvivesStrip(s: string, sep: string)
    requires sep != [] && !IsSpace(sep[0]) && !IsSpace(sep[|sep| - 1])
    requires Contains(s, sep)
    ensures Contains(Strip(s), sep)
  {
    var i: nat :| i <= |s| && OccursAt(s, sep, i);
    OccursSurvivesStrip(s, sep, i);
    assert OccursAt(Strip(s), sep, i - LeadingSpaces(s));
  }

  /**
   * An occurrence of such a separator is kept by `strip()`, shifted by the
   * leading whitespace removed.
   */
  lemma OccursSurvivesStrip(s: string, sep: string, i: nat)
    requires sep != [] && !IsSpace(sep[0]) && !IsSpace(sep[|sep| - 1])
    requires OccursAt(s, sep, i)
    ensures LeadingSpaces(s) <= i && OccursAt(Strip(s), sep, i - LeadingSpaces(s))
  {
    var n := |sep|;
    OccurrenceEnds(s, sep, i);
    KeptByStrip(s, i);
    KeptByStrip(s, i + n - 1);
    StripSlice(s);
    OccursInEqualSlice(s, Strip(s), LeadingSpaces(s), sep, i);
  }

  /** An occurrence inside the part of a text that another text equals is an occurrence in that other text. */
  lemma OccursInEqualSlice(s: string, t: string, lo: nat, sub: string, i: nat)
    requires lo + |t| <= |s| && t == s[lo..lo + |t|]
    requires lo <= i && i + |sub| <= lo + |t| && OccursAt(s, sub, i)
    ensures OccursAt(t, sub, i - lo)
  {
    OccursInSlice(s, lo, lo + |t|, sub, i);
  }

  /** An occurrence starts and ends with the separator's first and last characters. */
  lemma OccurrenceEnds(s: string, sep: string, i: nat)
    requires sep != [] && OccursAt(s, sep, i)
    ensures s[i] == sep[0] && s[i + |sep| - 1] == sep[|sep| - 1]
  {
    assert s[i..i + |sep|][0] == s[i];
    assert s[i..i + |sep|][|sep| - 1] == s[i + |sep| - 1];
  }

  /** The stripped text is the slice after the leading whitespace. */
  lemma StripSlice(s: string)
    ensures LeadingSpaces(s) + |Strip(s)| <= |s|
    ensures Strip(s) == s[LeadingSpaces(s)..LeadingSpaces(s) + |Strip(s)|]
  {
    StripOutside(s);
  }

  /** An occurrence that lies inside a slice is an occurrence in that slice. */
  lemma OccursInSlice(s: string, lo: nat, hi: nat, sub: string, i: nat)
    requires lo <= i && i + |sub| <= hi <= |s| && OccursAt(s, sub, i)
    ensures OccursAt(s[lo..hi], sub, i - lo)
  {
    SliceOfSlice(s, lo, hi, i - lo, i - lo + |sub|);
  }

  /** An occurrence in a slice is an occurrence in the whole text. */
  lemma ContainsSlice(s: string, lo: nat, hi: nat, sub: string)
    requires lo <= hi <= |s|
    ensures Contains(s[lo..hi], sub) ==> Contains(s, sub)
  {
    if Contains(s[lo..hi], sub) {
      var k: nat :| k <= |s[lo..hi]| && OccursAt(s[lo..hi], sub, k);
      SliceOfSlice(s, lo, hi, k, k + |sub|);
      assert OccursAt(s, sub, lo + k);
    }
  }

  /** `strip()` only removes characters, so it creates no occurrence. */
  lemma StripContains(s: string, sub: string)
    ensures Contains(Strip(s), sub) ==> Contains(s, sub)
  {
    var a, b := StripShape(s);
    ContainsSlice(s, a, |s| - b, sub);
  }

  /** Whatever a piece contains, the joined text contains. */
  lemma {:induction false} JoinContains(parts: seq<string>, sep: string, k: nat, sub: string)
    requires k < |parts|
    ensures Contains(parts[k], sub) ==> Contains(Join(parts, sep), sub)
    decreases k
  {
    if |parts| > 1 {
      var j := Join(parts, sep);
      var tail := Join(parts[1..], sep);
      assert j == parts[0] + sep + tail;
      if k == 0 {
        assert j[0..|parts[0]|] == parts[0];
        ContainsSlice(j, 0, |parts[0]|, sub);
      } else {
        var n := |parts[0]| + |sep|;
        JoinContains(parts[1..], sep, k - 1, sub);
        assert j[n..|j|] == tail;
        ContainsSlice(j, n, |j|, sub);
      }
    }
  }

  /** Whatever a piece of a split contains, the text contains. */
  lemma SplitPieceContains(s: string, sep: string, k: nat, sub: string)
    requires sep != [] && k < |Split(s, sep)|
    ensures Contains(Split(s, sep)[k], sub) ==> Contains(s, sub)
  {
    JoinSplit(s, sep);
    JoinContains(Split(s, sep), sep, k, sub);
  }

  /** Two occurrences of the separator that do not overlap cut the text into at least three pieces. */
  lemma {:induction false} SplitTwoOccurrences(s: string, sep: string, i: nat, j: nat)
    requires sep != [] && OccursAt(s, sep, i) && OccursAt(s, sep, j) && i + |sep| <= j
    ensures |Split(s, sep)| >= 3
    decreases |s|
  {
    if s[..|sep|] == sep {
      var rest := s[|sep|..];
      OccursInSlice(s, |sep|, |s|, sep, j);
      assert OccursAt(rest, sep, j - |sep|);
      SplitSingleIff(rest, sep);
    } else {
      assert i != 0;
      OccursAtShift(s, sep, i);
      OccursAtShift(s, sep, j);
      SplitTwoOccurrences(s[1..], sep, i - 1, j - 1);
    }
  }

  /** A non-whitespace character lies inside what `strip()` keeps. */
  lemma KeptByStrip(s: string, i: nat)
    requires i < |s| && !IsSpace(s[i])
    ensures LeadingSpaces(s) <= i < LeadingSpaces(s) + |Strip(s)|
  {
    StripOutside(s);
  }

  /** A slice of a slice is a slice of the whole. */
  lemma SliceOfSlice<T>(s: seq<T>, lo: nat, hi: nat, i: nat, j: nat)
    requires lo <= hi <= |s| && i <= j <= hi - lo
    ensures s[lo..hi][i..j] == s[lo + i..lo + j]
  {
    var x, y := s[lo..hi][i..j], s[lo + i..lo + j];
    assert |x| == |y|;
    forall k | 0 <= k < |x| ensures x[k] == y[k] {
      assert x[k] == s[lo..hi][i + k] == s[lo + i + k];
    }
  }

  /** A text whose first separator character never appears is a single piece. */
  lemma SplitWithoutSep(s: string, sep: string)
    requires sep != [] && sep[0] !in s
    ensures Split(s, sep) == [s]
  {
    forall i: nat | i + |sep| <= |s| ensures !OccursAt(s, sep, i) {
      assert s[i..i + |sep|][0] == s[i];
    }
    SplitSingleIff(s, sep);
    JoinSplit(s, sep);
  }

  /**
   * When the first separator character does not appear before the first
   * separator, the split cuts there first.
   */
  lemma {:induction false} SplitAtFirst(a: string, sep: string, b: string)
    requires sep != [] && sep[0] !in a
    ensures Split(a + sep + b, sep) == [a] + Split(b, sep)
    decreases |a|
  {
    var s := a + sep + b;
    if a == [] {
      assert s == sep + b;
      assert s[..|sep|] == sep && s[|sep|..] == b;
    } else {
      assert s[0] == a[0] && a[0] != sep[0];
      assert s[..|sep|][0] == s[0];
      assert s[..|sep|] != sep;
      assert s[1..] == a[1..] + sep + b;
      SplitAtFirst(a[1..], sep, b);
      var rest := Split(s[1..], sep);
      assert rest == [a[1..]] + Split(b, sep);
      assert Split(s, sep) == [[s[0]] + rest[0]] + rest[1..];
      assert [s[0]] + rest[0] == a;
      assert rest[1..] == Split(b, sep);
    }
  }

  /** Stripping whitespace padding around a stripped, non-empty text recovers the text. */
  lemma StripPadded(pre: string, t: string, post: string)
    requires forall i :: 0 <= i < |pre| ==> IsSpace(pre[i])
    requires forall i :: 0 <= i < |post| ==> IsSpace(post[i])
    requires t != [] && IsStripped(t)
    ensures LeadingSpaces(pre + t + post) == |pre|
    ensures Strip(pre + t + post) == t
  {
    var s := pre + t + post;
    PaddedLeadingSpaces(pre, t, post);
    forall i | |pre| + |t| <= i < |s| ensures IsSpace(s[i]) {
      assert s[i] == post[i - |pre| - |t|];
    }
    assert s[|pre| + |t| - 1] == t[|t| - 1];
    StripAt(s, |pre|, |t|);
    assert s[|pre|..|pre| + |t|] == t;
  }

  /** The leading whitespace of a padded text is the padding in front. */
  lemma PaddedLeadingSpaces(pre: string, t: string, post: string)
    requires forall i :: 0 <= i < |pre| ==> IsSpace(pre[i])
    requires t != [] && !IsSpace(t[0])
    ensures LeadingSpaces(pre + t + post) == |pre|
  {
    var s := pre + t + post;
    forall i | 0 <= i < |pre| ensures IsSpace(s[i]) {
      assert s[i] == pre[i];
    }
    assert s[|pre|] == t[0];
    LeadingSpacesAt(s, |pre|);
  }

  /** The leading whitespace of `s` ends at its first non-whitespace character. */
  lemma LeadingSpacesAt(s: string, k: nat)
    requires k < |s| && !IsSpace(s[k])
    requires forall i :: 0 <= i < k ==> IsSpace(s[i])
    ensures LeadingSpaces(s) == k
  {
    LeadingSpacesSpec(s);
  }

  /**
   * When the text after the leading whitespace ends, at position `k + m`, in
   * a non-whitespace character followed by whitespace only, that is what
   * stripping keeps.
   */
  lemma StripAt(s: string, k: nat, m: nat)
    requires LeadingSpaces(s) == k && 1 <= m && k + m <= |s|
    requires !IsSpace(s[k + m - 1])
    requires forall i :: k + m <= i < |s| ==> IsSpace(s[i])
    ensures Strip(s) == s[k..k + m]
  {
    var r := Strip(s);
    StripSpec(s);
    assert r != [] ==> r[|r| - 1] == s[k + |r| - 1];
    assert |r| == m;
  }

  /** Every character of `s` is whitespace. */
  predicate AllSpace(s: string)
  {
    forall i :: 0 <= i < |s| ==> IsSpace(s[i])
  }

  /** No character of `s` is whitespace (true of both separators). */
  predicate NoSpace(s: string)
  {
    forall i :: 0 <= i < |s| ==> !IsSpace(s[i])
  }

  /** A text made only of whitespace strips to nothing. */
  lemma StripAllSpace(s: string)
    requires AllSpace(s)
    ensures Strip(s) == []
  {
    LeadingSpacesSpec(s);
  }

  /** Every text is its stripped form with whitespace padding on both sides. */
  lemma StripDecompose(s: string) returns (pre: string, post: string)
    ensures AllSpace(pre) && AllSpace(post)
    ensures s == pre + Strip(s) + post
  {
    var a, b := StripShape(s);
    var t := s[a..];
    pre, post := s[..a], t[|t| - b..];
    assert s == pre + t && t == t[..|t| - b] + post;
    assert t[..|t| - b] == Strip(s);
    LeadingSpacesSpec(s);
    TrailingSpacesSpec(t);
    forall i | 0 <= i < |pre| ensures IsSpace(pre[i]) {
      assert pre[i] == s[i];
    }
    forall i | 0 <= i < |post| ensures IsSpace(post[i]) {
      assert post[i] == t[|t| - b + i];
    }
  }

  /** Adding whitespace padding does not change what a text strips to. */
  lemma StripIgnoresPadding(pre: string, s: string, post: string)
    requires AllSpace(pre) && AllSpace(post)
    ensures Strip(pre + s + post) == Strip(s)
  {
    var a, b := StripDecompose(s);
    var r := Strip(s);
    StripSpec(s);
    if r == [] {
      assert pre + s + post == pre + a + b + post;
      StripAllSpace(pre + s + post);
    } else {
      assert pre + s + post == (pre + a) + r + (b + post);
      StripPadded(pre + a, r, b + post);
    }
  }

  /** Whitespace in front of a stripped text is stripped away. */
  lemma StripLeadingPadding(pre: string, t: string)
    requires AllSpace(pre) && IsStripped(t)
    ensures Strip(pre + t) == t
  {
    StripIgnoresPadding(pre, t, []);
    assert pre + t + [] == pre + t;
    StripStripped(t);
  }

  /** Whitespace after a stripped text is stripped away. */
  lemma StripTrailingPadding(t: string, post: string)
    requires IsStripped(t) && AllSpace(post)
    ensures Strip(t + post) == t
  {
    StripIgnoresPadding([], t, post);
    assert [] + t + post == t + post;
    StripStripped(t);
  }

  /** A character that is in no piece and not in the separator is not in the joined text. */
  lemma {:induction false} NotInJoin(c: char, parts: seq<string>, sep: string)
    requires c !in sep
    requires forall k :: 0 <= k < |parts| ==> c !in parts[k]
    ensures c !in Join(parts, sep)
  {
    if |parts| > 1 {
      NotInJoin(c, parts[1..], sep);
    }
  }

  /**
   * Splitting inverts joining when the separator's first character occurs in
   * no piece: the other half of the split/join round trip.
   */
  lemma {:induction false} SplitJoin(parts: seq<string>, sep: string)
    requires sep != [] && parts != []
    requires forall k :: 0 <= k < |parts| ==> sep[0] !in parts[k]
    ensures Split(Join(parts, sep), sep) == parts
  {
    if |parts| == 1 {
      SplitWithoutSep(parts[0], sep);
    } else {
      SplitJoin(parts[1..], sep);
      SplitAtFirst(parts[0], sep, Join(parts[1..], sep));
      assert [parts[0]] + parts[1..] == parts;
    }
  }

  /** `parts` with `pre` put in front of its first piece. */
  function PadFirst(pre: string, parts: seq<string>): (padded: seq<string>)
    requires parts != []
  {
    [pre + parts[0]] + parts[1..]
  }

  /** `parts` with `post` put after its last piece. */
  function PadLast(parts: seq<string>, post: string): (padded: seq<string>)
    requires parts != []
  {
    parts[..|parts| - 1] + [parts[|parts| - 1] + post]
  }

  /** Padding the first piece twice is padding it once with both texts. */
  lemma PadFirstTwice(a: string, b: string, parts: seq<string>)
    requires parts != []
    ensures PadFirst(a, PadFirst(b, parts)) == PadFirst(a + b, parts)
  {
    assert a + (b + parts[0]) == (a + b) + parts[0];
  }

  /** Padding the last piece leaves a piece put in front untouched. */
  lemma PadLastCons(h: string, rest: seq<string>, post: string)
    requires rest != []
    ensures PadLast([h] + rest, post) == [h] + PadLast(rest, post)
  {
    var n := |rest|;
    assert ([h] + rest)[..n] == [h] + rest[..n - 1];
  }

  /** Padding the first piece and padding the last piece commute. */
  lemma PadFirstLast(pre: string, parts: seq<string>, post: string)
    requires parts != []
    ensures PadFirst(pre, PadLast(parts, post)) == PadLast(PadFirst(pre, parts), post)
  {
    var n := |parts|;
    if n == 1 {
      assert pre + (parts[0] + post) == (pre + parts[0]) + post;
    } else {
      assert PadFirst(pre, parts)[..n - 1] == [pre + parts[0]] + parts[1..n - 1];
    }
  }

  /** Whitespace in front of a text only lengthens the first piece of its split. */
  lemma {:induction false} SplitPadLeft(pre: string, s: string, sep: string)
    requires sep != [] && NoSpace(sep) && AllSpace(pre)
    ensures Split(pre + s, sep) == PadFirst(pre, Split(s, sep))
    decreases |pre|
  {
    var parts := Split(s, sep);
    if pre == [] {
      assert pre + s == s && pre + parts[0] == parts[0];
      assert [parts[0]] + parts[1..] == parts;
    } else {
      var t := pre + s;
      SplitPadLeft(pre[1..], s, sep);
      assert t[1..] == pre[1..] + s;
      if |t| < |sep| {
        assert parts == [s];
      } else {
        assert !IsSpace(sep[0]) && IsSpace(pre[0]);
        assert t[..|sep|][0] == pre[0];
        assert Split(t, sep) == PadFirst([t[0]], Split(t[1..], sep));
        PadFirstTwice([t[0]], pre[1..], parts);
        assert [t[0]] + pre[1..] == pre;
      }
    }
  }

  /** A separator free of whitespace cannot reach into trailing whitespace. */
  lemma SepNotInPadding(s: string, post: string, sep: string)
    requires sep != [] && NoSpace(sep) && AllSpace(post) && s != []
    requires |s + post| >= |sep| && (s + post)[..|sep|] == sep
    ensures |s| >= |sep|
  {
    var t := s + post;
    var i := if |s| < |sep| then |s| else 0;
    assert !IsSpace(t[i]) by {
      assert t[i] == t[..|sep|][i];
    }
    assert forall j | |s| <= j < |t| :: IsSpace(t[j]) by {
      forall j | |s| <= j < |t| ensures IsSpace(t[j]) {
        assert t[j] == post[j - |s|];
      }
    }
  }

  /** Whitespace after a text only lengthens the last piece of its split. */
  lemma {:induction false} SplitPadRight(s: string, post: string, sep: string)
    requires sep != [] && NoSpace(sep) && AllSpace(post)
    ensures Split(s + post, sep) == PadLast(Split(s, sep), post)
    decreases |s|
  {
    var t := s + post;
    if s == [] {
      assert t == post;
      assert sep[0] !in post;
      SplitWithoutSep(post, sep);
      assert [] + post == post;
    } else if |t| < |sep| {
    } else if t[..|sep|] == sep {
      SepNotInPadding(s, post, sep);
      assert s[..|sep|] == t[..|sep|];
      assert t[|sep|..] == s[|sep|..] + post;
      SplitPadRight(s[|sep|..], post, sep);
      PadLastCons([], Split(s[|sep|..], sep), post);
    } else {
      assert t[1..] == s[1..] + post;
      var rest := Split(s[1..], sep);
      SplitPadRight(s[1..], post, sep);
      if |s| >= |sep| {
        assert s[..|sep|] == t[..|sep|];
      } else {
        assert rest == [s[1..]];
        assert [s[0]] + s[1..] == s;
      }
      assert Split(s, sep) == PadFirst([s[0]], rest);
      PadFirstLast([s[0]], rest, post);
    }
  }
}
