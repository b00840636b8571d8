/**
 * The Ding dictionary file parser: turns the lines of a dictionary file into
 * (source word, target word) pairs.
 */
module Parser {
  import opened Wrappers
  import opened Seqs
  import opened Text

  /** Separates the source side of an entry line from its target side. */
  const TranslationSeparator: string := "::"
  /** Separates the words of one side of an entry line. */
  const WordSeparator: string := "|"

  /** A (source word, target word) pair as the parser yields it. */
  type Pair = (string, string)

  /** Why an entry line was rejected (Python raises `ValueError` for both). */
  datatype ParseError =
    | WrongSideCount(sides: nat)        // the two-way unpack of the `::` split failed
    | Unbalanced(left: nat, right: nat) // the two sides have different word counts

  /** Both words of a pair are present. */
  predicate BothNonEmpty(p: Pair)
  {
    p.0 != [] && p.1 != []
  }

  /** Neither separator occurs in the word. */
  predicate NoSeparatorIn(w: string)
  {
    !Contains(w, WordSeparator) && !Contains(w, TranslationSeparator)
  }

  /** What every yielded pair looks like: two non-empty, stripped words without separators. */
  predicate ValidPair(p: Pair)
  {
    BothNonEmpty(p) && IsStripped(p.0) && IsStripped(p.1) && NoSeparatorIn(p.0) && NoSeparatorIn(p.1)
  }

  /** Every piece stripped, in order. */
  function StripAll(parts: seq<string>): (stripped: seq<string>)
    ensures |stripped| == |parts|
    ensures forall i :: 0 <= i < |parts| ==> stripped[i] == Strip(parts[i])
  {
    seq(|parts|, i requires 0 <= i < |parts| => Strip(parts[i]))
  }

  /** Every piece `strip()` returns is stripped. */
  lemma StripAllStripped(parts: seq<string>)
    ensures forall i :: 0 <= i < |parts| ==> IsStripped(Strip(parts[i]))
  {
    forall i | 0 <= i < |parts| ensures IsStripped(Strip(parts[i])) {
      StripEnds(parts[i]);
    }
  }

  /** `split_and_strip`: split on `sep` and strip every piece. */
  function SplitAndStrip(s: string, sep: string): (pieces: seq<string>)
    requires sep != []
    ensures |pieces| == |Split(s, sep)|
    ensures forall i :: 0 <= i < |pieces| ==> IsStripped(pieces[i])
  {
    StripAllStripped(Split(s, sep));
    StripAll(Split(s, sep))
  }

  /**
   * Splitting on the one-character word separator gives one stripped piece per
   * separator-delimited segment, i.e. one more than the number of separators,
   * and each piece is the stripped segment.
   */
  lemma SplitAndStripPieces(s: string, c: char)
    ensures |SplitAndStrip(s, [c])| == multiset(s)[c] + 1
    ensures forall i :: 0 <= i < |SplitAndStrip(s, [c])| ==>
              SplitAndStrip(s, [c])[i] == Strip(Split(s, [c])[i]) && IsStripped(SplitAndStrip(s, [c])[i])
  {
    SplitCharCount(s, c);
  }

  /**
   * Whitespace around the whole text does not change the stripped pieces: it
   * only pads the first and the last piece, and stripping removes it again.
   */
  lemma SplitAndStripUnpadded(s: string, sep: string)
    requires sep != [] && NoSpace(sep)
    ensures SplitAndStrip(Strip(s), sep) == SplitAndStrip(s, sep)
  {
    var pre, post := StripDecompose(s);
    var r := Strip(s);
    assert s == pre + (r + post);
    SplitPadLeft(pre, r + post, sep);
    SplitPadRight(r, post, sep);
    StripAllPadFirst(pre, Split(r + post, sep));
    StripAllPadLast(Split(r, sep), post);
  }

  /** Whitespace in front of the first piece is stripped away with it. */
  lemma StripAllPadFirst(pre: string, parts: seq<string>)
    requires AllSpace(pre) && parts != []
    ensures StripAll(PadFirst(pre, parts)) == StripAll(parts)
  {
    var padded := PadFirst(pre, parts);
    forall k | 0 <= k < |parts|
      ensures Strip(padded[k]) == Strip(parts[k])
    {
      if k == 0 {
        assert padded[0] == pre + parts[0] + [];
        StripIgnoresPadding(pre, parts[0], []);
      } else {
        assert padded[k] == parts[k];
      }
    }
  }

  /** Whitespace after the last piece is stripped away with it. */
  lemma StripAllPadLast(parts: seq<string>, post: string)
    requires AllSpace(post) && parts != []
    ensures StripAll(PadLast(parts, post)) == StripAll(parts)
  {
    var n := |parts|;
    var padded := PadLast(parts, post);
    forall k | 0 <= k < n
      ensures Strip(padded[k]) == Strip(parts[k])
    {
      if k == n - 1 {
        assert padded[k] == [] + parts[k] + post;
        StripIgnoresPadding([], parts[k], post);
      } else {
        assert padded[k] == parts[k];
      }
    }
  }

  /**
   * Splitting a joined text on the joining separator and stripping gives the
   * stripped pieces back, provided the separator's first character occurs in
   * no piece.
   */
  lemma SplitAndStripJoin(parts: seq<string>, sep: string)
    requires sep != [] && parts != []
    requires forall k :: 0 <= k < |parts| ==> sep[0] !in parts[k]
    ensures SplitAndStrip(Join(parts, sep), sep) == StripAll(parts)
  {
    SplitJoin(parts, sep);
  }

  /**
   * No piece of `split_and_strip` holds the separator it was split on, nor
   * anything the text itself does not hold.
   */
  lemma SplitAndStripAvoids(s: string, sep: string, other: string)
    requires sep != []
    ensures forall w :: w in SplitAndStrip(s, sep) ==> !Contains(w, sep)
    ensures !Contains(s, other) ==> forall w :: w in SplitAndStrip(s, sep) ==> !Contains(w, other)
  {
    var parts := Split(s, sep);
    SplitPiecesAvoidSep(s, sep);
    forall k | 0 <= k < |parts|
      ensures !Contains(Strip(parts[k]), sep)
      ensures Contains(Strip(parts[k]), other) ==> Contains(s, other)
    {
      StripContains(parts[k], sep);
      StripContains(parts[k], other);
      SplitPieceContains(s, sep, k, other);
    }
  }

  /** The element-wise pairing of two sequences of equal length. */
  function Zip(ls: seq<string>, rs: seq<string>): (pairs: seq<Pair>)
    requires |ls| == |rs|
    ensures |pairs| == |ls|
    ensures forall i :: 0 <= i < |ls| ==> pairs[i] == (ls[i], rs[i])
  {
    if ls == [] then [] else [(ls[0], rs[0])] + Zip(ls[1..], rs[1..])
  }

  /**
   * The generator loop of `parse_entry_line`: pair the words positionally and
   * skip a pair whose source or target word is empty.
   */
  function PairUp(ls: seq<string>, rs: seq<string>): (pairs: seq<Pair>)
    requires |ls| == |rs|
    ensures |pairs| <= |ls|
    ensures forall i :: 0 <= i < |pairs| ==> BothNonEmpty(pairs[i]) && pairs[i].0 in ls && pairs[i].1 in rs
  {
    if ls == [] then []
    else (if ls[0] != [] && rs[0] != [] then [(ls[0], rs[0])] else []) + PairUp(ls[1..], rs[1..])
  }

  /** The pairs are exactly the positional zip minus the pairs with an empty side, in order. */
  lemma {:induction false} PairUpIsFilteredZip(ls: seq<string>, rs: seq<string>)
    requires |ls| == |rs|
    ensures PairUp(ls, rs) == Filter(Zip(ls, rs), BothNonEmpty)
  {
    if ls != [] {
      PairUpIsFilteredZip(ls[1..], rs[1..]);
      assert Zip(ls, rs)[1..] == Zip(ls[1..], rs[1..]);
    }
  }

  /** When no word is empty, every position yields its pair. */
  lemma PairUpAllPresent(ls: seq<string>, rs: seq<string>)
    requires |ls| == |rs|
    requires forall i :: 0 <= i < |ls| ==> ls[i] != [] && rs[i] != []
    ensures PairUp(ls, rs) == Zip(ls, rs)
  {
    PairUpIsFilteredZip(ls, rs);
    FilterKeepsAll(Zip(ls, rs), BothNonEmpty);
  }

  /** `parse_entry_line`: the pairs of one entry line, or the `ValueError` it raises. */
  function ParseEntryLine(line: string): (r: Result<seq<Pair>, ParseError>)
    ensures r.Success? ==> forall i :: 0 <= i < |r.value| ==> ValidPair(r.value[i])
  {
    var sides := SplitAndStrip(Strip(line), TranslationSeparator);
    if |sides| != 2 then Failure(WrongSideCount(|sides|))
    else
      var leftWords := SplitAndStrip(sides[0], WordSeparator);
      var rightWords := SplitAndStrip(sides[1], WordSeparator);
      if |leftWords| != |rightWords| then Failure(Unbalanced(|leftWords|, |rightWords|))
      else
        SplitAndStripAvoids(Strip(line), TranslationSeparator, TranslationSeparator);
        assert sides[0] in sides && sides[1] in sides;
        SplitAndStripAvoids(sides[0], WordSeparator, TranslationSeparator);
        SplitAndStripAvoids(sides[1], WordSeparator, TranslationSeparator);
        Success(PairUp(leftWords, rightWords))
  }

  /** Whitespace around a line does not change how it parses: the line is stripped first. */
  lemma ParseEntryLinePadding(pre: string, line: string, post: string)
    requires AllSpace(pre) && AllSpace(post)
    ensures ParseEntryLine(pre + line + post) == ParseEntryLine(line)
  {
    StripIgnoresPadding(pre, line, post);
  }

  /** The entry line whose sides are the pieces `ls` and `rs`, each joined with `|`. */
  function JoinedLine(ls: seq<string>, rs: seq<string>): string
  {
    Join(ls, WordSeparator) + TranslationSeparator + Join(rs, WordSeparator)
  }

  /** The word holds neither separator character. */
  predicate NoSeparatorChar(w: string)
  {
    forall i :: 0 <= i < |w| ==> w[i] != ':' && w[i] != '|'
  }

  /** No piece contains a character of either separator. */
  predicate SeparatorFree(parts: seq<string>)
  {
    forall k :: 0 <= k < |parts| ==> NoSeparatorChar(parts[k])
  }

  /** A piece free of separator characters contains neither `:` nor `|`. */
  lemma SeparatorFreeNotIn(parts: seq<string>)
    requires SeparatorFree(parts)
    ensures forall k :: 0 <= k < |parts| ==> ':' !in parts[k] && '|' !in parts[k]
  {
    forall k | 0 <= k < |parts| ensures ':' !in parts[k] && '|' !in parts[k] {
      assert NoSeparatorChar(parts[k]);
    }
  }

  /** The line written from two separator-free sides splits at its one `::` into the stripped sides. */
  lemma JoinedLineSides(ls: seq<string>, rs: seq<string>)
    requires ls != [] && rs != []
    requires SeparatorFree(ls) && SeparatorFree(rs)
    ensures Sides(JoinedLine(ls, rs)) == [Strip(Join(ls, WordSeparator)), Strip(Join(rs, WordSeparator))]
  {
    var a, b := Join(ls, WordSeparator), Join(rs, WordSeparator);
    SeparatorFreeNotIn(ls);
    SeparatorFreeNotIn(rs);
    NotInJoin(':', ls, WordSeparator);
    NotInJoin(':', rs, WordSeparator);
    var line := a + TranslationSeparator + b;
    SplitAndStripUnpadded(line, TranslationSeparator);
    SplitAtFirst(a, TranslationSeparator, b);
    SplitWithoutSep(b, TranslationSeparator);
    assert Split(line, TranslationSeparator) == [a, b];
  }

  /**
   * Parsing inverts writing a line: when the words hold no separator
   * character, the line built from them is accepted exactly when both sides
   * have the same number of words, and then yields the stripped words paired
   * positionally, without the pairs with an empty side.
   */
  lemma ParseJoinedLine(ls: seq<string>, rs: seq<string>)
    requires ls != [] && rs != []
    requires SeparatorFree(ls) && SeparatorFree(rs)
    ensures ParseEntryLine(JoinedLine(ls, rs)) ==
      if |ls| == |rs| then Success(PairUp(StripAll(ls), StripAll(rs)))
      else Failure(Unbalanced(|ls|, |rs|))
  {
    var a, b := Join(ls, WordSeparator), Join(rs, WordSeparator);
    JoinedLineSides(ls, rs);
    SeparatorFreeNotIn(ls);
    SeparatorFreeNotIn(rs);
    SplitAndStripUnpadded(a, WordSeparator);
    SplitAndStripUnpadded(b, WordSeparator);
    SplitAndStripJoin(ls, WordSeparator);
    SplitAndStripJoin(rs, WordSeparator);
  }

  /**
   * A written line, padded with whitespace, is an entry line when the first
   * character its first word shows is not `#`.
   */
  lemma JoinedLineIsEntryLine(pre: string, ls: seq<string>, rs: seq<string>, post: string, j: nat)
    requires AllSpace(pre) && ls != []
    requires j < |ls[0]| && !IsSpace(ls[0][j]) && ls[0][j] != '#'
    requires forall i :: 0 <= i < j ==> IsSpace(ls[0][i])
    ensures IsEntryLine(pre + JoinedLine(ls, rs) + post)
  {
    var a := Join(ls, WordSeparator);
    var line := pre + JoinedLine(ls, rs) + post;
    assert a[..|ls[0]|] == ls[0];
    assert line == pre + a + (TranslationSeparator + Join(rs, WordSeparator) + post);
    assert OccursAt(line, TranslationSeparator, |pre| + |a|);
    assert forall i | 0 <= i < |pre| :: line[i] == pre[i];
    assert forall i | |pre| <= i < |pre| + |ls[0]| :: line[i] == ls[0][i - |pre|];
    assert line[|pre| + j] == ls[0][j];
    LeadingSpacesSpec(line);
    var k := LeadingSpaces(line);
    assert k == |pre| + j;
  }

  /** The two sides of a stripped line, as `parse_entry_line` unpacks them. */
  function Sides(line: string): seq<string>
  {
    SplitAndStrip(Strip(line), TranslationSeparator)
  }

  /**
   * A line is accepted exactly when it has two sides with the same number of
   * words, and then its pairs are the positional zip of the words minus the
   * pairs with an empty side.
   */
  lemma ParseEntryLineOutcome(line: string)
    ensures var sides := Sides(line);
      ParseEntryLine(line).Success? <==>
        |sides| == 2 &&
        |SplitAndStrip(sides[0], WordSeparator)| == |SplitAndStrip(sides[1], WordSeparator)|
    ensures var sides := Sides(line);
      ParseEntryLine(line).Success? ==>
        ParseEntryLine(line).value ==
          Filter(Zip(SplitAndStrip(sides[0], WordSeparator), SplitAndStrip(sides[1], WordSeparator)), BothNonEmpty)
  {
    var sides := Sides(line);
    if |sides| == 2 {
      var ls, rs := SplitAndStrip(sides[0], WordSeparator), SplitAndStrip(sides[1], WordSeparator);
      if |ls| == |rs| {
        PairUpIsFilteredZip(ls, rs);
      }
    }
  }

  /** An unbalanced line yields nothing, whatever its words are. */
  lemma UnbalancedLineRejected(line: string)
    requires |Sides(line)| == 2
    requires multiset(Sides(line)[0])['|'] != multiset(Sides(line)[1])['|']
    ensures ParseEntryLine(line).Failure?
    ensures ParseEntryLine(line).error.Unbalanced?
  {
    SplitAndStripPieces(Sides(line)[0], '|');
    SplitAndStripPieces(Sides(line)[1], '|');
  }

  /** `is_comment`: the first non-whitespace character is `#`. */
  predicate IsComment(s: string)
  {
    var t := LStrip(s);
    t != [] && t[0] == '#'
  }

  /** A line is a comment exactly when a `#` is preceded by nothing but whitespace. */
  lemma IsCommentIff(s: string)
    ensures IsComment(s) <==>
      exists i :: 0 <= i < |s| && s[i] == '#' && forall j :: 0 <= j < i ==> IsSpace(s[j])
  {
    var k := LeadingSpaces(s);
    LeadingSpacesSpec(s);
    if exists i :: 0 <= i < |s| && s[i] == '#' && forall j :: 0 <= j < i ==> IsSpace(s[j]) {
      var i :| 0 <= i < |s| && s[i] == '#' && forall j :: 0 <= j < i ==> IsSpace(s[j]);
      assert !IsSpace('#');
      assert k == i;
    }
    if IsComment(s) {
      assert s[k] == '#';
    }
  }

  /** `is_entry_line`: the line contains `::` and is not a comment. */
  predicate IsEntryLine(line: string)
  {
    Contains(line, TranslationSeparator) && !IsComment(line)
  }

  /**
   * A line is an entry line exactly when `::` occurs in it and no `#` is
   * preceded by nothing but whitespace.
   */
  lemma IsEntryLineIff(line: string)
    ensures IsEntryLine(line) <==>
      Contains(line, TranslationSeparator) &&
      !exists i :: 0 <= i < |line| && line[i] == '#' && forall j :: 0 <= j < i ==> IsSpace(line[j])
  {
    IsCommentIff(line);
  }

  /**
   * The `::` of an entry line survives stripping, so an entry line always has
   * at least two sides: the "too few values to unpack" error cannot happen.
   */
  lemma EntryLineHasTwoSides(line: string)
    requires IsEntryLine(line)
    ensures |Sides(line)| >= 2
    ensures ParseEntryLine(line).Failure? && ParseEntryLine(line).error.WrongSideCount? ==>
              ParseEntryLine(line).error.sides > 2
  {
    ContainsSurvivesStrip(line, TranslationSeparator);
    SplitSingleIff(Strip(line), TranslationSeparator);
  }

  /**
   * A line with a second `::` has three sides: it fails the two-way unpack
   * with a `ValueError`, and the stream skips it.
   */
  lemma ThreeSidedLineRejected(a: string, b: string, c: string)
    requires ':' !in a && ':' !in b && ':' !in c
    ensures ParseEntryLine(a + "::" + b + "::" + c) == Failure(WrongSideCount(3))
    ensures LineEntries(a + "::" + b + "::" + c) == []
  {
    var sep := TranslationSeparator;
    var line := a + sep + (b + sep + c);
    assert a + "::" + b + "::" + c == line;
    SplitAndStripUnpadded(line, sep);
    SplitAtFirst(b, sep, c);
    SplitWithoutSep(c, sep);
    SplitAtFirst(a, sep, b + sep + c);
    assert |Split(line, sep)| == 3;
  }

  /**
   * Any line in which `::` occurs twice without overlap has three sides or
   * more: it fails the two-way unpack, and the stream skips it.
   */
  lemma ManySidedLineRejected(line: string, i: nat, j: nat)
    requires OccursAt(line, TranslationSeparator, i) && OccursAt(line, TranslationSeparator, j)
    requires i + |TranslationSeparator| <= j
    ensures |Sides(line)| >= 3
    ensures ParseEntryLine(line) == Failure(WrongSideCount(|Sides(line)|))
    ensures LineEntries(line) == []
  {
    var sep := TranslationSeparator;
    OccursSurvivesStrip(line, sep, i);
    OccursSurvivesStrip(line, sep, j);
    var k := LeadingSpaces(line);
    SplitTwoOccurrences(Strip(line), sep, i - k, j - k);
  }

  /** The pairs one line contributes to the stream: nothing for a skipped or rejected line. */
  function LineEntries(line: string): (pairs: seq<Pair>)
    ensures forall i :: 0 <= i < |pairs| ==> ValidPair(pairs[i])
  {
    if !IsEntryLine(line) then []
    else match ParseEntryLine(line)
      case Success(ps) => ps
      case Failure(_) => []
  }

  /**
   * `load_entries`: the entry lines' pairs, in file order; a line that fails
   * to parse is skipped and the stream goes on with the next line.
   */
  function LoadEntries(lines: seq<string>): (entries: seq<Pair>)
    ensures forall i :: 0 <= i < |entries| ==> ValidPair(entries[i])
  {
    if lines == [] then [] else LineEntries(lines[0]) + LoadEntries(lines[1..])
  }

  /** Loading a file in two parts gives the two parts' pairs, one after the other. */
  lemma {:induction false} LoadEntriesAppend(a: seq<string>, b: seq<string>)
    ensures LoadEntries(a + b) == LoadEntries(a) + LoadEntries(b)
  {
    if a == [] {
      assert a + b == b;
    } else {
      assert (a + b)[1..] == a[1..] + b;
      LoadEntriesAppend(a[1..], b);
    }
  }

  /**
   * A comment line, a line without `::` and a line that fails to parse add
   * nothing: the stream continues with the next line.
   */
  lemma LoadEntriesSkipsLine(line: string, rest: seq<string>)
    requires IsComment(line) || !Contains(line, TranslationSeparator) || ParseEntryLine(line).Failure?
    ensures LoadEntries([line] + rest) == LoadEntries(rest)
  {
    assert ([line] + rest)[1..] == rest;
  }

  /** `load_entries` yields, in file order, what every line contributes on its own. */
  lemma {:induction false} LoadEntriesByLine(lines: seq<string>, perLine: seq<seq<Pair>>)
    requires |lines| == |perLine|
    requires forall k :: 0 <= k < |lines| ==> LineEntries(lines[k]) == perLine[k]
    ensures LoadEntries(lines) == Flatten(perLine)
  {
    if lines != [] {
      LoadEntriesByLine(lines[1..], perLine[1..]);
    }
  }
}
