/**
 * The entry lines of the parser's test fixture, worked through the model.
 * Each line is written as the words of its two sides, joined with `|` and
 * `::` and indented by four spaces, as in the fixture file.
 */
module ParserExamples {
  import opened Wrappers
  import opened Text
  import opened Parser

  /** The indentation of every fixture line. */
  const Indent: string := "    "
  /** The end of every fixture line. */
  const Newline: string := "\n"

  /** Two source words against one target word: the whole line is rejected. */
  lemma ElefantLineRejected(ls: seq<string>, rs: seq<string>)
    requires ls == ["Elefant {m} ", " Giraffe {f} "] && rs == [" monkey"]
    ensures ParseEntryLine(Indent + JoinedLine(ls, rs) + Newline) == Failure(Unbalanced(2, 1))
  {
    ParseJoinedLine(ls, rs);
    ParseEntryLinePadding(Indent, JoinedLine(ls, rs), Newline);
  }

  /** The rejected line is an entry line, and the stream skips it. */
  lemma ElefantLineSkipped(ls: seq<string>, rs: seq<string>)
    requires ls == ["Elefant {m} ", " Giraffe {f} "] && rs == [" monkey"]
    ensures IsEntryLine(Indent + JoinedLine(ls, rs) + Newline)
    ensures LineEntries(Indent + JoinedLine(ls, rs) + Newline) == []
  {
    ElefantLineRejected(ls, rs);
    JoinedLineIsEntryLine(Indent, ls, rs, Newline, 0);
  }

  /** The indentation and the line end are whitespace. */
  lemma PaddingIsSpace()
    ensures AllSpace(Indent) && AllSpace(Newline) && AllSpace(" ")
  {
  }

  /** A piece padded with spaces holds no separator character when the piece holds none. */
  lemma PaddedSeparatorFree(pre: string, w: string, post: string)
    requires AllSpace(pre) && AllSpace(post) && NoSeparatorChar(w)
    ensures NoSeparatorChar(pre + w + post)
  {
    var p := pre + w + post;
    assert !IsSpace(':') && !IsSpace('|');
    forall i | 0 <= i < |p| ensures p[i] != ':' && p[i] != '|' {
      if i < |pre| {
        assert p[i] == pre[i];
      } else if i < |pre| + |w| {
        assert p[i] == w[i - |pre|];
      } else {
        assert p[i] == post[i - |pre| - |w|];
      }
    }
  }

  /** Stripping a two-piece list strips each piece. */
  lemma StripAllPair(a: string, b: string, x: string, y: string)
    requires Strip(a) == x && Strip(b) == y
    ensures StripAll([a, b]) == [x, y]
  {
  }

  /** The padded pieces of a one-word fixture line hold no separator character. */
  lemma OneWordSeparatorFree(s1: string, t1: string)
    requires SeparatorFree([s1]) && SeparatorFree([t1])
    ensures SeparatorFree([s1 + " "]) && SeparatorFree([" " + t1])
  {
    PaddingIsSpace();
    assert [s1][0] == s1 && [t1][0] == t1;
    PaddedSeparatorFree([], s1, " ");
    PaddedSeparatorFree(" ", t1, []);
    assert [] + s1 + " " == s1 + " " && " " + t1 + [] == " " + t1;
  }

  /** The padded pieces of a one-word fixture line strip to the words. */
  lemma OneWordStripped(s1: string, t1: string)
    requires IsStripped(s1) && IsStripped(t1)
    ensures StripAll([s1 + " "]) == [s1] && StripAll([" " + t1]) == [t1]
  {
    PaddingIsSpace();
    StripTrailingPadding(s1, " ");
    StripLeadingPadding(" ", t1);
  }

  /** A fixture line with one word a side parses to the stripped words. */
  lemma OneWordLine(s1: string, t1: string)
    requires IsStripped(s1) && IsStripped(t1)
    requires SeparatorFree([s1]) && SeparatorFree([t1])
    ensures ParseEntryLine(Indent + JoinedLine([s1 + " "], [" " + t1]) + Newline) == Success(PairUp([s1], [t1]))
  {
    OneWordSeparatorFree(s1, t1);
    OneWordStripped(s1, t1);
    ParseJoinedLine([s1 + " "], [" " + t1]);
    PaddingIsSpace();
    ParseEntryLinePadding(Indent, JoinedLine([s1 + " "], [" " + t1]), Newline);
  }

  /** The padded pieces of a two-word fixture line hold no separator character. */
  lemma TwoWordSeparatorFree(s1: string, s2: string, t1: string, t2: string)
    requires SeparatorFree([s1, s2]) && SeparatorFree([t1, t2])
    ensures SeparatorFree([s1 + " ", " " + s2 + " "]) && SeparatorFree([" " + t1 + " ", " " + t2])
  {
    PaddingIsSpace();
    assert [s1, s2][0] == s1 && [s1, s2][1] == s2 && [t1, t2][0] == t1 && [t1, t2][1] == t2;
    PaddedSeparatorFree([], s1, " ");
    PaddedSeparatorFree(" ", s2, " ");
    PaddedSeparatorFree(" ", t1, " ");
    PaddedSeparatorFree(" ", t2, []);
    assert [] + s1 + " " == s1 + " " && " " + t2 + [] == " " + t2;
  }

  /** The padded pieces of a two-word fixture line strip to the words. */
  lemma TwoWordStripped(s1: string, s2: string, t1: string, t2: string)
    requires IsStripped(s1) && IsStripped(s2) && IsStripped(t1) && IsStripped(t2)
    ensures StripAll([s1 + " ", " " + s2 + " "]) == [s1, s2]
    ensures StripAll([" " + t1 + " ", " " + t2]) == [t1, t2]
  {
    PaddingIsSpace();
    StripTrailingPadding(s1, " ");
    StripIgnoresPadding(" ", s2, " ");
    StripStripped(s2);
    StripIgnoresPadding(" ", t1, " ");
    StripStripped(t1);
    StripLeadingPadding(" ", t2);
    StripAllPair(s1 + " ", " " + s2 + " ", s1, s2);
    StripAllPair(" " + t1 + " ", " " + t2, t1, t2);
  }

  /** A fixture line with two words a side parses to the stripped words, paired up. */
  lemma TwoWordLine(s1: string, s2: string, t1: string, t2: string)
    requires IsStripped(s1) && IsStripped(s2) && IsStripped(t1) && IsStripped(t2)
    requires SeparatorFree([s1, s2]) && SeparatorFree([t1, t2])
    ensures ParseEntryLine(Indent + JoinedLine([s1 + " ", " " + s2 + " "], [" " + t1 + " ", " " + t2]) + Newline) ==
      Success(PairUp([s1, s2], [t1, t2]))
  {
    var ls, rs := [s1 + " ", " " + s2 + " "], [" " + t1 + " ", " " + t2];
    TwoWordSeparatorFree(s1, s2, t1, t2);
    TwoWordStripped(s1, s2, t1, t2);
    ParseJoinedLine(ls, rs);
    PaddingIsSpace();
    ParseEntryLinePadding(Indent, JoinedLine(ls, rs), Newline);
  }

  /** Two pairs with both words present are both kept, in order. */
  lemma PairUpTwo(s1: string, s2: string, t1: string, t2: string)
    requires s1 != [] && s2 != [] && t1 != [] && t2 != []
    ensures PairUp([s1, s2], [t1, t2]) == [(s1, t1), (s2, t2)]
  {
    assert [s1, s2][1..] == [s2] && [t1, t2][1..] == [t2];
    assert PairUp([s2], [t2]) == [(s2, t2)];
  }

  /** A first pair with an empty target word is dropped. */
  lemma PairUpDropFirst(s1: string, s2: string, t2: string)
    requires s2 != [] && t2 != []
    ensures PairUp([s1, s2], ["", t2]) == [(s2, t2)]
  {
    assert [s1, s2][1..] == [s2] && ["", t2][1..] == [t2];
    assert PairUp([s2], [t2]) == [(s2, t2)];
  }

  /** A balanced line of two words a side yields both pairs, stripped, in order. */
  lemma ChiasmaLineParsed(s1: string, s2: string, t1: string, t2: string)
    requires s1 == "Chiasma {n} [biol.]" && s2 == "Chiasmata {pl}"
    requires t1 == "chiasma; chiasm" && t2 == "chiasmata"
    ensures ParseEntryLine(Indent + JoinedLine([s1 + " ", " " + s2 + " "], [" " + t1 + " ", " " + t2]) + Newline) ==
      Success([(s1, t1), (s2, t2)])
  {
    TwoWordLine(s1, s2, t1, t2);
    PairUpTwo(s1, s2, t1, t2);
  }

  /**
   * A pair whose target word is blank is dropped; the other pair of the line
   * survives.
   */
  lemma GeratewohlLineParsed(s1: string, s2: string, t2: string)
    requires s1 == "Geratewohl {n}" && s2 == "aufs Geratewohl" && t2 == "at haphazard; by haphazard"
    ensures ParseEntryLine(Indent + JoinedLine([s1 + " ", " " + s2 + " "], [" " + "" + " ", " " + t2]) + Newline) ==
      Success([(s2, t2)])
  {
    TwoWordLine(s1, s2, "", t2);
    PairUpDropFirst(s1, s2, t2);
  }

  /** A single-word line yields its one pair. */
  lemma WoerterbuchLineParsed(s1: string, t1: string)
    requires s1 == "Wörterbuch" && t1 == "dictionary"
    ensures ParseEntryLine(Indent + JoinedLine([s1 + " "], [" " + t1]) + Newline) == Success([(s1, t1)])
  {
    OneWordLine(s1, t1);
    assert PairUp([s1], [t1]) == [(s1, t1)];
  }

  /** The words of the `Etage` line are stripped and free of separator characters. */
  lemma EtageWords(s1: string, t1: string)
    requires s1 == "Etage {f}; Stock {m}; Stockwerk {n}" && t1 == "floor /fl./"
    ensures IsStripped(s1) && IsStripped(t1) && SeparatorFree([s1]) && SeparatorFree([t1])
  {
  }

  /** Synonyms separated by `;` stay one word: only `|` separates words. */
  lemma EtageLineParsed(s1: string, t1: string)
    requires s1 == "Etage {f}; Stock {m}; Stockwerk {n}" && t1 == "floor /fl./"
    ensures ParseEntryLine(Indent + JoinedLine([s1 + " "], [" " + t1]) + Newline) == Success([(s1, t1)])
  {
    EtageWords(s1, t1);
    OneWordLine(s1, t1);
    assert PairUp([s1], [t1]) == [(s1, t1)];
  }

  /** A comment line is skipped even when it contains `::`. */
  lemma CommentLineSkipped(body: string)
    ensures IsComment(Indent + "#" + body)
    ensures LineEntries(Indent + "#" + body) == []
  {
    var line := Indent + "#" + body;
    assert line[4] == '#';
    assert forall j :: 0 <= j < 4 ==> IsSpace(line[j]);
    IsCommentIff(line);
  }

  /** A line with no `#` before its first word: the pairs it parses to reach the stream. */
  lemma EntryLineKept(ls: seq<string>, rs: seq<string>, ps: seq<Pair>)
    requires ls != [] && ls[0] != [] && !IsSpace(ls[0][0]) && ls[0][0] != '#'
    requires ParseEntryLine(Indent + JoinedLine(ls, rs) + Newline) == Success(ps)
    ensures LineEntries(Indent + JoinedLine(ls, rs) + Newline) == ps
  {
    PaddingIsSpace();
    JoinedLineIsEntryLine(Indent, ls, rs, Newline, 0);
    var line := Indent + JoinedLine(ls, rs) + Newline;
    assert IsEntryLine(line);
    assert ParseEntryLine(line).Success? && ParseEntryLine(line).value == ps;
  }

  /** A line of whitespace holds no `::` and yields nothing. */
  lemma BlankLineSkipped(line: string)
    requires AllSpace(line)
    ensures LineEntries(line) == []
  {
    forall i: nat | i <= |line| ensures !OccursAt(line, TranslationSeparator, i) {
      if i + 2 <= |line| {
        assert line[i..i + 2][0] == line[i];
      }
    }
  }

  /** The fixture's first line, a comment with no indentation. */
  lemma HeaderLineSkipped(body: string)
    ensures LineEntries("#" + body) == []
  {
    var line := "#" + body;
    assert line[0] == '#';
    IsCommentIff(line);
  }

  /** Indented comment lines, one per body. */
  function CommentLines(bodies: seq<string>): (lines: seq<string>)
    ensures |lines| == |bodies|
  {
    if bodies == [] then [] else [Indent + "#" + bodies[0]] + CommentLines(bodies[1..])
  }

  /** A run of indented comment lines yields nothing. */
  lemma {:induction false} CommentLinesSkipped(bodies: seq<string>)
    ensures LoadEntries(CommentLines(bodies)) == []
  {
    if bodies != [] {
      CommentLineSkipped(bodies[0]);
      CommentLinesSkipped(bodies[1..]);
      LoadEntriesSkipsLine(Indent + "#" + bodies[0], CommentLines(bodies[1..]));
    }
  }

  /**
   * One section of the fixture after the first entry: a blank line, a
   * comment saying what the entry shows, and the entry line.
   */
  function Section(comment: string, line: string): (lines: seq<string>)
    ensures |lines| == 3 && lines[2] == line
  {
    [Newline, Indent + "#" + comment, line]
  }

  /** A section yields what its entry line yields. */
  lemma SectionLoads(comment: string, line: string)
    ensures LoadEntries(Section(comment, line)) == LineEntries(line)
  {
    BlankLineSkipped(Newline);
    CommentLineSkipped(comment);
    var lines := Section(comment, line);
    var c := Indent + "#" + comment;
    assert lines[0] == Newline && lines[1..] == [c, line];
    assert [c, line][0] == c && [c, line][1..] == [line];
    assert LoadEntries(lines) == LineEntries(Newline) + LoadEntries([c, line]);
    assert LoadEntries([c, line]) == LineEntries(c) + LoadEntries([line]);
    assert LoadEntries([line]) == LineEntries(line) + LoadEntries([]);
  }

  /** The fixture's entry lines, built from the words of their two sides. */
  const WoerterbuchLine: string := Indent + JoinedLine(["Wörterbuch" + " "], [" " + "dictionary"]) + Newline
  const EtageLine: string :=
    Indent + JoinedLine(["Etage {f}; Stock {m}; Stockwerk {n}" + " "], [" " + "floor /fl./"]) + Newline
  const ChiasmaLine: string :=
    Indent + JoinedLine(["Chiasma {n} [biol.]" + " ", " " + "Chiasmata {pl}" + " "],
                        [" " + "chiasma; chiasm" + " ", " " + "chiasmata"]) + Newline
  const GeratewohlLine: string :=
    Indent + JoinedLine(["Geratewohl {n}" + " ", " " + "aufs Geratewohl" + " "],
                        [" " + "" + " ", " " + "at haphazard; by haphazard"]) + Newline
  const ElefantLine: string := Indent + JoinedLine(["Elefant {m} ", " Giraffe {f} "], [" monkey"]) + Newline

  /** The `Wörterbuch` line reaches the stream as its one pair. */
  lemma WoerterbuchLineKept()
    ensures LineEntries(WoerterbuchLine) == [("Wörterbuch", "dictionary")]
  {
    WoerterbuchLineParsed("Wörterbuch", "dictionary");
    EntryLineKept(["Wörterbuch" + " "], [" " + "dictionary"], [("Wörterbuch", "dictionary")]);
  }

  /** The `Etage` line reaches the stream as its one pair. */
  lemma EtageLineKept()
    ensures LineEntries(EtageLine) == [("Etage {f}; Stock {m}; Stockwerk {n}", "floor /fl./")]
  {
    EtageLineParsed("Etage {f}; Stock {m}; Stockwerk {n}", "floor /fl./");
    EntryLineKept(["Etage {f}; Stock {m}; Stockwerk {n}" + " "], [" " + "floor /fl./"],
                  [("Etage {f}; Stock {m}; Stockwerk {n}", "floor /fl./")]);
  }

  /** The `Chiasma` line reaches the stream as its two pairs. */
  lemma ChiasmaLineKept()
    ensures LineEntries(ChiasmaLine) == [("Chiasma {n} [biol.]", "chiasma; chiasm"), ("Chiasmata {pl}", "chiasmata")]
  {
    ChiasmaLineParsed("Chiasma {n} [biol.]", "Chiasmata {pl}", "chiasma; chiasm", "chiasmata");
    EntryLineKept(["Chiasma {n} [biol.]" + " ", " " + "Chiasmata {pl}" + " "],
                  [" " + "chiasma; chiasm" + " ", " " + "chiasmata"],
                  [("Chiasma {n} [biol.]", "chiasma; chiasm"), ("Chiasmata {pl}", "chiasmata")]);
  }

  /** Only the complete pair of the `Geratewohl` line reaches the stream. */
  lemma GeratewohlLineKept()
    ensures LineEntries(GeratewohlLine) == [("aufs Geratewohl", "at haphazard; by haphazard")]
  {
    GeratewohlLineParsed("Geratewohl {n}", "aufs Geratewohl", "at haphazard; by haphazard");
    EntryLineKept(["Geratewohl {n}" + " ", " " + "aufs Geratewohl" + " "],
                  [" " + "" + " ", " " + "at haphazard; by haphazard"],
                  [("aufs Geratewohl", "at haphazard; by haphazard")]);
  }

  /** A one-line file yields what its line yields. */
  lemma SingleLineLoads(line: string)
    ensures LoadEntries([line]) == LineEntries(line)
  {
    assert LoadEntries([line]) == LineEntries(line) + LoadEntries([]);
  }

  /** Loading two parts whose pairs are known. */
  lemma AppendLoads(a: seq<string>, b: seq<string>, x: seq<Pair>, y: seq<Pair>)
    requires LoadEntries(a) == x && LoadEntries(b) == y
    ensures LoadEntries(a + b) == x + y
  {
    LoadEntriesAppend(a, b);
  }

  /**
   * A file shaped like the fixture: an unindented comment, indented comments,
   * one entry line, four sections, and a closing indent. It yields what its
   * five entry lines yield, in order.
   */
  lemma FixtureShapeLoads(version: string, comments: seq<string>, e1: string,
                          c2: string, e2: string, c3: string, e3: string,
                          c4: string, e4: string, c5: string, e5: string, last: string)
    requires AllSpace(last)
    ensures LoadEntries(["#" + version] + CommentLines(comments) + [e1] +
                        Section(c2, e2) + Section(c3, e3) + Section(c4, e4) + Section(c5, e5) + [last]) ==
            LineEntries(e1) + LineEntries(e2) + LineEntries(e3) + LineEntries(e4) + LineEntries(e5)
  {
    var head := ["#" + version] + CommentLines(comments);
    HeaderLineSkipped(version);
    CommentLinesSkipped(comments);
    LoadEntriesSkipsLine("#" + version, CommentLines(comments));
    var l1 := head + [e1];
    SingleLineLoads(e1);
    AppendLoads(head, [e1], [], LineEntries(e1));
    var l2 := l1 + Section(c2, e2);
    SectionLoads(c2, e2);
    AppendLoads(l1, Section(c2, e2), [] + LineEntries(e1), LineEntries(e2));
    var l3 := l2 + Section(c3, e3);
    SectionLoads(c3, e3);
    AppendLoads(l2, Section(c3, e3), [] + LineEntries(e1) + LineEntries(e2), LineEntries(e3));
    var l4 := l3 + Section(c4, e4);
    SectionLoads(c4, e4);
    AppendLoads(l3, Section(c4, e4), [] + LineEntries(e1) + LineEntries(e2) + LineEntries(e3), LineEntries(e4));
    var l5 := l4 + Section(c5, e5);
    SectionLoads(c5, e5);
    AppendLoads(l4, Section(c5, e5), [] + LineEntries(e1) + LineEntries(e2) + LineEntries(e3) + LineEntries(e4),
                LineEntries(e5));
    SingleLineLoads(last);
    BlankLineSkipped(last);
    AppendLoads(l5, [last],
                [] + LineEntries(e1) + LineEntries(e2) + LineEntries(e3) + LineEntries(e4) + LineEntries(e5), []);
    assert [] + LineEntries(e1) == LineEntries(e1);
  }

  /** The fixture file, line by line, as a text stream yields it. */
  const FixtureLines: seq<string> :=
    ["#" + " Version :: devel 2020-08-27\n"] +
    CommentLines([
      " Copyright (c) :: Frank Richter <frank.richter.tu-chemnitz.de>,\n",
      " 1995 - 2020\n",
      " License :: GPL Version 2 or later; GNU General Public License\n",
      " URL :: http://dict.tu-chemnitz.de/\n",
      " Simple word\n"
    ]) +
    [WoerterbuchLine] +
    Section(" Word with synonyms\n", EtageLine) +
    Section(" Multiple words\n", ChiasmaLine) +
    Section(" Multiple words (missing translation)\n", GeratewohlLine) +
    Section(" Multiple words (unbalanced)\n", ElefantLine) +
    [Indent]

  /** The first two entry lines of the fixture yield one pair each. */
  lemma FirstFixtureEntries()
    ensures LineEntries(WoerterbuchLine) + LineEntries(EtageLine) == [
      ("Wörterbuch", "dictionary"),
      ("Etage {f}; Stock {m}; Stockwerk {n}", "floor /fl./")
    ]
  {
    WoerterbuchLineKept();
    EtageLineKept();
  }

  /** The last three entry lines of the fixture yield three pairs between them. */
  lemma LaterFixtureEntries()
    ensures LineEntries(ChiasmaLine) + LineEntries(GeratewohlLine) + LineEntries(ElefantLine) == [
      ("Chiasma {n} [biol.]", "chiasma; chiasm"),
      ("Chiasmata {pl}", "chiasmata"),
      ("aufs Geratewohl", "at haphazard; by haphazard")
    ]
  {
    ChiasmaLineKept();
    GeratewohlLineKept();
    ElefantLineSkipped(["Elefant {m} ", " Giraffe {f} "], [" monkey"]);
  }

  /** Five lists concatenated, grouped two and three. */
  lemma Regroup(x1: seq<Pair>, x2: seq<Pair>, x3: seq<Pair>, x4: seq<Pair>, x5: seq<Pair>)
    ensures x1 + x2 + x3 + x4 + x5 == (x1 + x2) + (x3 + x4 + x5)
  {
  }

  /** The fixture yields what its five entry lines yield, in order. */
  lemma FixtureLoadsEntryLines(lines: seq<string>)
    requires lines == FixtureLines
    ensures LoadEntries(lines) ==
      (LineEntries(WoerterbuchLine) + LineEntries(EtageLine)) +
      (LineEntries(ChiasmaLine) + LineEntries(GeratewohlLine) + LineEntries(ElefantLine))
  {
    FixtureShapeLoads(
      " Version :: devel 2020-08-27\n",
      [
        " Copyright (c) :: Frank Richter <frank.richter.tu-chemnitz.de>,\n",
        " 1995 - 2020\n",
        " License :: GPL Version 2 or later; GNU General Public License\n",
        " URL :: http://dict.tu-chemnitz.de/\n",
        " Simple word\n"
      ],
      WoerterbuchLine,
      " Word with synonyms\n", EtageLine,
      " Multiple words\n", ChiasmaLine,
      " Multiple words (missing translation)\n", GeratewohlLine,
      " Multiple words (unbalanced)\n", ElefantLine, Indent);
    PaddingIsSpace();
    Regroup(LineEntries(WoerterbuchLine), LineEntries(EtageLine), LineEntries(ChiasmaLine),
            LineEntries(GeratewohlLine), LineEntries(ElefantLine));
  }

  /** Between them, the fixture's entry lines yield the five expected pairs. */
  lemma FixtureEntryLines()
    ensures (LineEntries(WoerterbuchLine) + LineEntries(EtageLine)) +
            (LineEntries(ChiasmaLine) + LineEntries(GeratewohlLine) + LineEntries(ElefantLine)) == [
      ("Wörterbuch", "dictionary"),
      ("Etage {f}; Stock {m}; Stockwerk {n}", "floor /fl./"),
      ("Chiasma {n} [biol.]", "chiasma; chiasm"),
      ("Chiasmata {pl}", "chiasmata"),
      ("aufs Geratewohl", "at haphazard; by haphazard")
    ]
  {
    FirstFixtureEntries();
    LaterFixtureEntries();
    FixturePairsJoin(LineEntries(WoerterbuchLine) + LineEntries(EtageLine),
                     LineEntries(ChiasmaLine) + LineEntries(GeratewohlLine) + LineEntries(ElefantLine));
  }

  /** The two groups of pairs, joined. */
  lemma FixturePairsJoin(a: seq<Pair>, b: seq<Pair>)
    requires a == [("Wörterbuch", "dictionary"), ("Etage {f}; Stock {m}; Stockwerk {n}", "floor /fl./")]
    requires b == [("Chiasma {n} [biol.]", "chiasma; chiasm"), ("Chiasmata {pl}", "chiasmata"),
                   ("aufs Geratewohl", "at haphazard; by haphazard")]
    ensures a + b == [
      ("Wörterbuch", "dictionary"),
      ("Etage {f}; Stock {m}; Stockwerk {n}", "floor /fl./"),
      ("Chiasma {n} [biol.]", "chiasma; chiasm"),
      ("Chiasmata {pl}", "chiasmata"),
      ("aufs Geratewohl", "at haphazard; by haphazard")
    ]
  {
  }

  /**
   * The whole fixture loads to the five pairs the parser test expects, in
   * order: the header is skipped though it contains `::`, and so are the
   * blank-target pair and the unbalanced line.
   */
  lemma FixtureLoaded(lines: seq<string>)
    requires lines == FixtureLines
    ensures LoadEntries(lines) == [
      ("Wörterbuch", "dictionary"),
      ("Etage {f}; Stock {m}; Stockwerk {n}", "floor /fl./"),
      ("Chiasma {n} [biol.]", "chiasma; chiasm"),
      ("Chiasmata {pl}", "chiasmata"),
      ("aufs Geratewohl", "at haphazard; by haphazard")
    ]
  {
    FixtureLoadsEntryLines(lines);
    FixtureEntryLines();
  }
}
