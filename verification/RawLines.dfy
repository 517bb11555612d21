/**
 Entry lines as the server may really print them: any name, any attribute word. Exactly
 which of them the listing parser reads as what they are.
 */
module RawLines {
  import opened Listing
  import opened Texts

  /** `rest` is everything after the attribute word: nothing, or white space and columns. */
  datatype RawEntry = RawEntry(indent: string, name: string, gap: string, attributes: string, rest: string) {
    predicate Valid() {
      && AllWhite(indent) && AllWhite(gap) && gap != "" && IsToken(attributes)
      && (rest == "" || IsWhite(rest[0]))
    }

    function Text(): string { indent + (name + (gap + (attributes + rest))) }
  }

  predicate StartsLikeMeta(name: string) {
    StartsWith(name, "blocks of size") || StartsWith(name, "WARNING:")
  }

  predicate HasFlagWord(name: string) { exists w <- SplitWhitespace(name) :: w in FLAGS }

  /** Words separated by single spaces and nothing around them. */
  predicate SingleSpaced(name: string) { Joined(SplitWhitespace(name)) == name }

  // ---- what the words of an entry line are ----

  lemma WordsOfEntry(e: RawEntry)
    requires e.Valid()
    ensures SplitWhitespace(Trim(e.Text()))
            == SplitWhitespace(e.name) + ([e.attributes] + SplitWhitespace(e.rest))
  {
    WordsOfTrimmed(e.Text());
    var columns := e.attributes + e.rest;
    if e.indent == "" {
      assert e.Text() == e.name + (e.gap + columns);
    } else {
      WordsOfGap(e.indent, e.name + (e.gap + columns), "");
    }
    WordsAtGap(e.name, e.gap, columns, "");
    WordsOfToken(e.attributes, e.rest, "");
    assert "" + e.attributes == e.attributes;
    WordsAfterWord(e.rest, e.attributes);
  }

  lemma WordsAfterWord(rest: string, word: string)
    requires word != "" && (rest == "" || IsWhite(rest[0]))
    ensures Words(rest, word) == [word] + Words(rest, "")
  {
  }

  /** The trimmed line of an entry with a tight name. */
  lemma TrimmedEntry(e: RawEntry) returns (date: string)
    requires e.Valid() && Tight(e.name)
    ensures Trim(e.Text()) == e.name + (e.gap + (e.attributes + date))
  {
    TrimRightSplits(e.rest);
    date := TrimRight(e.rest);
    var trail := e.rest[|date|..];
    assert e.rest == date + trail;
    assert date == "" || !IsWhite(date[|date| - 1]);
    var columns := e.attributes + date;
    TightColumns(e.attributes, date);
    hide TrimRight, Trim, RawEntry.Text;
    EntryParts(e, date, trail);
    TightEnd(e.name, e.gap, columns);
    TrimBoth(e.indent, e.name + (e.gap + columns), trail);
  }

  lemma TightColumns(attributes: string, date: string)
    requires IsToken(attributes) && (date == "" || !IsWhite(date[|date| - 1]))
    ensures Tight(attributes + date)
  {
    var columns := attributes + date;
    assert attributes[0] in attributes && attributes[|attributes| - 1] in attributes;
    assert columns[|columns| - 1] == if date == "" then attributes[|attributes| - 1] else date[|date| - 1];
  }

  lemma EntryParts(e: RawEntry, date: string, trail: string)
    requires e.rest == date + trail
    ensures e.Text() == e.indent + (e.name + (e.gap + (e.attributes + date))) + trail
  {
    assert e.attributes + e.rest == e.attributes + date + trail;
  }

  /** What follows the name in a line: white space, then more of it or a flag. */
  lemma AfterName(name: string, gap: string, flag: string, date: string)
    requires AllWhite(gap) && gap != "" && flag in FLAGS
    ensures var line, n := name + (gap + (flag + date)), |name|;
            && n + 1 < |line| && line[..n] == name
            && IsWhite(line[n]) && (IsWhite(line[n + 1]) || line[n + 1] in {'A', 'D'})
  {
    var line, n := name + (gap + (flag + date)), |name|;
    assert line[n] == gap[0] && gap[0] in gap;
    if |gap| > 1 {
      assert line[n + 1] == gap[1] && gap[1] in gap;
    } else {
      assert line[n + 1] == flag[0];
    }
    hide IsWhite;
  }

  lemma NoMetaGrows(line: string, n: nat)
    requires 0 < n && n + 1 < |line| && IsWhite(line[n]) && (IsWhite(line[n + 1]) || line[n + 1] in {'A', 'D'})
    ensures Meta(line) <==> StartsLikeMeta(line[..n])
  {
    var name := line[..n];
    if !StartsLikeMeta(name) {
      NoMarkerGrows(line, n, "blocks of size");
      NoMarkerGrows(line, n, "WARNING:");
    }
    hide IsWhite;
    assert |line| >= 2 && name <= line;
    assert line != ".." by { assert IsWhite(line[n]) && !IsWhite('.'); }
  }

  /** The line of a tight name with one of the known attribute words is a meta line only if the name looks like one. */
  lemma MetaIsInName(e: RawEntry)
    requires e.Valid() && Tight(e.name) && e.attributes in FLAGS
    ensures Meta(Trim(e.Text())) <==> StartsLikeMeta(e.name)
    ensures Trim(e.Text()) != "" && Trim(e.Text())[0] == e.name[0]
  {
    var date := TrimmedEntry(e);
    hide Trim, IsWhite, Meta, StartsLikeMeta, RawEntry.Text;
    AfterName(e.name, e.gap, e.attributes, date);
    NoMetaGrows(e.name + (e.gap + (e.attributes + date)), |e.name|);
  }

  lemma SingleSpacedIsTight(name: string)
    requires name != "" && SingleSpaced(name)
    ensures Tight(name)
  {
    WordsAreTokens(name, "");
    JoinedIsTight(SplitWhitespace(name));
  }

  /** A name is its words joined for at most one list of words. */
  lemma JoinedDetermines(words: seq<string>, name: string)
    requires AreTokens(words) && name != "" && Joined(words) == name
    ensures words == SplitWhitespace(name)
  {
    WordsOfLast(words);
  }

  // ---- files ----

  /** The names a file may have to be found under them. */
  predicate Survives(name: string) {
    && name != "" && name[0] != '\\' && !StartsLikeMeta(name)
    && !HasFlagWord(name) && SingleSpaced(name)
  }

  lemma FlagIndexAt(words: seq<string>, i: nat)
    requires i < |words| && words[i] in FLAGS && forall j :: 0 <= j < i ==> words[j] !in FLAGS
    ensures FlagIndex(words) == i
  {
  }

  lemma SurvivorIsRead(e: RawEntry)
    requires e.Valid() && e.attributes in {"A", "AH"} && Survives(e.name)
    ensures ReadLine(e.Text()) == FileLine(e.name)
  {
    SingleSpacedIsTight(e.name);
    MetaIsInName(e);
    WordsOfEntry(e);
    var words := SplitWhitespace(e.name);
    var parts := words + ([e.attributes] + SplitWhitespace(e.rest));
    assert forall j :: 0 <= j < |words| ==> parts[j] == words[j] && words[j] in words;
    FlagIndexAt(parts, |words|);
    assert parts[..|words|] == words;
    hide SplitWhitespace, Trim, Meta;
  }

  lemma ReadIsSurvivor(e: RawEntry)
    requires e.Valid() && e.name != "" && ReadLine(e.Text()) == FileLine(e.name)
    ensures e.attributes in {"A", "AH"} && Survives(e.name)
  {
    WordsOfEntry(e);
    var words := SplitWhitespace(e.name);
    var parts := words + ([e.attributes] + SplitWhitespace(e.rest));
    var i := FlagIndex(parts);
    WordsAreTokens(Trim(e.Text()), "");
    assert AreTokens(parts[..i]);
    JoinedDetermines(parts[..i], e.name);
    assert i == |words| && parts[i] == e.attributes;
    assert forall j :: 0 <= j < |words| ==> parts[j] == words[j];
    SingleSpacedIsTight(e.name);
    hide SplitWhitespace;
    MetaIsInName(e);
  }

  /**
   For any name and any attribute word: the line is read as a file of that name exactly
   when the attribute word is `A` or `AH`, the name's words are separated by single spaces,
   none of them looks like a flag, and the name does not start like a header or meta line.
   */
  lemma FileIsReadIff(e: RawEntry)
    requires e.Valid() && e.name != ""
    ensures ReadLine(e.Text()) == FileLine(e.name) <==> e.attributes in {"A", "AH"} && Survives(e.name)
  {
    if ReadLine(e.Text()) == FileLine(e.name) {
      ReadIsSurvivor(e);
    } else if e.attributes in {"A", "AH"} && Survives(e.name) {
      SurvivorIsRead(e);
    }
  }

  /** Two spaces in a name are read as one, which names no file. */
  lemma DoubleSpaceIsLost(e: RawEntry)
    requires e.Valid() && e.name == "a  b" && e.attributes == "A"
    ensures ReadLine(e.Text()) == FileLine("a b")
  {
    WordsOfDoubleSpace();
    assert Joined(["a", "b"]) == "a b" by { assert ["a", "b"][1..] == ["b"]; }
    hide SplitWhitespace, Joined, IsWhite;
    assert Tight("a  b") by { WordsOfDoubleSpace(); }
    assert !StartsLikeMeta("a  b");
    MetaIsInName(e);
    WordsOfEntry(e);
    var parts := ["a", "b"] + (["A"] + SplitWhitespace(e.rest));
    FlagIndexAt(parts, 2);
    assert parts[..2] == ["a", "b"];
    hide Trim, Meta;
  }

  lemma WordsOfDoubleSpace()
    ensures SplitWhitespace("a  b") == ["a", "b"] && Tight("a  b")
  {
    WordsOfToken("a", "  b", "");
    WordsOfGap("  ", "b", "a");
    WordsOfToken("b", "", "");
    assert "a" + "  b" == "a  b" && "  " + "b" == "  b" && "b" + "" == "b" && "" + "a" == "a" && "" + "b" == "b";
  }

  /** An entry whose line has no flag word at all, as with any other attribute word, is skipped. */
  lemma UnknownAttributesAreSkipped(e: RawEntry)
    requires e.Valid() && Trim(e.Text()) != "" && Trim(e.Text())[0] != '\\'
    requires e.attributes !in FLAGS && !HasFlagWord(e.name) && !HasFlagWord(e.rest)
    ensures ReadLine(e.Text()) == Skipped
  {
    WordsOfEntry(e);
    var parts := SplitWhitespace(e.name) + ([e.attributes] + SplitWhitespace(e.rest));
    hide SplitWhitespace, Trim, Meta;
    assert forall w <- parts :: w !in FLAGS;
  }

  // ---- directories ----

  /** The first word of the name that looks like a flag, if any, is `D`. */
  predicate FirstFlagIsDirectory(words: seq<string>) {
    var i := FlagIndex(words);
    i == |words| || words[i] == "D"
  }

  lemma FlagIndexOfPrefix(words: seq<string>, rest: seq<string>)
    requires rest != [] && rest[0] in FLAGS
    ensures FlagIndex(words + rest) == FlagIndex(words)
  {
    var i := FlagIndex(words);
    var all := words + rest;
    assert forall j :: 0 <= j < i ==> all[j] == words[j];
    assert all[i] == if i < |words| then words[i] else rest[0];
    FlagIndexAt(all, i);
  }

  lemma TightDirectoryIsSkippedIff(e: RawEntry)
    requires e.Valid() && Tight(e.name) && e.attributes == "D"
    ensures ReadLine(e.Text()) == Skipped
            <==> StartsLikeMeta(e.name)
                 || (e.name[0] != '\\' && FirstFlagIsDirectory(SplitWhitespace(e.name)))
    ensures !StartsLikeMeta(e.name) && e.name[0] != '\\' && !FirstFlagIsDirectory(SplitWhitespace(e.name)) ==>
              var words := SplitWhitespace(e.name);
              ReadLine(e.Text()) == FileLine(Joined(words[..FlagIndex(words)]))
  {
    MetaIsInName(e);
    WordsOfEntry(e);
    var words := SplitWhitespace(e.name);
    var tail := [e.attributes] + SplitWhitespace(e.rest);
    FlagIndexOfPrefix(words, tail);
    var parts, i := words + tail, FlagIndex(words);
    assert i < |words| ==> parts[i] == words[i] && parts[..i] == words[..i];
    assert parts[|words|] == "D";
    hide SplitWhitespace, Trim, Meta, FlagIndex;
  }

  /**
   A directory with any name that is not blank is skipped exactly when the name starts like
   a meta line, or it does not start like a header and its first flag-like word, if any, is
   `D`. With another flag word first it is read as a file named by the words before that.
   */
  lemma DirectoryIsSkippedIff(e: RawEntry)
    requires e.Valid() && Trim(e.name) != "" && e.attributes == "D"
    ensures ReadLine(e.Text()) == Skipped
            <==> StartsLikeMeta(Trim(e.name))
                 || (Trim(e.name)[0] != '\\' && FirstFlagIsDirectory(SplitWhitespace(e.name)))
    ensures !StartsLikeMeta(Trim(e.name)) && Trim(e.name)[0] != '\\'
            && !FirstFlagIsDirectory(SplitWhitespace(e.name)) ==>
              var words := SplitWhitespace(e.name);
              ReadLine(e.Text()) == FileLine(Joined(words[..FlagIndex(words)]))
  {
    var lead, trail := TrimParts(e.name);
    WordsOfTrimmed(e.name);
    var inner := RawEntry(e.indent + lead, Trim(e.name), trail + e.gap, e.attributes, e.rest);
    hide Trim, SplitWhitespace, ReadLine;
    var name := Trim(e.name);
    assert e.name == lead + name + trail;
    assert inner.Text() == e.Text() by {
      assert lead + name + trail + (e.gap + (e.attributes + e.rest))
          == lead + (name + (trail + e.gap + (e.attributes + e.rest)));
    }
    TightDirectoryIsSkippedIff(inner);
  }

  /** A directory called `A Team` is read as a file without a name. */
  lemma DirectoryReadAsFile(e: RawEntry)
    requires e.Valid() && e.name == "A Team" && e.attributes == "D"
    ensures ReadLine(e.Text()) == FileLine("")
  {
    WordsOfToken("A", " Team", "");
    assert "A" + " Team" == "A Team" && "" + "A" == "A";
    var words := SplitWhitespace(e.name);
    WordsAfterWord(" Team", "A");
    assert words[0] == "A";
    assert FlagIndex(words) == 0 && words[..0] == [];
    TightDirectoryIsSkippedIff(e);
    hide ReadLine;
  }
}
