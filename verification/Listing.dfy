/** The stateful parser of recursive share listings, and the listings it reads back. */
module Listing {
  import opened Texts

  const FLAGS := {"A", "D", "AH"}

  datatype Line = Skipped | Header(folder: string) | FileLine(name: string)

  /** Meta lines that carry no entry. */
  predicate Meta(trimmed: string) {
    || trimmed == "" || trimmed == "." || trimmed == ".."
    || StartsWith(trimmed, "blocks of size") || StartsWith(trimmed, "WARNING:")
  }

  /** Position of the first flag word, or the number of words. */
  function FlagIndex(words: seq<string>): (i: nat)
    ensures i <= |words|
    ensures i < |words| ==> words[i] in FLAGS
    ensures forall j :: 0 <= j < i ==> words[j] !in FLAGS
  {
    if words == [] || words[0] in FLAGS then 0 else 1 + FlagIndex(words[1..])
  }

  function ReadLine(line: string): Line {
    var trimmed := Trim(line);
    if Meta(trimmed) then Skipped
    else if trimmed[0] == '\\' then Header(Replace(trimmed, '\\', "/"))
    else
      var parts := SplitWhitespace(trimmed);
      var i := FlagIndex(parts);
      if i == |parts| || parts[i] == "D" then Skipped else FileLine(Joined(parts[..i]))
  }

  function PathIn(folder: string, name: string): string {
    if folder == "" || folder == "/" then name else folder + "/" + name
  }

  /** What a list of lines means when the current folder is `folder`. */
  function Paths(lines: seq<string>, folder: string): seq<string> {
    if lines == [] then []
    else
      match ReadLine(lines[0])
      case Skipped => Paths(lines[1..], folder)
      case Header(f) => Paths(lines[1..], f)
      case FileLine(name) => [PathIn(folder, name)] + Paths(lines[1..], folder)
  }

  method ParseSmbclientLs(output: string, basePath: string) returns (files: seq<string>)
    ensures files == Paths(Lines(output), basePath)
  {
    files := [];
    var currentFolder := basePath;
    var lines := Lines(output);
    for i := 0 to |lines|
      invariant files + Paths(lines[i..], currentFolder) == Paths(lines, basePath)
    {
      assert lines[i..][0] == lines[i] && lines[i..][1..] == lines[i + 1..];
      var trimmed := Trim(lines[i]);
      if Meta(trimmed) {
        continue;
      }
      if trimmed[0] == '\\' {
        currentFolder := Replace(trimmed, '\\', "/");
        continue;
      }
      var parts := SplitWhitespace(trimmed);
      var flag := FlagIndex(parts);
      if flag < |parts| {
        if parts[flag] == "D" {
          continue;
        }
        var name := Joined(parts[..flag]);
        assert files + ([PathIn(currentFolder, name)] + Paths(lines[i + 1..], currentFolder))
            == files + [PathIn(currentFolder, name)] + Paths(lines[i + 1..], currentFolder);
        files := files + [PathIn(currentFolder, name)];
      }
    }
  }

  // ---- what smbclient prints ----

  /** `gap` and `gap2` are the column padding; `tail` the size and date columns. */
  datatype Item =
    | Folder(path: string)
    | Entry(indent: string, name: seq<string>, gap: string, flag: string, gap2: string, tail: seq<string>)
    | Noise(text: string)
  {
    /** No word of the name looks like a flag. */
    predicate PlainName()
      requires Entry?
    {
      forall w <- name :: w !in FLAGS
    }

    predicate Valid() {
      Printable() && (Entry? ==> PlainName())
    }

    predicate Printable() {
      match this
      case Folder(path) => Tight(path) && path[0] == '/' && '\\' !in path && '\n' !in path
      case Entry(indent, name, gap, flag, gap2, tail) =>
        && AllWhite(indent) && AllWhite(gap) && gap != "" && AllWhite(gap2) && gap2 != ""
        && '\n' !in indent && '\n' !in gap && '\n' !in gap2
        && name != [] && AreTokens(name) && flag in FLAGS && tail != [] && AreTokens(tail)
        && name[0] != "" && name[0][0] != '\\'
        && !StartsWith(Joined(name), "blocks of size") && !StartsWith(Joined(name), "WARNING:")
      case Noise(text) => '\n' !in text && Meta(Trim(text))
    }

    function Body(): string
      requires Entry?
    {
      Joined(name) + (gap + (flag + (gap2 + Joined(tail))))
    }

    function Text(): string {
      match this
      case Folder(path) => Replace(path, '/', "\\")
      case Entry(_, _, _, _, _, _) => indent + Body()
      case Noise(text) => text
    }

    function Meaning(): Line {
      match this
      case Folder(path) => Header(path)
      case Entry(_, _, _, _, _, _) => if flag == "D" then Skipped else FileLine(Joined(name))
      case Noise(_) => Skipped
    }
  }

  function Printed(items: seq<Item>): (lines: seq<string>)
    ensures |lines| == |items|
  {
    seq(|items|, i requires 0 <= i < |items| => items[i].Text())
  }

  /** The full paths of the file entries, each under the latest header. */
  function FilesOf(items: seq<Item>, folder: string): seq<string> {
    if items == [] then []
    else
      match items[0]
      case Folder(path) => FilesOf(items[1..], path)
      case Noise(_) => FilesOf(items[1..], folder)
      case Entry(_, name, _, flag, _, _) =>
        if flag == "D" then FilesOf(items[1..], folder)
        else
          var path := if folder in {"", "/"} then Joined(name) else folder + "/" + Joined(name);
          [path] + FilesOf(items[1..], folder)
  }

  /** A listing of plain file entries is the list of their names below the folder. */
  lemma {:induction false} FilesBelow(items: seq<Item>, folder: string)
    requires forall item <- items :: item.Entry? && item.flag != "D"
    ensures |FilesOf(items, folder)| == |items|
    ensures forall i :: 0 <= i < |items| ==>
              FilesOf(items, folder)[i]
              == if folder == "" || folder == "/" then Joined(items[i].name)
                 else folder + "/" + Joined(items[i].name)
    decreases |items|
  {
    if items != [] {
      FilesBelow(items[1..], folder);
      var rest := FilesOf(items[1..], folder);
      var path := if folder in {"", "/"} then Joined(items[0].name) else folder + "/" + Joined(items[0].name);
      assert items[0] in items && FilesOf(items, folder) == [path] + rest;
      hide Joined, FilesOf;
      forall i | 0 < i < |items| ensures ([path] + rest)[i] == rest[i - 1] && items[1..][i - 1] == items[i] {
      }
    }
  }

  /** Files after a header are found below it, files before any header below the base path. */
  lemma HeaderMovesFiles(before: seq<Item>, path: string, after: seq<Item>, base: string)
    requires forall item <- before :: item.Entry?
    ensures FilesOf(before + ([Folder(path)] + after), base) == FilesOf(before, base) + FilesOf(after, path)
    decreases |before|
  {
    var all := before + ([Folder(path)] + after);
    if before == [] {
      assert all == [Folder(path)] + after && all[1..] == after;
    } else {
      assert all[1..] == before[1..] + ([Folder(path)] + after);
      HeaderMovesFiles(before[1..], path, after, base);
    }
  }

  lemma {:induction false} ReplaceMaps(s: string, c: char, d: char)
    ensures |Replace(s, c, [d])| == |s|
    ensures forall i :: 0 <= i < |s| ==> Replace(s, c, [d])[i] == if s[i] == c then d else s[i]
    decreases |s|
  {
    if s != "" {
      ReplaceMaps(s[1..], c, d);
      assert Replace(s, c, [d])[1..] == Replace(s[1..], c, [d]);
    }
  }

  lemma SlashesReturn(path: string)
    requires '\\' !in path
    ensures Replace(Replace(path, '/', "\\"), '\\', "/") == path
  {
    ReplaceMaps(path, '/', '\\');
    ReplaceMaps(Replace(path, '/', "\\"), '\\', '/');
  }

  lemma {:induction false} FlagAfterName(name: seq<string>, flag: string, tail: seq<string>)
    requires flag in FLAGS && forall w <- name :: w !in FLAGS
    ensures FlagIndex(name + ([flag] + tail)) == |name|
    decreases |name|
  {
    var words := name + ([flag] + tail);
    if name != [] {
      assert name[0] in name;
      assert words[1..] == name[1..] + ([flag] + tail);
      FlagAfterName(name[1..], flag, tail);
    }
  }

  lemma HeaderIsRead(path: string)
    requires Folder(path).Valid()
    ensures ReadLine(Folder(path).Text()) == Header(path)
  {
    SlashesReturn(path);
    ReplaceMaps(path, '/', '\\');
    var text := Replace(path, '/', "\\");
    TrimIndented("", text);
    assert "" + text == text;
  }

  lemma FlagIsToken(flag: string)
    requires flag in FLAGS
    ensures IsToken(flag) && flag[0] in {'A', 'D'}
  {
  }

  lemma BodyIsTight(e: Item)
    requires e.Entry? && e.Printable()
    ensures Tight(e.Body()) && e.Body()[0] != '\\' && Joined(e.name) <= e.Body()
  {
    JoinedIsTight(e.name);
    JoinedIsTight(e.tail);
    assert IsToken(e.name[0]);
    var rest := e.gap + (e.flag + (e.gap2 + Joined(e.tail)));
    assert rest[|rest| - 1] == Joined(e.tail)[|Joined(e.tail)| - 1];
  }

  /** A name without a marker does not grow one from the columns that follow it. */
  lemma BodyIsNoMeta(e: Item)
    requires e.Entry? && e.Printable()
    ensures !Meta(e.Body())
  {
    BodyIsTight(e);
    FlagIsToken(e.flag);
    JoinedIsTight(e.name);
    var n := |Joined(e.name)|;
    var body := e.Body();
    var rest := e.gap + (e.flag + (e.gap2 + Joined(e.tail)));
    assert body == Joined(e.name) + rest;
    assert body[n] == e.gap[0] && e.gap[0] in e.gap;
    if |e.gap| > 1 {
      assert body[n + 1] == e.gap[1] && e.gap[1] in e.gap;
    } else {
      assert body[n + 1] == e.flag[0];
    }
    NoMarkerGrows(body, n, "blocks of size");
    NoMarkerGrows(body, n, "WARNING:");
  }

  lemma NoMarkerGrows(body: string, n: nat, marker: string)
    requires marker in {"blocks of size", "WARNING:"}
    requires n + 1 < |body| && IsWhite(body[n]) && (IsWhite(body[n + 1]) || body[n + 1] in {'A', 'D'})
    requires 0 < n && !StartsWith(body[..n], marker)
    ensures !StartsWith(body, marker)
  {
  }

  lemma EntryWords(e: Item)
    requires e.Entry? && e.Printable()
    ensures SplitWhitespace(e.Body()) == e.name + ([e.flag] + e.tail)
  {
    FlagIsToken(e.flag);
    WordsOfJoined(e.name, e.gap, e.flag + (e.gap2 + Joined(e.tail)));
    assert AreTokens([e.flag]);
    WordsOfJoined([e.flag], e.gap2, Joined(e.tail));
    assert Joined([e.flag]) == e.flag;
    WordsOfLast(e.tail);
  }

  /** Any printed entry is cut at the first word that looks like a flag. */
  lemma EntryIsCut(e: Item)
    requires e.Entry? && e.Printable()
    ensures var parts := e.name + ([e.flag] + e.tail);
            var i := FlagIndex(parts);
            i < |parts| && ReadLine(e.Text()) == if parts[i] == "D" then Skipped else FileLine(Joined(parts[..i]))
  {
    BodyIsTight(e);
    TrimIndented(e.indent, e.Body());
    BodyIsNoMeta(e);
    EntryWords(e);
    var parts := e.name + ([e.flag] + e.tail);
    assert parts[|e.name|] == e.flag;
    hide SplitWhitespace, Trim, Meta;
  }

  lemma EntryIsRead(e: Item)
    requires e.Entry? && e.Valid()
    ensures ReadLine(e.Text()) == e.Meaning()
  {
    EntryIsCut(e);
    FlagAfterName(e.name, e.flag, e.tail);
    hide ReadLine;
    var parts := e.name + ([e.flag] + e.tail);
    assert parts[|e.name|] == e.flag && parts[..|e.name|] == e.name;
  }

  lemma ItemIsRead(item: Item)
    requires item.Valid()
    ensures ReadLine(WithoutReturn(item.Text())) == item.Meaning()
  {
    ReturnIsTrimmed(item.Text());
    match item
    case Folder(path) => HeaderIsRead(path);
    case Entry(_, _, _, _, _, _) => EntryIsRead(item);
    case Noise(text) =>
  }

  lemma NoLineFeed(item: Item)
    requires item.Printable()
    ensures '\n' !in item.Text()
  {
    match item
    case Folder(path) => ReplaceMaps(path, '/', '\\');
    case Noise(text) =>
    case Entry(indent, name, gap, flag, gap2, tail) =>
      JoinedHasNoLineFeed(name);
      JoinedHasNoLineFeed(tail);
      assert '\n' !in flag;
  }

  lemma {:induction false} JoinedHasNoLineFeed(words: seq<string>)
    requires AreTokens(words)
    ensures '\n' !in Joined(words)
    decreases |words|
  {
    if words != [] {
      assert IsToken(words[0]);
      assert IsWhite('\n');
      if |words| > 1 { JoinedHasNoLineFeed(words[1..]); }
    }
  }

  /**
   The parser undoes the printer: for every sequence of folder headers, entries and meta
   lines it returns exactly the full paths of the file entries, in order, each under the
   latest header or else under the base path.
   */
  lemma {:induction false} ParseUndoesPrint(items: seq<Item>, folder: string)
    requires forall item <- items :: item.Valid()
    ensures Paths(Lines(Unlines(Printed(items))), folder) == FilesOf(items, folder)
    decreases |items|
  {
    if items != [] {
      var lines := Printed(items);
      assert lines[0] == items[0].Text() && lines[1..] == Printed(items[1..]);
      assert items[0].Valid();
      NoLineFeed(items[0]);
      LinesOfUnlines(lines);
      ItemIsRead(items[0]);
      var read := Lines(Unlines(lines));
      assert read[1..] == Lines(Unlines(Printed(items[1..])));
      hide ReadLine, Lines, Unlines, Printed;
      match items[0]
      case Folder(path) => ParseUndoesPrint(items[1..], path);
      case Entry(_, _, _, _, _, _) => ParseUndoesPrint(items[1..], folder);
      case Noise(_) => ParseUndoesPrint(items[1..], folder);
    }
  }
}
