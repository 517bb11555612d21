/** Text primitives of the parsers: lines, trimming, splitting at white space, replacing. */
module Texts {
  /** The Unicode White_Space property. */
  predicate IsWhite(c: char) {
    var n := c as int;
    || 0x9 <= n <= 0xd || n == 0x20 || n == 0x85 || n == 0xa0 || n == 0x1680 || 0x2000 <= n <= 0x200a
    || n == 0x2028 || n == 0x2029 || n == 0x202f || n == 0x205f || n == 0x3000
  }

  predicate AllWhite(s: string) { forall c <- s :: IsWhite(c) }
  predicate NoWhite(s: string) { forall c <- s :: !IsWhite(c) }

  /** `str::replace` of one character. */
  function Replace(s: string, c: char, to: string): string {
    if s == "" then "" else (if s[0] == c then to else [s[0]]) + Replace(s[1..], c, to)
  }

  predicate StartsWith(s: string, prefix: string) { prefix <= s }

  function TrimLeft(s: string): string {
    if s != "" && IsWhite(s[0]) then TrimLeft(s[1..]) else s
  }

  function TrimRight(s: string): string {
    if s != "" && IsWhite(s[|s| - 1]) then TrimRight(s[..|s| - 1]) else s
  }

  function Trim(s: string): string { TrimLeft(TrimRight(s)) }

  /** Neither empty nor with white space at an end. */
  predicate Tight(s: string) {
    s != "" && !IsWhite(s[0]) && !IsWhite(s[|s| - 1])
  }

  lemma {:induction false} TrimIndented(indent: string, body: string)
    requires AllWhite(indent) && Tight(body)
    ensures Trim(indent + body) == body
    decreases |indent|
  {
    assert TrimRight(indent + body) == indent + body;
    if indent == "" {
      assert indent + body == body;
    } else {
      assert (indent + body)[1..] == indent[1..] + body;
      assert indent[0] in indent;
      TrimIndented(indent[1..], body);
      assert TrimRight(indent[1..] + body) == indent[1..] + body;
    }
  }

  lemma {:induction false} TrimRightSplits(s: string)
    ensures var r := TrimRight(s);
            r <= s && AllWhite(s[|r|..]) && (r == "" || !IsWhite(r[|r| - 1]))
    decreases |s|
  {
    if s != "" && IsWhite(s[|s| - 1]) {
      var init := s[..|s| - 1];
      TrimRightSplits(init);
      var r := TrimRight(init);
      assert s[|r|..] == init[|r|..] + [s[|s| - 1]];
    }
  }

  lemma {:induction false} TrailIsTrimmed(body: string, trail: string)
    requires AllWhite(trail) && body != "" && !IsWhite(body[|body| - 1])
    ensures TrimRight(body + trail) == body
    decreases |trail|
  {
    if trail == "" {
      assert body + trail == body;
    } else {
      assert trail[|trail| - 1] in trail;
      assert (body + trail)[..|body + trail| - 1] == body + trail[..|trail| - 1];
      TrailIsTrimmed(body, trail[..|trail| - 1]);
    }
  }

  lemma {:induction false} TrimLeftStarts(s: string)
    ensures TrimLeft(s) == "" || !IsWhite(TrimLeft(s)[0])
    decreases |s|
  {
    if s != "" && IsWhite(s[0]) { TrimLeftStarts(s[1..]); }
  }

  lemma TrimBoth(indent: string, body: string, trail: string)
    requires AllWhite(indent) && Tight(body) && AllWhite(trail)
    ensures Trim(indent + body + trail) == body
  {
    TrailIsTrimmed(indent + body, trail);
    TrailIsTrimmed(indent + body, "");
    assert indent + body + "" == indent + body;
    TrimIndented(indent, body);
  }

  lemma TightEnd(name: string, gap: string, columns: string)
    requires name != "" && !IsWhite(name[0]) && Tight(columns)
    ensures Tight(name + (gap + columns))
  {
    var body := name + (gap + columns);
    assert body[|body| - 1] == columns[|columns| - 1];
  }

  /** Any text is white space around its trimmed form. */
  lemma TrimParts(s: string) returns (lead: string, trail: string)
    ensures s == lead + Trim(s) + trail && AllWhite(lead) && AllWhite(trail)
    ensures Trim(s) == "" || Tight(Trim(s))
  {
    TrimRightSplits(s);
    var body := TrimRight(s);
    trail := s[|body|..];
    lead := TrimLeftParts(body);
    TrimLeftStarts(body);
    var tight := TrimLeft(body);
    assert tight != "" ==> tight[|tight| - 1] == body[|body| - 1];
    assert s == body + trail;
  }

  lemma {:induction false} TrimLeftParts(s: string) returns (lead: string)
    ensures s == lead + TrimLeft(s) && AllWhite(lead)
    decreases |s|
  {
    if s != "" && IsWhite(s[0]) {
      var inner := TrimLeftParts(s[1..]);
      lead := [s[0]] + inner;
      assert s == [s[0]] + s[1..];
    } else {
      lead := "";
    }
  }

  /** `split_whitespace`, with `word` the characters of the current word. */
  function Words(s: string, word: string): seq<string>
    decreases |s|
  {
    var finished := if word == "" then [] else [word];
    if s == "" then finished
    else if IsWhite(s[0]) then finished + Words(s[1..], "")
    else Words(s[1..], word + [s[0]])
  }

  function SplitWhitespace(s: string): seq<string> { Words(s, "") }

  /** `join(" ")` */
  function Joined(words: seq<string>): string {
    if words == [] then "" else if |words| == 1 then words[0] else words[0] + " " + Joined(words[1..])
  }

  predicate IsToken(w: string) { w != "" && NoWhite(w) }

  predicate AreTokens(words: seq<string>) { forall w <- words :: IsToken(w) }

  lemma {:induction false} WordsOfToken(token: string, tail: string, word: string)
    requires NoWhite(token)
    ensures Words(token + tail, word) == Words(tail, word + token)
    decreases |token|
  {
    if token == "" {
      assert token + tail == tail && word + token == word;
    } else {
      assert token[0] in token;
      assert (token + tail)[1..] == token[1..] + tail;
      WordsOfToken(token[1..], tail, word + [token[0]]);
      assert word + [token[0]] + token[1..] == word + token;
    }
  }

  lemma {:induction false} WordsOfGap(gap: string, tail: string, word: string)
    requires AllWhite(gap) && gap != ""
    ensures Words(gap + tail, word) == (if word == "" then [] else [word]) + Words(tail, "")
    decreases |gap|
  {
    assert gap[0] in gap;
    assert (gap + tail)[1..] == gap[1..] + tail;
    if |gap| == 1 {
      assert gap[1..] + tail == tail;
    } else {
      WordsOfGap(gap[1..], tail, "");
    }
  }

  lemma WordsOfFirst(token: string, more: string)
    requires IsToken(token)
    ensures SplitWhitespace(token + (" " + more)) == [token] + SplitWhitespace(more)
  {
    WordsOfToken(token, " " + more, "");
    assert "" + token == token;
    WordsOfGap(" ", more, token);
  }

  /** Splitting gives back joined tokens, whatever white space follows them. */
  lemma {:induction false} WordsOfJoined(words: seq<string>, gap: string, tail: string)
    requires words != [] && AreTokens(words) && AllWhite(gap) && gap != ""
    ensures SplitWhitespace(Joined(words) + (gap + tail)) == words + SplitWhitespace(tail)
    decreases |words|
  {
    var rest := gap + tail;
    assert IsToken(words[0]);
    if |words| == 1 {
      WordsOfToken(words[0], rest, "");
      assert "" + words[0] == words[0];
      WordsOfGap(gap, tail, words[0]);
      assert words == [words[0]];
    } else {
      var more := Joined(words[1..]) + rest;
      assert Joined(words) + rest == words[0] + (" " + more);
      hide Joined;
      WordsOfFirst(words[0], more);
      WordsOfJoined(words[1..], gap, tail);
      hide SplitWhitespace;
      assert [words[0]] + (words[1..] + SplitWhitespace(tail)) == words + SplitWhitespace(tail);
    }
  }

  lemma {:induction false} WordsOfLast(words: seq<string>)
    requires words != [] && AreTokens(words)
    ensures SplitWhitespace(Joined(words)) == words
    decreases |words|
  {
    assert IsToken(words[0]);
    if |words| == 1 {
      WordsOfToken(words[0], "", "");
      assert words[0] + "" == words[0] && "" + words[0] == words[0];
      assert words == [words[0]];
    } else {
      var more := Joined(words[1..]);
      assert Joined(words) == words[0] + (" " + more);
      WordsOfFirst(words[0], more);
      WordsOfLast(words[1..]);
      assert [words[0]] + words[1..] == words;
    }
  }

  /** A gap separates the words on its two sides. */
  lemma {:induction false} WordsAtGap(s: string, gap: string, more: string, word: string)
    requires AllWhite(gap) && gap != ""
    ensures Words(s + (gap + more), word) == Words(s, word) + Words(more, "")
    decreases |s|
  {
    var line := s + (gap + more);
    if s == "" {
      assert line == gap + more;
      WordsOfGap(gap, more, word);
    } else {
      assert line[1..] == s[1..] + (gap + more);
      if IsWhite(s[0]) {
        WordsAtGap(s[1..], gap, more, "");
      } else {
        WordsAtGap(s[1..], gap, more, word + [s[0]]);
      }
    }
  }

  /** White space around a text adds no words. */
  lemma WordsOfTrimmed(s: string)
    ensures SplitWhitespace(Trim(s)) == SplitWhitespace(s)
  {
    var lead, trail := TrimParts(s);
    hide Trim;
    var t := Trim(s);
    if trail == "" {
      assert s == lead + t;
    } else {
      WordsAtGap(lead + t, trail, "", "");
      assert s == lead + t + (trail + "");
    }
    if lead == "" {
      assert lead + t == t;
    } else {
      WordsOfGap(lead, t, "");
    }
  }

  lemma {:induction false} WordsAreTokens(s: string, word: string)
    requires NoWhite(word)
    ensures AreTokens(Words(s, word))
    decreases |s|
  {
    if s != "" {
      if IsWhite(s[0]) { WordsAreTokens(s[1..], ""); } else { WordsAreTokens(s[1..], word + [s[0]]); }
    }
  }

  lemma {:induction false} JoinedIsTight(words: seq<string>)
    requires words != [] && AreTokens(words)
    ensures Tight(Joined(words))
    ensures words[0] <= Joined(words)
    decreases |words|
  {
    assert IsToken(words[0]);
    if |words| > 1 {
      JoinedIsTight(words[1..]);
    }
  }

  /** `lines`: split at line feeds, drop one carriage return, no empty last line. */
  function LinesFrom(s: string, line: string): seq<string>
    decreases |s|
  {
    if s == "" then (if line == "" then [] else [line])
    else if s[0] == '\n' then [WithoutReturn(line)] + LinesFrom(s[1..], "")
    else LinesFrom(s[1..], line + [s[0]])
  }

  function Lines(s: string): seq<string> { LinesFrom(s, "") }

  function WithoutReturn(line: string): string {
    if line != "" && line[|line| - 1] == '\r' then line[..|line| - 1] else line
  }

  /** Every line closed by a line feed. */
  function Unlines(lines: seq<string>): string {
    if lines == [] then "" else lines[0] + "\n" + Unlines(lines[1..])
  }

  lemma {:induction false} LinesOfLine(text: string, tail: string, line: string)
    requires '\n' !in text
    ensures LinesFrom(text + ("\n" + tail), line) == [WithoutReturn(line + text)] + Lines(tail)
    decreases |text|
  {
    var s := text + ("\n" + tail);
    if text == "" {
      assert s[1..] == tail && line + text == line;
    } else {
      assert text[0] in text;
      assert s[1..] == text[1..] + ("\n" + tail);
      LinesOfLine(text[1..], tail, line + [text[0]]);
      assert line + [text[0]] + text[1..] == line + text;
    }
  }

  lemma LinesOfUnlines(lines: seq<string>)
    requires lines != [] && '\n' !in lines[0]
    ensures Lines(Unlines(lines)) == [WithoutReturn(lines[0])] + Lines(Unlines(lines[1..]))
  {
    LinesOfLine(lines[0], Unlines(lines[1..]), "");
    assert Unlines(lines) == lines[0] + ("\n" + Unlines(lines[1..]));
    assert "" + lines[0] == lines[0];
  }

  /** A last line need not be closed, and one carriage return before a line feed is dropped. */
  lemma {:induction false} LinesOfLast(text: string, line: string)
    requires '\n' !in text && line + text != ""
    ensures LinesFrom(text, line) == [line + text]
    decreases |text|
  {
    if text == "" {
      assert line + text == line;
    } else {
      assert text[0] in text;
      LinesOfLast(text[1..], line + [text[0]]);
      assert line + [text[0]] + text[1..] == line + text;
    }
  }

  lemma ReturnsAreDropped(text: string, tail: string)
    requires '\n' !in text
    ensures Lines(text + "\r\n" + tail) == [text] + Lines(tail)
  {
    LinesOfLine(text + "\r", tail, "");
    assert text + "\r\n" + tail == text + "\r" + ("\n" + tail);
    assert "" + (text + "\r") == text + "\r";
  }

  lemma ReturnIsTrimmed(line: string)
    ensures Trim(WithoutReturn(line)) == Trim(line)
  {
  }
}
