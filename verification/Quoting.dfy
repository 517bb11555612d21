/**
 The command line handed to smbclient. A lexer for its documented rules (double quotes,
 backslash escapes, `;` between commands) reads back exactly the commands that were
 rendered, whatever the file names contain.
 */
module Quoting {
  import opened Texts
  import opened Wrappers

  /** Two passes: backslashes first, then quotes. */
  function QuoteSmbArg(s: string): string {
    "\"" + Replace(Replace(s, '\\', "\\\\"), '"', "\\\"") + "\""
  }

  /** One pass, character by character. */
  function Escape(s: string): string {
    if s == "" then ""
    else (if s[0] == '\\' || s[0] == '"' then ['\\', s[0]] else [s[0]]) + Escape(s[1..])
  }

  lemma {:induction false} ReplaceConcat(a: string, b: string, c: char, to: string)
    ensures Replace(a + b, c, to) == Replace(a, c, to) + Replace(b, c, to)
    decreases |a|
  {
    if a == "" {
      assert a + b == b;
    } else {
      assert (a + b)[1..] == a[1..] + b;
      ReplaceConcat(a[1..], b, c, to);
    }
  }

  /** The second pass leaves the first pass's backslashes alone, so two passes are one escape. */
  lemma {:induction false} TwoPassesAreOne(s: string)
    ensures QuoteSmbArg(s) == "\"" + Escape(s) + "\""
    decreases |s|
  {
    if s != "" {
      var head := if s[0] == '\\' then "\\\\" else [s[0]];
      TwoPassesAreOne(s[1..]);
      var inner := Replace(Replace(s[1..], '\\', "\\\\"), '"', "\\\"");
      assert inner == Escape(s[1..]) by {
        assert QuoteSmbArg(s[1..])[1..|inner| + 1] == inner;
        assert ("\"" + Escape(s[1..]) + "\"")[1..|Escape(s[1..])| + 1] == Escape(s[1..]);
      }
      ReplaceConcat(head, Replace(s[1..], '\\', "\\\\"), '"', "\\\"");
      EscapedHead(s[0], head);
    }
  }

  lemma EscapedHead(c: char, head: string)
    requires head == if c == '\\' then "\\\\" else [c]
    ensures Replace(head, '"', "\\\"") == if c == '\\' || c == '"' then ['\\', c] else [c]
  {
    if c == '\\' {
      assert head[1..] == "\\" && head[1..][1..] == "";
      assert Replace(head[1..], '"', "\\\"") == "\\";
    } else {
      assert head[1..] == "";
    }
  }

  // ---- reading a command line ----

  datatype Mode = Between | Bare(word: string) | Quoted(word: string)

  /** `words` belong to the command being read; an open quote or trailing backslash is an error. */
  function Lex(s: string, mode: Mode, words: seq<string>, done: seq<seq<string>>): Option<seq<seq<string>>>
    decreases |s|
  {
    if s == "" then
      match mode
      case Between => Some(done + [words])
      case Bare(w) => Some(done + [words + [w]])
      case Quoted(_) => None
    else
      var c, rest := s[0], s[1..];
      match mode
      case Between =>
        if c == ' ' then Lex(rest, Between, words, done)
        else if c == ';' then Lex(rest, Between, [], done + [words])
        else if c == '"' then Lex(rest, Quoted(""), words, done)
        else Lex(rest, Bare([c]), words, done)
      case Bare(w) =>
        if c == ' ' then Lex(rest, Between, words + [w], done)
        else if c == ';' then Lex(rest, Between, [], done + [words + [w]])
        else if c == '"' then Lex(rest, Quoted(w), words, done)
        else Lex(rest, Bare(w + [c]), words, done)
      case Quoted(w) =>
        if c == '"' then Lex(rest, Bare(w), words, done)
        else if c == '\\' then
          if rest == "" then None else Lex(rest[1..], Quoted(w + [rest[0]]), words, done)
        else Lex(rest, Quoted(w + [c]), words, done)
  }

  function ReadCommands(line: string): Option<seq<seq<string>>> {
    Lex(line, Between, [], [])
  }

  // ---- writing one ----

  datatype Command = Command(keyword: string, args: seq<string>) {
    function Words(): seq<string> { [keyword] + args }
    /** Keywords are fixed names such as `put`; only the arguments come from outside. */
    predicate Plain() {
      keyword != "" && ' ' !in keyword && ';' !in keyword && '"' !in keyword
    }
  }

  function RenderArgs(args: seq<string>): string {
    if args == [] then "" else " " + QuoteSmbArg(args[0]) + RenderArgs(args[1..])
  }

  function Render(commands: seq<Command>): string {
    if commands == [] then ""
    else
      var first := commands[0].keyword + RenderArgs(commands[0].args);
      if |commands| == 1 then first else first + "; " + Render(commands[1..])
  }

  function AllWords(commands: seq<Command>): seq<seq<string>> {
    seq(|commands|, i requires 0 <= i < |commands| => commands[i].Words())
  }

  // ---- reading undoes writing ----

  lemma {:induction false} ReadEscaped(s: string, tail: string, w: string, words: seq<string>, done: seq<seq<string>>)
    ensures Lex(Escape(s) + ("\"" + tail), Quoted(w), words, done) == Lex(tail, Bare(w + s), words, done)
    decreases |s|
  {
    var line := Escape(s) + ("\"" + tail);
    if s == "" {
      assert line[1..] == tail && w + s == w;
    } else {
      var after := Escape(s[1..]) + ("\"" + tail);
      ReadEscaped(s[1..], tail, w + [s[0]], words, done);
      assert w + [s[0]] + s[1..] == w + s;
      if s[0] == '\\' || s[0] == '"' {
        assert line == ['\\', s[0]] + after;
        assert line[1..][1..] == after;
      } else {
        assert line == [s[0]] + after;
        assert line[1..] == after;
      }
    }
  }

  lemma ReadArgument(arg: string, tail: string, w: string, words: seq<string>, done: seq<seq<string>>)
    ensures Lex(" " + QuoteSmbArg(arg) + tail, Bare(w), words, done) == Lex(tail, Bare(arg), words + [w], done)
  {
    TwoPassesAreOne(arg);
    ReadEscaped(arg, tail, "", words + [w], done);
    var line := " " + QuoteSmbArg(arg) + tail;
    var body := Escape(arg) + ("\"" + tail);
    assert line == " " + ("\"" + body);
    assert line[1..] == "\"" + body && line[1..][1..] == body;
    assert "" + arg == arg;
  }

  /** In the middle of the last of `all` words of a command. */
  function Resume(tail: string, all: seq<string>, done: seq<seq<string>>): Option<seq<seq<string>>>
    requires all != []
  {
    Lex(tail, Bare(all[|all| - 1]), all[..|all| - 1], done)
  }

  lemma ResumeIs(tail: string, words: seq<string>, w: string, done: seq<seq<string>>)
    ensures Resume(tail, words + [w], done) == Lex(tail, Bare(w), words, done)
  {
    assert (words + [w])[..|words|] == words;
  }

  lemma {:induction false} ReadArguments(args: seq<string>, tail: string, w: string, words: seq<string>,
                                         done: seq<seq<string>>)
    ensures Lex(RenderArgs(args) + tail, Bare(w), words, done) == Resume(tail, words + [w] + args, done)
    decreases |args|
  {
    hide Lex, Resume, QuoteSmbArg;
    if args == [] {
      assert RenderArgs(args) + tail == tail;
      assert words + [w] + args == words + [w];
      ResumeIs(tail, words, w, done);
    } else {
      var after := RenderArgs(args[1..]) + tail;
      RenderArgsUnfolds(args, tail);
      hide RenderArgs;
      ReadArgument(args[0], after, w, words, done);
      ReadArguments(args[1..], tail, args[0], words + [w], done);
      assert words + [w] + [args[0]] + args[1..] == words + [w] + args;
    }
  }

  lemma RenderArgsUnfolds(args: seq<string>, tail: string)
    requires args != []
    ensures RenderArgs(args) + tail == " " + QuoteSmbArg(args[0]) + (RenderArgs(args[1..]) + tail)
  {
    hide QuoteSmbArg;
  }

  lemma {:induction false} ReadKeyword(keyword: string, tail: string, w: string, words: seq<string>,
                                       done: seq<seq<string>>)
    requires ' ' !in keyword && ';' !in keyword && '"' !in keyword
    ensures Lex(keyword + tail, Bare(w), words, done) == Lex(tail, Bare(w + keyword), words, done)
    decreases |keyword|
  {
    if keyword == "" {
      assert keyword + tail == tail && w + keyword == w;
    } else {
      assert keyword[0] in keyword;
      assert (keyword + tail)[1..] == keyword[1..] + tail;
      ReadKeyword(keyword[1..], tail, w + [keyword[0]], words, done);
      assert w + [keyword[0]] + keyword[1..] == w + keyword;
    }
  }

  /** A whole command ends in the middle of its last word, with the earlier words read. */
  lemma ReadCommand(c: Command, tail: string, done: seq<seq<string>>)
    requires c.Plain()
    ensures Lex(c.keyword + RenderArgs(c.args) + tail, Between, [], done) == Resume(tail, c.Words(), done)
  {
    var line := c.keyword + RenderArgs(c.args) + tail;
    var rest := RenderArgs(c.args) + tail;
    assert line == c.keyword + rest;
    assert line[0] == c.keyword[0] && c.keyword[0] in c.keyword;
    assert line[1..] == c.keyword[1..] + rest;
    ReadKeyword(c.keyword[1..], rest, [c.keyword[0]], [], done);
    assert [c.keyword[0]] + c.keyword[1..] == c.keyword;
    ReadArguments(c.args, tail, c.keyword, [], done);
    assert [] + [c.keyword] + c.args == c.Words();
  }

  lemma ResumeEnd(all: seq<string>, done: seq<seq<string>>)
    requires all != []
    ensures Resume("", all, done) == Some(done + [all])
  {
    assert all[..|all| - 1] + [all[|all| - 1]] == all;
  }

  lemma ResumeNext(next: string, all: seq<string>, done: seq<seq<string>>)
    requires all != []
    ensures Resume("; " + next, all, done) == Lex(next, Between, [], done + [all])
  {
    assert all[..|all| - 1] + [all[|all| - 1]] == all;
    assert ("; " + next)[1..] == " " + next && (" " + next)[1..] == next;
    assert Lex(" " + next, Between, [], done + [all]) == Lex(next, Between, [], done + [all]);
  }

  lemma AllWordsUnfolds(commands: seq<Command>, done: seq<seq<string>>)
    requires commands != []
    ensures done + AllWords(commands) == done + [commands[0].Words()] + AllWords(commands[1..])
  {
  }

  lemma RenderUnfolds(commands: seq<Command>)
    requires commands != []
    ensures Render(commands) == commands[0].keyword + RenderArgs(commands[0].args)
                                + if |commands| == 1 then "" else "; " + Render(commands[1..])
  {
    hide RenderArgs;
  }

  lemma {:induction false} ReadRendered(commands: seq<Command>, done: seq<seq<string>>)
    requires commands != [] && forall c <- commands :: c.Plain()
    ensures Lex(Render(commands), Between, [], done) == Some(done + AllWords(commands))
    decreases |commands|
  {
    hide Lex, Resume, RenderArgs, Render, AllWords;
    var c := commands[0];
    AllWordsUnfolds(commands, done);
    RenderUnfolds(commands);
    if |commands| == 1 {
      ReadCommand(c, "", done);
      ResumeEnd(c.Words(), done);
      NoCommandsNoWords(commands[1..]);
      assert done + [c.Words()] + [] == done + [c.Words()];
    } else {
      var next := Render(commands[1..]);
      ReadCommand(c, "; " + next, done);
      ResumeNext(next, c.Words(), done);
      ReadRendered(commands[1..], done + [c.Words()]);
    }
  }

  lemma NoCommandsNoWords(commands: seq<Command>)
    requires commands == []
    ensures AllWords(commands) == []
  {
  }

  /**
   Reading undoes rendering for every list of commands and every argument: spaces,
   quotes, backslashes and semicolons inside a name never end its argument.
   */
  lemma ReadUndoesRender(commands: seq<Command>)
    requires commands != [] && forall c <- commands :: c.Plain()
    ensures ReadCommands(Render(commands)) == Some(AllWords(commands))
  {
    ReadRendered(commands, []);
    assert [] + AllWords(commands) == AllWords(commands);
  }

  /** The put command of an upload. */
  function PutCommand(localDir: string, remoteDir: string, localFile: string, uploading: string): string {
    "lcd " + QuoteSmbArg(localDir) + "; cd " + QuoteSmbArg(remoteDir)
    + "; put " + QuoteSmbArg(localFile) + " " + QuoteSmbArg(uploading)
  }

  lemma RenderMore(c: Command, arg: string, rest: seq<Command>)
    requires c.args == [arg] && rest != []
    ensures Render([c] + rest) == c.keyword + (" " + QuoteSmbArg(arg)) + "; " + Render(rest)
  {
    assert [arg][1..] == [];
    assert RenderArgs([arg]) == " " + QuoteSmbArg(arg) + "";
    assert ([c] + rest)[1..] == rest;
  }

  lemma RenderTwo(c: Command, a: string, b: string)
    requires c.args == [a, b]
    ensures Render([c]) == c.keyword + (" " + QuoteSmbArg(a) + (" " + QuoteSmbArg(b)))
  {
    assert [a, b][1..] == [b] && [b][1..] == [];
    assert RenderArgs([b]) == " " + QuoteSmbArg(b);
  }

  lemma PutCommandIsRead(localDir: string, remoteDir: string, localFile: string, uploading: string)
    ensures ReadCommands(PutCommand(localDir, remoteDir, localFile, uploading))
            == Some([["lcd", localDir], ["cd", remoteDir], ["put", localFile, uploading]])
  {
    hide QuoteSmbArg, ReadCommands, Render;
    var lcd, cd, put := Command("lcd", [localDir]), Command("cd", [remoteDir]), Command("put", [localFile, uploading]);
    RenderTwo(put, localFile, uploading);
    RenderMore(cd, remoteDir, [put]);
    RenderMore(lcd, localDir, [cd] + [put]);
    assert [lcd] + ([cd] + [put]) == [lcd, cd, put];
    assert Render([lcd, cd, put]) == PutCommand(localDir, remoteDir, localFile, uploading);
    ReadUndoesRender([lcd, cd, put]);
    assert AllWords([lcd, cd, put]) == [lcd.Words(), cd.Words(), put.Words()];
    assert lcd.Words() == ["lcd", localDir] && cd.Words() == ["cd", remoteDir];
    assert put.Words() == ["put", localFile, uploading];
  }
}
