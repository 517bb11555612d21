/** The size column of a listing, which an upload is verified against before it is published. */
module ListedSize {
  import opened Pipeline
  import opened Texts
  import opened Timestamps
  import opened Wrappers

  const U64_LIMIT := 0x1_0000_0000_0000_0000

  function DigitValue(c: char): Option<nat> {
    if '0' <= c <= '9' then Some((c - '0') as nat) else None
  }

  /** Value of a digit string; absent when empty or when some character is no digit. */
  function DigitsValue(s: string): Option<nat> {
    if s == "" then None
    else
      var last := DigitValue(s[|s| - 1]);
      if last.None? then None
      else if |s| == 1 then last
      else
        match DigitsValue(s[..|s| - 1])
        case None => None
        case Some(n) => Some(10 * n + last.value)
  }

  /** `parse::<u64>`, which also takes a plus sign. */
  function ParseU64(s: string): Option<nat> {
    match DigitsValue(if s != "" && s[0] == '+' then s[1..] else s)
    case Some(n) => if n < U64_LIMIT then Some(n) else None
    case None => None
  }

  function LineSize(line: string, file: string): Option<nat> {
    var trimmed := Trim(line);
    if !StartsWith(trimmed, file) then None
    else
      var fields := SplitWhitespace(Trim(trimmed[|file|..]));
      if |fields| < 2 then None else ParseU64(fields[1])
  }

  /** The first line that yields a size decides. */
  function ParseLsSize(lines: seq<string>, file: string): Option<nat> {
    if lines == [] then None
    else
      var size := LineSize(lines[0], file);
      if size.Some? then size else ParseLsSize(lines[1..], file)
  }

  lemma DigitIsRead(k: nat)
    requires k < 10
    ensures var c := DIGITS[k]; DigitValue(c) == Some(k) && c != '+' && !IsWhite(c)
  {
  }

  lemma {:induction false} DecimalIsParsed(n: nat)
    ensures DigitsValue(Decimal(n)) == Some(n)
    ensures Decimal(n) != "" && Decimal(n)[0] != '+'
  {
    DigitIsRead(n % 10);
    hide DigitValue, IsWhite;
    if n >= 10 {
      DecimalIsParsed(n / 10);
      var s := Decimal(n);
      assert s[..|s| - 1] == Decimal(n / 10);
    }
  }

  /**
   One file as the server lists it. The name may hold any characters, runs of spaces
   included, and the attributes may be any letters; `tail` is the date column.
   */
  datatype Row = Row(
    indent: string, name: string, gap: string, attributes: string, gap2: string, size: nat, tail: string)
  {
    predicate Valid() {
      && AllWhite(indent) && AllWhite(gap) && gap != "" && AllWhite(gap2) && gap2 != ""
      && name != "" && IsToken(attributes) && size < 0x1_0000_0000_0000_0000
      && (tail == "" || IsWhite(tail[0]))
      && '\n' !in indent + name + gap + gap2 + tail
    }

    function Text(): string {
      indent + (name + (gap + (attributes + (gap2 + (Decimal(size) + tail)))))
    }
  }

  /** Numbers are read with or without a plus sign, up to the largest u64. */
  lemma U64IsParsed(n: nat)
    ensures ParseU64(Decimal(n)) == if n < 0x1_0000_0000_0000_0000 then Some(n) else None
    ensures ParseU64("+" + Decimal(n)) == ParseU64(Decimal(n))
  {
    DecimalIsParsed(n);
    assert ("+" + Decimal(n))[1..] == Decimal(n);
    hide DigitsValue, Decimal;
  }

  lemma DecimalEnds(n: nat)
    ensures NoWhite(Decimal(n)) && '\n' !in Decimal(n)
  {
    DigitIsRead(n % 10);
    if n >= 10 { DecimalEnds(n / 10); }
  }

  /** The columns behind the name, once the date is cut to its last visible character. */
  function Columns(row: Row, date: string): string {
    row.attributes + (row.gap2 + (Decimal(row.size) + date))
  }

  lemma ColumnsSplit(row: Row, date: string)
    requires row.Valid() && (date == "" || (IsWhite(date[0]) && !IsWhite(date[|date| - 1])))
    ensures Tight(Columns(row, date))
    ensures var fields := SplitWhitespace(Columns(row, date));
            |fields| >= 2 && fields[1] == Decimal(row.size)
  {
    var digits := Decimal(row.size);
    DecimalIsParsed(row.size);
    DecimalEnds(row.size);
    assert row.attributes[0] in row.attributes && digits[|digits| - 1] in digits;
    assert (digits + date)[|digits + date| - 1] == if date == "" then digits[|digits| - 1] else date[|date| - 1];
    WordsOfToken(row.attributes, row.gap2 + (digits + date), "");
    assert "" + row.attributes == row.attributes && "" + digits == digits;
    WordsOfGap(row.gap2, digits + date, row.attributes);
    WordsOfToken(digits, date, "");
    hide Decimal;
    assert Words(date, digits)[0] == digits;
  }

  /** The text is the name and its columns between the indentation and trailing white space. */
  lemma TextParts(row: Row, date: string, trail: string)
    requires row.tail == date + trail
    ensures row.Text() == row.indent + (row.name + (row.gap + Columns(row, date))) + trail
  {
    hide Decimal;
    var digits := Decimal(row.size);
    assert digits + row.tail == digits + date + trail;
    assert row.attributes + (row.gap2 + (digits + row.tail)) == Columns(row, date) + trail;
  }

  lemma RowIsTrimmed(row: Row) returns (date: string)
    requires row.Valid() && !IsWhite(row.name[0])
    ensures date == "" || (IsWhite(date[0]) && !IsWhite(date[|date| - 1]))
    ensures Trim(row.Text()) == row.name + (row.gap + Columns(row, date))
  {
    TrimRightSplits(row.tail);
    date := TrimRight(row.tail);
    var trail := row.tail[|date|..];
    assert row.tail == date + trail && (date != "" ==> date[0] == row.tail[0]);
    hide Decimal, TrimRight, Trim, Row.Text;
    ColumnsSplit(row, date);
    TextParts(row, date, trail);
    hide Columns;
    var columns := Columns(row, date);
    TightEnd(row.name, row.gap, columns);
    TrimBoth(row.indent, row.name + (row.gap + columns), trail);
  }

  lemma FieldIsSize(line: string, file: string, fields: seq<string>, size: nat)
    requires file <= Trim(line) && SplitWhitespace(Trim(Trim(line)[|file|..])) == fields && |fields| >= 2
    requires DigitsValue(fields[1]) == Some(size) && fields[1][0] != '+' && size < U64_LIMIT
    ensures LineSize(line, file) == Some(size)
  {
    hide Trim, SplitWhitespace, DigitsValue;
  }

  lemma RowSizeIsRead(row: Row)
    requires row.Valid() && !IsWhite(row.name[0])
    ensures LineSize(WithoutReturn(row.Text()), row.name) == Some(row.size)
  {
    ReturnIsTrimmed(row.Text());
    var date := RowIsTrimmed(row);
    ColumnsSplit(row, date);
    DecimalIsParsed(row.size);
    var columns := Columns(row, date);
    assert (row.name + (row.gap + columns))[|row.name|..] == row.gap + columns;
    TrimIndented(row.gap, columns);
    assert row.size < U64_LIMIT;
    hide *;
    FieldIsSize(WithoutReturn(row.Text()), row.name, SplitWhitespace(columns), row.size);
  }

  /** No line yields a size for a name that starts with white space: lines are trimmed first. */
  lemma IndentedNameIsNotFound(line: string, file: string)
    requires file != "" && IsWhite(file[0])
    ensures LineSize(line, file) == None
  {
    TrimLeftStarts(TrimRight(line));
  }

  lemma {:induction false} NoSizeAnywhere(lines: seq<string>, file: string)
    requires file != "" && IsWhite(file[0])
    ensures ParseLsSize(lines, file) == None
    decreases |lines|
  {
    if lines != [] {
      IndentedNameIsNotFound(lines[0], file);
      NoSizeAnywhere(lines[1..], file);
    }
  }

  lemma RowHasNoLineFeed(row: Row)
    requires row.Valid()
    ensures '\n' !in row.Text()
  {
    DecimalEnds(row.size);
    assert IsWhite('\n');
    var outer := row.indent + row.name + row.gap + row.gap2 + row.tail;
    assert forall c :: c in row.indent || c in row.name || c in row.gap ==> c in outer;
    assert forall c :: c in row.gap2 || c in row.tail ==> c in outer;
  }

  /**
   The size check reads what the server printed, behind any lines that yield no size for
   the name: exactly the listed size, unless the name starts with white space, and then none.
   */
  lemma {:induction false} ListedSizeIsRead(before: seq<string>, row: Row, rest: seq<string>)
    requires row.Valid()
    requires forall line <- before :: '\n' !in line && LineSize(WithoutReturn(line), row.name) == None
    ensures ParseLsSize(Lines(Unlines(before + ([row.Text()] + rest))), row.name)
            == if IsWhite(row.name[0]) then None else Some(row.size)
    decreases |before|
  {
    var all := before + ([row.Text()] + rest);
    if IsWhite(row.name[0]) {
      NoSizeAnywhere(Lines(Unlines(all)), row.name);
    } else if before == [] {
      RowHasNoLineFeed(row);
      RowSizeIsRead(row);
      LinesOfUnlines(all);
      hide LineSize, Lines, Unlines, Row.Text;
      assert all[0] == row.Text();
    } else {
      LinesOfUnlines(all);
      hide LineSize, Lines, Unlines, Row.Text;
      assert all[0] == before[0] && all[1..] == before[1..] + ([row.Text()] + rest);
      ListedSizeIsRead(before[1..], row, rest);
    }
  }
}
