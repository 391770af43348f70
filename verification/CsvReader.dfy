/**
 The reader of Python's `csv` module with its default dialect, as the tailing importer
 uses it (monitor_app/services/csv_tail.py): an automaton fed line by line.

 A quote is special only at the start of a field, `""` inside quotes is one quote, and a
 line end counts only outside quotes.  CR, LF and CRLF each end a line.  Text is free of
 NUL, and every byte that matters is one character.
 */
module CsvReader {
  import opened Options

  type CsvRow = seq<string>

  datatype Mode = StartRecord | StartField | InField | InQuotes | QuoteInQuotes | EatNewline | Bad

  datatype Parser = Parser(mode: Mode, field: string, fields: CsvRow)
  {
    function Save(next: Mode): Parser {
      Parser(next, "", fields + [field])
    }

    function Add(c: char, next: Mode): Parser {
      Parser(next, field + [c], fields)
    }
  }

  const FRESH := Parser(StartRecord, "", [])

  predicate IsNewline(c: char) {
    c == '\n' || c == '\r'
  }

  function FeedField(p: Parser, c: char): Parser {
    if IsNewline(c) then p.Save(EatNewline)
    else if c == '"' then p.(mode := InQuotes)
    else if c == ',' then p.Save(StartField)
    else p.Add(c, InField)
  }

  function Feed(p: Parser, c: char): Parser {
    match p.mode
    case StartRecord => if IsNewline(c) then p.(mode := EatNewline) else FeedField(p, c)
    case StartField => FeedField(p, c)
    case InField =>
      if IsNewline(c) then p.Save(EatNewline)
      else if c == ',' then p.Save(StartField)
      else p.Add(c, InField)
    case InQuotes => if c == '"' then p.(mode := QuoteInQuotes) else p.Add(c, InQuotes)
    case QuoteInQuotes =>
      if c == '"' then p.Add(c, InQuotes)
      else if c == ',' then p.Save(StartField)
      else if IsNewline(c) then p.Save(EatNewline)
      else p.Add(c, InField)
    case EatNewline => if IsNewline(c) then p else p.(mode := Bad)
    case Bad => p
  }

  /** The reader tells the automaton where each line ends. */
  function EndLine(p: Parser): Parser {
    match p.mode
    case StartField => p.Save(StartRecord)
    case InField => p.Save(StartRecord)
    case QuoteInQuotes => p.Save(StartRecord)
    case EatNewline => p.(mode := StartRecord)
    case _ => p
  }

  function FeedAll(p: Parser, s: string): Parser
    decreases |s|
  {
    if s == "" then p else FeedAll(Feed(p, s[0]), s[1..])
  }

  function Line(p: Parser, line: string): Parser {
    EndLine(FeedAll(p, line))
  }

  // ------------------------------------------------------------------------ lines

  /** The position just after the first line end. */
  function LineEnd(s: string): (r: Option<nat>)
    ensures r.Some? ==> 1 <= r.value <= |s|
  {
    if s == "" then None
    else if s[0] == '\n' then Some(1)
    else if s[0] == '\r' then Some(if |s| > 1 && s[1] == '\n' then 2 else 1)
    else
      var r := LineEnd(s[1..]);
      if r.None? then None else Some(r.value + 1)
  }

  /** `LineEnd` finds a line end if there is one. */
  lemma {:induction false} LineEndFinds(s: string)
    ensures LineEnd(s).None? <==> forall i :: 0 <= i < |s| ==> !IsNewline(s[i])
    ensures LineEnd(s).Some? ==> IsNewline(s[LineEnd(s).value - 1])
  {
    if s != "" && !IsNewline(s[0]) {
      LineEndFinds(s[1..]);
      if LineEnd(s[1..]).None? {
        assert forall i :: 1 <= i < |s| ==> s[i] == s[1..][i - 1];
      } else {
        var i :| 0 <= i < |s[1..]| && IsNewline(s[1..][i]);
        assert IsNewline(s[i + 1]);
      }
    }
  }

  function CountLines(s: string): nat
    decreases |s|
  {
    var n := LineEnd(s);
    if n.None? then 0 else 1 + CountLines(s[n.value..])
  }

  // ------------------------------------------------------------ the reader over a text

  /** `next(reader)`: the end of the text, or a row, what follows it, and `line_num`. */
  datatype Read = End | Got(row: CsvRow, rest: string, lines: nat)

  function ReadFrom(p: Parser, s: string, lines: nat): (r: Read)
    ensures r.Got? && s != "" ==> |r.rest| < |s| && lines < r.lines
    decreases |s|
  {
    if s == "" then
      if p.field != "" || p.mode.InQuotes? then Got(p.Save(StartRecord).fields, "", lines) else End
    else
      var n := if LineEnd(s).Some? then LineEnd(s).value else |s|;
      var q := Line(p, s[..n]);
      if q.mode.StartRecord? then Got(q.fields, s[n..], lines + 1) else ReadFrom(q, s[n..], lines + 1)
  }

  function NextRow(s: string, lines: nat): (r: Read)
    ensures r.Got? ==> |r.rest| < |s| && lines < r.lines
  {
    ReadFrom(FRESH, s, lines)
  }

  /** `list(csv.reader(...))`. */
  function AllRows(s: string): seq<CsvRow>
    decreases |s|
  {
    var r := NextRow(s, 0);
    if r.End? then [] else [r.row] + AllRows(r.rest)
  }

  // --------------------------------------------------------------- facts about a line

  lemma {:induction false} FeedAllConcat(p: Parser, a: string, b: string)
    ensures FeedAll(p, a + b) == FeedAll(FeedAll(p, a), b)
    decreases |a|
  {
    if a == "" {
      assert a + b == b;
    } else {
      assert (a + b)[1..] == a[1..] + b;
      FeedAllConcat(Feed(p, a[0]), a[1..], b);
    }
  }

  predicate Between(p: Parser) {
    p.mode.StartRecord? || p.mode.InQuotes?
  }

  lemma {:induction false} NoNewlineKeepsMode(p: Parser, s: string)
    requires !p.mode.EatNewline? && !p.mode.Bad? && forall i :: 0 <= i < |s| ==> !IsNewline(s[i])
    ensures !FeedAll(p, s).mode.EatNewline? && !FeedAll(p, s).mode.Bad?
    decreases |s|
  {
    if s != "" {
      NoNewlineKeepsMode(Feed(p, s[0]), s[1..]);
    }
  }

  lemma {:induction false} LineEndIsFirst(s: string)
    requires LineEnd(s).Some?
    ensures var n := LineEnd(s).value;
      var body := if n >= 2 && s[n - 2] == '\r' && s[n - 1] == '\n' then n - 2 else n - 1;
      forall i :: 0 <= i < body ==> !IsNewline(s[i])
  {
    if !IsNewline(s[0]) {
      LineEndIsFirst(s[1..]);
    }
  }

  lemma {:induction false} FeedEnd(q: Parser)
    requires !q.mode.EatNewline? && !q.mode.Bad?
    ensures Between(EndLine(FeedAll(q, "\n"))) && Between(EndLine(FeedAll(q, "\r")))
    ensures Between(EndLine(FeedAll(q, "\r\n")))
  {
    assert FeedAll(q, "\n") == Feed(q, '\n');
    assert FeedAll(q, "\r") == Feed(q, '\r');
    FeedAllConcat(q, "\r", "\n");
    assert "\r" + "\n" == "\r\n";
    assert FeedAll(Feed(q, '\r'), "\n") == Feed(Feed(q, '\r'), '\n');
  }

  /**
   A line of text never breaks the automaton: after it, a record has ended or a quoted
   field is still open.  ("new-line character seen in unquoted field" cannot be raised.)
   */
  lemma {:induction false} LineLeavesBetween(p: Parser, s: string)
    requires Between(p)
    ensures LineEnd(s).Some? ==> Between(Line(p, s[..LineEnd(s).value]))
    ensures LineEnd(s).None? ==> Between(Line(p, s))
  {
    LineEndFinds(s);
    if LineEnd(s).None? {
      NoNewlineKeepsMode(p, s);
    } else {
      var n := LineEnd(s).value;
      LineEndIsFirst(s);
      var end := if n >= 2 && s[n - 2] == '\r' && s[n - 1] == '\n' then "\r\n" else [s[n - 1]];
      var body := s[..n - |end|];
      NoNewlineKeepsMode(p, body);
      assert s[..n] == body + end;
      FeedAllConcat(p, body, end);
      FeedEnd(FeedAll(p, body));
    }
  }

  /** Reading on from a text that only grows behind its last line. */
  lemma {:induction false} LineEndStable(s: string, t: string)
    requires LineEnd(s).Some?
    requires LineEnd(s).value < |s| || s[|s| - 1] == '\n' || t == "" || t[0] != '\n'
    ensures LineEnd(s + t) == LineEnd(s)
  {
    if !IsNewline(s[0]) {
      assert (s + t)[1..] == s[1..] + t;
      LineEndStable(s[1..], t);
    }
  }

  lemma {:induction false} LineEndJoinsCrLf(s: string, t: string)
    requires LineEnd(s) == Some(|s|) && s[|s| - 1] == '\r' && t != "" && t[0] == '\n'
    ensures LineEnd(s + t) == Some(|s| + 1)
  {
    if !IsNewline(s[0]) {
      assert (s + t)[1..] == s[1..] + t;
      LineEndJoinsCrLf(s[1..], t);
    }
  }

  lemma {:induction false} LineEndSkips(s: string, t: string)
    requires LineEnd(s).None?
    ensures LineEnd(s + t) == if LineEnd(t).None? then None else Some(|s| + LineEnd(t).value)
  {
    if s == "" {
      assert s + t == t;
    } else {
      assert (s + t)[1..] == s[1..] + t;
      LineEndSkips(s[1..], t);
    }
  }
}
