/**
 Processes importing one growing JSONL file by byte offset (`JsonlSourceConnector` in
 monitor_app/services/connectors.py).  A poll that read no record saves its offset without
 the cursor check, and that is what can go wrong.

 Only complete lines are read, and a line that holds no record is passed over.  The cursor
 is the offset behind the last line that was read.  The runs interleave any number of polls.
 */
module JsonlSource {
  import opened Options
  import opened SourceStore

  type Pid = int

  /** The record on a line, if there is one: not blank, parsable, an object. */
  type Parse = string -> Option<RawRecord>

  /** The length of the first line with its line feed. */
  function LineLength(s: string): (r: Option<nat>)
    ensures r.Some? ==> 1 <= r.value <= |s| && s[r.value - 1] == '\n'
  {
    if s == "" then None
    else if s[0] == '\n' then Some(1)
    else
      var r := LineLength(s[1..]);
      if r.None? then None else Some(r.value + 1)
  }

  function RecordOn(parse: Parse, line: string): seq<RawRecord> {
    match parse(line) case None => [] case Some(raw) => [raw]
  }

  /** The records on the complete lines. */
  function Records(parse: Parse, s: string): seq<RawRecord>
    decreases |s|
  {
    var n := LineLength(s);
    if n.None? then []
    else
      RecordOn(parse, s[..n.value - 1]) + Records(parse, s[n.value..])
  }

  /** The length of the complete lines. */
  function Consumed(s: string): (n: nat)
    ensures n <= |s|
    decreases |s|
  {
    var n := LineLength(s);
    if n.None? then 0 else n.value + Consumed(s[n.value..])
  }

  predicate EndsLine(s: string) {
    s == "" || s[|s| - 1] == '\n'
  }

  lemma {:induction false} LineInFront(s: string, t: string)
    requires LineLength(s).Some?
    ensures LineLength(s + t) == LineLength(s)
  {
    if s[0] != '\n' {
      assert (s + t)[1..] == s[1..] + t;
      LineInFront(s[1..], t);
    }
  }

  lemma {:induction false} HasLine(s: string)
    requires EndsLine(s) && s != ""
    ensures LineLength(s).Some?
  {
    if s[0] != '\n' {
      HasLine(s[1..]);
    }
  }

  lemma {:induction false} ConsumedEndsLine(s: string)
    ensures EndsLine(s[..Consumed(s)])
    decreases |s|
  {
    hide LineLength;
    var n := LineLength(s);
    if n.Some? {
      var rest := s[n.value..];
      ConsumedEndsLine(rest);
      if Consumed(rest) > 0 {
        assert s[..Consumed(s)][Consumed(s) - 1] == rest[..Consumed(rest)][Consumed(rest) - 1];
      }
    }
  }

  /** Lines read in two parts. */
  lemma {:induction false} LinesInParts(parse: Parse, s: string, t: string)
    requires EndsLine(s)
    ensures Records(parse, s + t) == Records(parse, s) + Records(parse, t)
    ensures Consumed(s + t) == |s| + Consumed(t)
    decreases |s|
  {
    hide Records, Consumed, LineLength;
    if s == "" {
      assert s + t == t;
      NoLines(parse);
    } else {
      HasLine(s);
      LineInFront(s, t);
      var n := LineLength(s).value;
      FirstLine(parse, s, n);
      FirstLine(parse, s + t, n);
      Cuts(s, t, n);
      LinesInParts(parse, s[n..], t);
      Associative(RecordOn(parse, s[..n - 1]), Records(parse, s[n..]), Records(parse, t));
    }
  }

  lemma {:induction false} Cuts(s: string, t: string, n: nat)
    requires 0 < n <= |s|
    ensures (s + t)[..n - 1] == s[..n - 1] && (s + t)[n..] == s[n..] + t
    ensures EndsLine(s) ==> EndsLine(s[n..])
  {
  }

  lemma {:induction false} NoLines(parse: Parse)
    ensures Records(parse, "") == [] && Consumed("") == 0
  {
  }

  lemma {:induction false} FirstLine(parse: Parse, s: string, n: nat)
    requires LineLength(s) == Some(n)
    ensures 0 < n <= |s|
    ensures Records(parse, s) == RecordOn(parse, s[..n - 1]) + Records(parse, s[n..])
    ensures Consumed(s) == n + Consumed(s[n..])
  {
  }

  /** Lines, each with its line feed. */
  function LinesText(lines: seq<string>): string {
    if lines == [] then "" else lines[0] + "\n" + LinesText(lines[1..])
  }

  predicate NoLineFeed(line: string) {
    '\n' !in line
  }

  lemma {:induction false} LengthOfLine(line: string, rest: string)
    requires NoLineFeed(line)
    ensures LineLength(line + "\n" + rest) == Some(|line| + 1)
  {
    var s := line + "\n" + rest;
    if line == "" {
      assert s[0] == '\n';
    } else {
      assert s[0] == line[0] && s[1..] == line[1..] + "\n" + rest;
      LengthOfLine(line[1..], rest);
    }
  }

  lemma {:induction false} NoWholeLine(tail: string)
    requires NoLineFeed(tail)
    ensures LineLength(tail).None?
  {
    if tail != "" {
      NoWholeLine(tail[1..]);
    }
  }

  /**
   Whatever lines a text is made of, and whatever unfinished line follows: each line that
   holds a record yields it, in their order and each once, and exactly the lines are read.
   */
  lemma {:induction false} RecordsOfLines(parse: Parse, lines: seq<string>, tail: string) returns (at: seq<nat>)
    requires (forall i :: 0 <= i < |lines| ==> NoLineFeed(lines[i])) && NoLineFeed(tail)
    ensures Picked(parse, lines, Records(parse, LinesText(lines) + tail), at)
    ensures Consumed(LinesText(lines) + tail) == |LinesText(lines)|
  {
    hide Picked, Records, Consumed, LineLength;
    PickedOne(parse, "");
    if lines == [] {
      at := [];
      NoWholeLine(tail);
      NoLine(parse, tail);
      assert LinesText(lines) + tail == tail;
    } else {
      var line, after := lines[0], LinesText(lines[1..]) + tail;
      var text := LinesText(lines) + tail;
      var places := RecordsOfLines(parse, lines[1..], tail);
      assert text == line + "\n" + after;
      LengthOfLine(line, after);
      FirstLine(parse, text, |line| + 1);
      assert text[..|line|] == line && text[|line| + 1..] == after;
      PickedOne(parse, line);
      var place := if parse(line).Some? then [0] else [];
      PickedBoth(parse, [line], RecordOn(parse, line), place, lines[1..], Records(parse, after), places);
      assert [line] + lines[1..] == lines;
      at := place + Shifted(places, 1);
    }
  }

  /** Every text that ends with a line feed is made of lines. */
  lemma {:induction false} LinesOf(s: string) returns (lines: seq<string>)
    requires EndsLine(s)
    ensures LinesText(lines) == s && forall i :: 0 <= i < |lines| ==> NoLineFeed(lines[i])
    decreases |s|
  {
    if s == "" {
      lines := [];
    } else {
      HasLine(s);
      var n := LineLength(s).value;
      FirstLineFeed(s);
      Cuts(s, "", n);
      var rest := LinesOf(s[n..]);
      lines := [s[..n - 1]] + rest;
      assert lines[1..] == rest && s == s[..n - 1] + "\n" + s[n..];
    }
  }

  lemma {:induction false} FirstLineFeed(s: string)
    requires LineLength(s).Some?
    ensures NoLineFeed(s[..LineLength(s).value - 1])
  {
    if s[0] != '\n' {
      FirstLineFeed(s[1..]);
      assert s[..LineLength(s).value - 1] == [s[0]] + s[1..][..LineLength(s[1..]).value - 1];
    }
  }

  /** What a process reads behind `offset`, and where its complete lines end. */
  function Behind(parse: Parse, file: string, offset: nat): (r: (seq<RawRecord>, nat))
    requires offset <= |file|
  {
    (Records(parse, file[offset..]), offset + Consumed(file[offset..]))
  }

  /** The offset a poll starts from: a file that shrank is read from the start. */
  function StartAt(file: string, saved: Option<nat>): (o: nat)
    ensures o <= |file|
  {
    if saved.None? || |file| < saved.value then 0 else saved.value
  }

  /** Nothing was read yet, or the file is shorter than what was read. */
  predicate FromTheStart(file: string, saved: Option<nat>) {
    saved.None? || |file| < saved.value
  }

  /** `poll_once`, when nobody interferes: a file that shrank is read again as a whole. */
  method Poll(db: Target<nat>, parse: Parse, convert: Converter, file: string, commits: bool)
    returns (inserted: nat)
    modifies db
    ensures !commits ==> db.store == old(db.store)
    ensures commits ==>
      var offset := StartAt(file, old(db.store.cursor));
      var (raws, pos) := Behind(parse, file, offset);
      && db.store.table == old(db.store.table) + Converted(convert, raws)
      && db.store.cursor == (if pos > offset then Some(pos) else old(db.store.cursor))
    ensures commits && FromTheStart(file, old(db.store.cursor)) ==>
      && db.store.table == old(db.store.table) + Converted(convert, Records(parse, file))
      && db.store.cursor == if Consumed(file) > 0 then Some(Consumed(file)) else old(db.store.cursor)
    ensures commits && !FromTheStart(file, old(db.store.cursor)) ==>
      var c := old(db.store.cursor).value;
      && db.store.table == old(db.store.table) + Converted(convert, Records(parse, file[c..]))
      && db.store.cursor == Some(c + Consumed(file[c..]))
    ensures inserted == |db.store.table| - |old(db.store.table)|
  {
    assert file[0..] == file;
    var saved := db.store.cursor;
    var offset := StartAt(file, saved);
    if |file| == offset {
      return 0;
    }
    var raws, pos := ReadLines(parse, file, offset);
    NoLineNoRecord(parse, file[offset..]);
    if raws == [] {
      if pos > offset && commits {
        db.store := db.store.(cursor := Some(pos));
      }
      return 0;
    }
    inserted := db.Write(convert, raws, pos, saved, commits);
  }

  lemma {:induction false} NoLineNoRecord(parse: Parse, s: string)
    ensures Consumed(s) == 0 ==> Records(parse, s) == []
  {
  }

  /** The loop over `buf.split(LF)[:-1]`. */
  method ReadLines(parse: Parse, file: string, offset: nat) returns (raws: seq<RawRecord>, pos: nat)
    requires offset <= |file|
    ensures (raws, pos) == Behind(parse, file, offset)
  {
    hide Records, Consumed, LineLength;
    raws, pos := [], offset;
    var more := true;
    while more
      invariant offset <= pos <= |file|
      invariant raws + Records(parse, file[pos..]) == Records(parse, file[offset..])
      invariant pos + Consumed(file[pos..]) == offset + Consumed(file[offset..])
      invariant !more ==> Records(parse, file[pos..]) == [] && Consumed(file[pos..]) == 0
      decreases |file| - pos, more
    {
      var rest := file[pos..];
      var n := LineLength(rest);
      if n.None? {
        NoLine(parse, rest);
        more := false;
      } else {
        FirstLine(parse, rest, n.value);
        assert rest[n.value..] == file[pos + n.value..];
        pos := pos + n.value;
        raws := raws + RecordOn(parse, rest[..n.value - 1]);
      }
    }
    assert raws + [] == raws;
  }

  lemma {:induction false} NoLine(parse: Parse, s: string)
    requires LineLength(s).None?
    ensures Records(parse, s) == [] && Consumed(s) == 0
  {
  }

  // ------------------------------------------------------------------------ all processes

  datatype Process =
    | Idle
    | Begun(saved: Option<nat>)
    | Fetched(saved: Option<nat>, raws: seq<RawRecord>, offset: nat, pos: nat)

  datatype System = System(file: string, store: Store<nat>, processes: map<Pid, Process>)

  datatype Event =
    | Append(bytes: string)
    | Begin(p: Pid)
    | Fetch(p: Pid)
    | Write(p: Pid, commits: bool)
    | Crash(p: Pid)

  function At(s: System, p: Pid): Process {
    if p in s.processes then s.processes[p] else Idle
  }

  function Saved(s: System, p: Pid): Option<nat> {
    if At(s, p).Idle? then None else At(s, p).saved
  }

  /** What the write of a fetched process does to the store. */
  function Stored(convert: Converter, store: Store<nat>, f: Process): Store<nat>
    requires f.Fetched?
  {
    if f.raws == [] then (if f.pos > f.offset then store.(cursor := Some(f.pos)) else store)
    else Written(store, Converted(convert, f.raws), f.pos, f.saved)
  }

  ghost predicate Next(parse: Parse, convert: Converter, s: System, e: Event, s': System) {
    match e
    case Append(bytes) => s' == s.(file := s.file + bytes)
    case Begin(p) => At(s, p).Idle? && s' == s.(processes := s.processes[p := Begun(s.store.cursor)])
    case Fetch(p) =>
      At(s, p).Begun? &&
      (var offset := StartAt(s.file, At(s, p).saved);
       var (raws, pos) := Behind(parse, s.file, offset);
       s' == s.(processes := s.processes[p := Fetched(At(s, p).saved, raws, offset, pos)]))
    case Write(p, commits) =>
      At(s, p).Fetched?
      && s' == s.(processes := s.processes[p := Idle],
                  store := if commits then Stored(convert, s.store, At(s, p)) else s.store)
    case Crash(p) => s' == s.(processes := s.processes[p := Idle])
  }

  function Offset(cursor: Option<nat>): nat {
    if cursor.None? then 0 else cursor.value
  }

  /** The table holds each record up to the cursor exactly once. */
  ghost predicate OnceUpTo(parse: Parse, convert: Converter, file: string, store: Store<nat>) {
    && Offset(store.cursor) <= |file| && EndsLine(file[..Offset(store.cursor)])
    && store.table == Converted(convert, Records(parse, file[..Offset(store.cursor)]))
  }

  /**
   The table holds what the lines yield that can be parsed and converted, in their order
   and each once, and nothing else; `at` are these lines.
   */
  ghost predicate LinesImported(parse: Parse, convert: Converter, lines: seq<string>, table: seq<string>,
                                at: seq<nat>) {
    && |at| == |table| && Increasing(at)
    && (forall i :: 0 <= i < |at| ==>
          at[i] < |lines| && parse(lines[at[i]]).Some? && convert(parse(lines[at[i]]).value) == Some(table[i]))
    && (forall k :: 0 <= k < |lines| && parse(lines[k]).Some? && convert(parse(lines[k]).value).Some? ==> k in at)
  }

  /** What `OnceUpTo` says about the lines up to the cursor. */
  lemma {:induction false} OnceMeans(parse: Parse, convert: Converter, file: string, store: Store<nat>)
    returns (lines: seq<string>, at: seq<nat>)
    requires OnceUpTo(parse, convert, file, store)
    ensures file[..Offset(store.cursor)] == LinesText(lines)
    ensures forall i :: 0 <= i < |lines| ==> NoLineFeed(lines[i])
    ensures LinesImported(parse, convert, lines, store.table, at)
  {
    hide Picked, Records, Converted;
    var text := file[..Offset(store.cursor)];
    lines := LinesOf(text);
    assert LinesText(lines) + "" == text;
    var first := RecordsOfLines(parse, lines, "");
    var raws := Records(parse, text);
    var then_ := ConvertedOnce(convert, raws);
    var both := (line: string) => if parse(line).None? then None else convert(parse(line).value);
    at := PickedThrough(parse, convert, both, lines, raws, store.table, first, then_);
    BothPicked(parse, convert, both, lines, store.table, at);
  }

  lemma {:induction false} BothPicked(parse: Parse, convert: Converter, both: string -> Option<string>,
                                      lines: seq<string>, table: seq<string>, at: seq<nat>)
    requires forall line :: both(line) == if parse(line).None? then None else convert(parse(line).value)
    requires Picked(both, lines, table, at)
    ensures LinesImported(parse, convert, lines, table, at)
  {
  }

  ghost predicate ProcessOk(parse: Parse, s: System, p: Pid) {
    && (!At(s, p).Idle? ==> Offset(Saved(s, p)) <= |s.file| && EndsLine(s.file[..Offset(Saved(s, p))]))
    && (At(s, p).Fetched? ==>
          var f := At(s, p);
          && f.offset == Offset(f.saved) <= f.pos <= |s.file|
          && EndsLine(s.file[..f.pos]) && EndsLine(s.file[f.offset..f.pos])
          && f.raws == Records(parse, s.file[f.offset..f.pos]))
  }

  ghost predicate Inv(parse: Parse, convert: Converter, s: System) {
    OnceUpTo(parse, convert, s.file, s.store) && forall p :: ProcessOk(parse, s, p)
  }

  /** There is nothing to convert between two offsets, whichever comes first. */
  predicate NothingBetween(parse: Parse, convert: Converter, file: string, a: nat, b: nat)
    requires a <= |file| && b <= |file|
  {
    Converted(convert, Records(parse, if a <= b then file[a..b] else file[b..a])) == []
  }

  /** A write that is not checked moves the cursor over nothing that could be imported. */
  predicate Harmless(parse: Parse, convert: Converter, s: System, e: Event) {
    e.Write? && e.commits && At(s, e.p).Fetched? && At(s, e.p).raws == [] ==>
      var f := At(s, e.p);
      f.pos > f.offset ==>
        && f.pos <= |s.file| && Offset(s.store.cursor) <= |s.file|
        && NothingBetween(parse, convert, s.file, Offset(s.store.cursor), f.pos)
  }

  /** Above all, a write that finds the cursor as its poll read it is harmless. */
  lemma {:induction false} AsReadIsHarmless(parse: Parse, convert: Converter, s: System, p: Pid, commits: bool)
    requires Inv(parse, convert, s) && At(s, p).Fetched? && s.store.cursor == At(s, p).saved
    ensures Harmless(parse, convert, s, Write(p, commits))
  {
    hide Records, Converted, EndsLine;
    assert ProcessOk(parse, s, p);
    NothingConverted(convert);
  }

  lemma {:induction false} AppendKeeps(parse: Parse, convert: Converter, s: System, bytes: string)
    requires Inv(parse, convert, s)
    ensures Inv(parse, convert, s.(file := s.file + bytes))
  {
    hide Records, Converted;
    var s' := s.(file := s.file + bytes);
    var o := Offset(s.store.cursor);
    assert s'.file[..o] == s.file[..o];
    forall p ensures ProcessOk(parse, s', p) {
      assert ProcessOk(parse, s, p) && At(s', p) == At(s, p);
      if !At(s, p).Idle? {
        assert s'.file[..Offset(Saved(s, p))] == s.file[..Offset(Saved(s, p))];
        if At(s, p).Fetched? {
          var f := At(s, p);
          assert s'.file[..f.pos] == s.file[..f.pos] && s'.file[f.offset..f.pos] == s.file[f.offset..f.pos];
        }
      }
    }
  }

  lemma {:induction false} FetchedIs(parse: Parse, file: string, offset: nat)
    requires offset <= |file| && EndsLine(file[..offset])
    ensures var (raws, pos) := Behind(parse, file, offset);
      && offset <= pos <= |file| && EndsLine(file[..pos]) && EndsLine(file[offset..pos])
      && raws == Records(parse, file[offset..pos])
  {
    hide Records, Consumed, EndsLine;
    var rest := file[offset..];
    var n := Consumed(rest);
    ConsumedEndsLine(rest);
    assert rest == rest[..n] + rest[n..];
    LinesInParts(parse, rest[..n], rest[n..]);
    NoLineNoRecord(parse, rest[n..]);
    assert rest[..n] == file[offset..offset + n];
    assert file[..offset + n] == file[..offset] + rest[..n];
    EndsLineTogether(file[..offset], rest[..n]);
  }

  lemma {:induction false} EndsLineTogether(a: string, b: string)
    requires EndsLine(a) && EndsLine(b)
    ensures EndsLine(a + b)
  {
  }

  lemma {:induction false} StepOthers(parse: Parse, convert: Converter, s: System, p: Pid, now: Process)
    requires Inv(parse, convert, s)
    requires ProcessOk(parse, s.(processes := s.processes[p := now]), p)
    ensures Inv(parse, convert, s.(processes := s.processes[p := now]))
  {
    hide Records, Converted;
    var s' := s.(processes := s.processes[p := now]);
    forall q ensures ProcessOk(parse, s', q) {
      assert ProcessOk(parse, s, q);
    }
  }

  /** A file up to two offsets, and the lines between them. */
  lemma {:induction false} UpToParts(parse: Parse, convert: Converter, file: string, a: nat, b: nat)
    requires a <= b <= |file| && EndsLine(file[..a])
    ensures Converted(convert, Records(parse, file[..b]))
         == Converted(convert, Records(parse, file[..a])) + Converted(convert, Records(parse, file[a..b]))
  {
    hide Records, Converted;
    assert file[..b] == file[..a] + file[a..b];
    LinesInParts(parse, file[..a], file[a..b]);
    ConvertedConcat(convert, Records(parse, file[..a]), Records(parse, file[a..b]));
  }

  /**
   What an unchecked write does: wherever the cursor is meanwhile, the table still holds
   each record up to it once if and only if there is nothing to convert between the two
   offsets.
   */
  lemma {:induction false} UncheckedWrite(parse: Parse, convert: Converter, s: System, p: Pid)
    requires Inv(parse, convert, s) && At(s, p).Fetched? && At(s, p).raws == []
    ensures OnceUpTo(parse, convert, s.file, Stored(convert, s.store, At(s, p)))
      <==> Harmless(parse, convert, s, Write(p, true))
  {
    hide Records, Converted, EndsLine;
    assert ProcessOk(parse, s, p);
    var c, pos := Offset(s.store.cursor), At(s, p).pos;
    if c <= pos {
      UpToParts(parse, convert, s.file, c, pos);
    } else {
      UpToParts(parse, convert, s.file, pos, c);
    }
  }

  lemma {:induction false} StoredOk(parse: Parse, convert: Converter, s: System, p: Pid)
    requires Inv(parse, convert, s) && At(s, p).Fetched? && Harmless(parse, convert, s, Write(p, true))
    ensures OnceUpTo(parse, convert, s.file, Stored(convert, s.store, At(s, p)))
  {
    hide Records, Converted, EndsLine;
    assert ProcessOk(parse, s, p);
    var f := At(s, p);
    if f.raws == [] {
      UncheckedWrite(parse, convert, s, p);
    } else if s.store.cursor == f.saved {
      UpToParts(parse, convert, s.file, f.offset, f.pos);
    }
  }

  lemma {:induction false} NothingConverted(convert: Converter)
    ensures Converted(convert, []) == []
  {
  }

  lemma {:induction false} NextKeeps(parse: Parse, convert: Converter, s: System, e: Event, s': System)
    requires Inv(parse, convert, s) && Next(parse, convert, s, e, s') && Harmless(parse, convert, s, e)
    ensures Inv(parse, convert, s')
  {
    hide Records, Converted, EndsLine, Inv;
    match e
    case Append(bytes) => AppendKeeps(parse, convert, s, bytes);
    case Begin(p) => BeginKeeps(parse, convert, s, p);
    case Fetch(p) => FetchKeeps(parse, convert, s, p, s');
    case Write(p, commits) => WriteKeeps(parse, convert, s, p, commits, s');
    case Crash(p) => StepOthers(parse, convert, s, p, Idle);
  }

  lemma {:induction false} BeginKeeps(parse: Parse, convert: Converter, s: System, p: Pid)
    requires Inv(parse, convert, s)
    ensures Inv(parse, convert, s.(processes := s.processes[p := Begun(s.store.cursor)]))
  {
    hide Records, Converted, EndsLine;
    StepOthers(parse, convert, s, p, Begun(s.store.cursor));
  }

  lemma {:induction false} FetchKeeps(parse: Parse, convert: Converter, s: System, p: Pid, s': System)
    requires Inv(parse, convert, s) && Next(parse, convert, s, Fetch(p), s')
    ensures Inv(parse, convert, s')
  {
    hide Records, Converted, Consumed;
    assert ProcessOk(parse, s, p);
    var offset := StartAt(s.file, At(s, p).saved);
    assert offset == Offset(At(s, p).saved);
    FetchedIs(parse, s.file, offset);
    StepOthers(parse, convert, s, p, s'.processes[p]);
  }

  lemma {:induction false} WriteKeeps(parse: Parse, convert: Converter, s: System, p: Pid, commits: bool, s': System)
    requires Inv(parse, convert, s) && Next(parse, convert, s, Write(p, commits), s')
    requires Harmless(parse, convert, s, Write(p, commits))
    ensures Inv(parse, convert, s')
  {
    hide Records, Converted, EndsLine, Stored;
    if commits {
      StoredOk(parse, convert, s, p);
    }
    forall q ensures ProcessOk(parse, s', q) {
      assert ProcessOk(parse, s, q);
    }
  }

  ghost predicate Run(parse: Parse, convert: Converter, states: seq<System>, events: seq<Event>) {
    && |states| == |events| + 1
    && states[0] == System("", Store([], None), map[])
    && forall i :: 0 <= i < |events| ==> Next(parse, convert, states[i], events[i], states[i + 1])
  }

  lemma {:induction false} OnceIfHarmless(parse: Parse, convert: Converter, states: seq<System>, events: seq<Event>,
                                          i: nat)
    requires Run(parse, convert, states, events) && i < |states|
    requires forall k :: 0 <= k < i ==> Harmless(parse, convert, states[k], events[k])
    ensures Inv(parse, convert, states[i])
  {
    hide Next, Harmless;
    if i == 0 {
      assert OnceUpTo(parse, convert, "", Store([], None));
    } else {
      OnceIfHarmless(parse, convert, states, events, i - 1);
      NextKeeps(parse, convert, states[i - 1], events[i - 1], states[i]);
    }
  }

  lemma {:induction false} HarmlessIfOnce(parse: Parse, convert: Converter, states: seq<System>, events: seq<Event>,
                                          i: nat)
    requires Run(parse, convert, states, events) && i < |states|
    requires forall k :: 0 <= k <= i ==> OnceUpTo(parse, convert, states[k].file, states[k].store)
    ensures forall k :: 0 <= k < i ==> Harmless(parse, convert, states[k], events[k])
  {
    hide OnceUpTo, Harmless, Inv;
    if i > 0 {
      HarmlessIfOnce(parse, convert, states, events, i - 1);
      OnceIfHarmless(parse, convert, states, events, i - 1);
      HarmlessStep(parse, convert, states[i - 1], events[i - 1], states[i]);
    }
  }

  lemma {:induction false} HarmlessStep(parse: Parse, convert: Converter, s: System, e: Event, s': System)
    requires Inv(parse, convert, s) && Next(parse, convert, s, e, s')
    requires OnceUpTo(parse, convert, s'.file, s'.store)
    ensures Harmless(parse, convert, s, e)
  {
    if e.Write? && e.commits && At(s, e.p).raws == [] {
      hide OnceUpTo, Harmless, Inv, Stored;
      UncheckedWrite(parse, convert, s, e.p);
    }
  }

  /**
   Main result.  In every run, the table holds each record up to the cursor exactly once
   all along if and only if no unchecked write moves the cursor, forwards or backwards,
   over something that can be imported.
   */
  lemma {:induction false} EachRecordOnce(parse: Parse, convert: Converter, states: seq<System>, events: seq<Event>)
    requires Run(parse, convert, states, events)
    ensures (forall i :: 0 <= i < |states| ==> OnceUpTo(parse, convert, states[i].file, states[i].store))
      <==> (forall k :: 0 <= k < |events| ==> Harmless(parse, convert, states[k], events[k]))
  {
    hide OnceUpTo, Harmless, Next;
    if forall k :: 0 <= k < |events| ==> Harmless(parse, convert, states[k], events[k]) {
      forall i | 0 <= i < |states| ensures OnceUpTo(parse, convert, states[i].file, states[i].store) {
        OnceIfHarmless(parse, convert, states, events, i);
      }
    }
    if forall i :: 0 <= i < |states| ==> OnceUpTo(parse, convert, states[i].file, states[i].store) {
      HarmlessIfOnce(parse, convert, states, events, |events|);
    }
  }

  /**
   A run in which that happens: the second process imports the record that follows a blank
   line while the first has only read the blank line.  The next poll imports it again.
   */
  lemma {:induction false} RecordTwice() returns (states: seq<System>, events: seq<Event>)
    ensures Run(IsRecord, AsItIs, states, events)
    ensures states[|events|].store.table == ["a", "a"] && states[|events|].file == "\na\n"
  {
    hide Run, Next, Records, Consumed, Converted;
    ParseFacts();
    states, events := OneReadsTheBlankLine();
    states, events := TheOtherImports(states, events);
    states, events := OneGoesBack(states, events);
  }

  lemma {:induction false} OneReadsTheBlankLine() returns (states: seq<System>, events: seq<Event>)
    ensures Run(IsRecord, AsItIs, states, events) && |states| == |events| + 1
    ensures states[|events|] == System("\n", Store([], None), map[1 := Fetched(None, [], 0, 1)])
  {
    hide Run, Records, Consumed, Converted;
    ParseFacts();
    var s0 := System("", Store([], None), map[]);
    var s1 := s0.(file := "" + "\n");
    var s2 := s1.(processes := map[1 := Begun(None)]);
    var s3 := s2.(processes := s2.processes[1 := Fetched(None, [], 0, 1)]);
    assert s1.file[0..] == "\n";
    states, events := [s0], [];
    Starts(s0);
    states, events := RunOn(states, events, Append("\n"), s1);
    states, events := RunOn(states, events, Begin(1), s2);
    states, events := RunOn(states, events, Fetch(1), s3);
  }

  lemma {:induction false} TheOtherImports(was: seq<System>, did: seq<Event>)
    returns (states: seq<System>, events: seq<Event>)
    requires Run(IsRecord, AsItIs, was, did) && |was| == |did| + 1
    requires was[|did|] == System("\n", Store([], None), map[1 := Fetched(None, [], 0, 1)])
    ensures Run(IsRecord, AsItIs, states, events) && |states| == |events| + 1
    ensures states[|events|]
         == System("\na\n", Store(["a"], Some(3)), map[1 := Fetched(None, [], 0, 1), 2 := Idle])
  {
    hide Run, Records, Consumed, Converted;
    ParseFacts();
    var s4 := was[|did|].(file := "\n" + "a\n");
    var s5 := s4.(processes := s4.processes[2 := Begun(None)]);
    var s6 := s5.(processes := s5.processes[2 := Fetched(None, ["a"], 0, 3)]);
    var s7 := s6.(processes := s6.processes[2 := Idle], store := Store(["a"], Some(3)));
    assert s4.file[0..] == s4.file;
    states, events := RunOn(was, did, Append("a\n"), s4);
    states, events := RunOn(states, events, Begin(2), s5);
    states, events := RunOn(states, events, Fetch(2), s6);
    states, events := RunOn(states, events, Write(2, true), s7);
  }

  lemma {:induction false} OneGoesBack(was: seq<System>, did: seq<Event>)
    returns (states: seq<System>, events: seq<Event>)
    requires Run(IsRecord, AsItIs, was, did) && |was| == |did| + 1
    requires was[|did|] == System("\na\n", Store(["a"], Some(3)), map[1 := Fetched(None, [], 0, 1), 2 := Idle])
    ensures Run(IsRecord, AsItIs, states, events) && |states| == |events| + 1
    ensures states[|events|].store.table == ["a", "a"] && states[|events|].file == "\na\n"
  {
    hide Run, Records, Consumed, Converted;
    ParseFacts();
    var s7 := was[|did|];
    var s8 := s7.(processes := s7.processes[1 := Idle], store := Store(["a"], Some(1)));
    var s9 := s8.(processes := s8.processes[1 := Begun(Some(1))]);
    var s10 := s9.(processes := s9.processes[1 := Fetched(Some(1), ["a"], 1, 3)]);
    var s11 := s10.(processes := s10.processes[1 := Idle], store := Store(["a", "a"], Some(3)));
    assert s7.file[1..] == "a\n";
    states, events := RunOn(was, did, Write(1, true), s8);
    states, events := RunOn(states, events, Begin(1), s9);
    states, events := RunOn(states, events, Fetch(1), s10);
    states, events := RunOn(states, events, Write(1, true), s11);
  }

  lemma {:induction false} Starts(s: System)
    requires s == System("", Store([], None), map[])
    ensures Run(IsRecord, AsItIs, [s], [])
  {
  }

  lemma {:induction false} RunOn(was: seq<System>, did: seq<Event>, e: Event, s: System)
    returns (states: seq<System>, events: seq<Event>)
    requires |was| == |did| + 1 && Run(IsRecord, AsItIs, was, did) && Next(IsRecord, AsItIs, was[|did|], e, s)
    ensures Run(IsRecord, AsItIs, states, events) && |states| == |events| + 1 && states[|events|] == s
  {
    hide Next;
    states, events := was + [s], did + [e];
  }

  function IsRecord(line: string): Option<RawRecord> {
    if line == "" then None else Some(line)
  }

  function AsItIs(raw: RawRecord): Option<string> {
    Some(raw)
  }

  lemma {:induction false} ParseFacts()
    ensures Records(IsRecord, "\n") == [] && Consumed("\n") == 1
    ensures Records(IsRecord, "a\n") == ["a"] && Consumed("a\n") == 2
    ensures Records(IsRecord, "\n" + "a\n") == ["a"] && Consumed("\n" + "a\n") == 3
    ensures Converted(AsItIs, []) == [] && Converted(AsItIs, ["a"]) == ["a"]
    ensures "\n" + "a\n" == "\na\n"
  {
    assert "\n"[1..] == "" && LineLength("") == None;
    assert "a\n"[1..] == "\n" && LineLength("\n") == Some(1) && LineLength("a\n") == Some(2);
    assert "a\n"[2..] == "" && "a\n"[..1] == "a";
    LinesInParts(IsRecord, "\n", "a\n");
    assert ["a"][..0] == [];
  }
}
