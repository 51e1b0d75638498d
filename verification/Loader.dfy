/**
 The bulk loader's input: the file table, the shared cursor with its getline and end-of-file
 rules, and what is still to be read.
 */
module Loader {
  import opened Sequences

  /** A line of the mapper configuration. */
  datatype Mapping = Mapping(file: string, store: string)

  /** The mapper and the files on disk; a file that is not there cannot be opened. */
  datatype Input = Input(mapper: seq<Mapping>, disk: map<string, string>)

  /** The input stream: what is left of the open file, and whether a read has hit its end. */
  datatype Stream = Closed | Open(rest: string, eof: bool)

  datatype Cursor = Cursor(index: nat, stream: Stream)

  /** A line together with the position of its file. */
  datatype Record = Record(file: nat, line: string)

  // ---- the file table ----

  function Files(mapper: seq<Mapping>): (fs: seq<string>)
    ensures |fs| == |mapper|
    ensures forall i :: 0 <= i < |mapper| ==> fs[i] == mapper[i].file
  {
    seq(|mapper|, i requires 0 <= i < |mapper| => mapper[i].file)
  }

  /** Later lines of the mapper overwrite earlier ones for the same file. */
  function Stores(mapper: seq<Mapping>): (m: map<string, string>)
    ensures forall i :: 0 <= i < |mapper| ==> mapper[i].file in m
  {
    if mapper == [] then map[]
    else Stores(mapper[..|mapper| - 1])[mapper[|mapper| - 1].file := mapper[|mapper| - 1].store]
  }

  /** A file's store is that of its own mapper line, unless a later line names the same file. */
  lemma {:induction false} StoreOfFile(mapper: seq<Mapping>, i: nat)
    requires i < |mapper|
    requires forall j :: i < j < |mapper| ==> mapper[j].file != mapper[i].file
    ensures Stores(mapper)[mapper[i].file] == mapper[i].store
  {
    if i < |mapper| - 1 {
      StoreOfFile(mapper[..|mapper| - 1], i);
    }
  }

  /** The store is that of the last mapper line with the name of the file. */
  ghost predicate Targets(mapper: seq<Mapping>, file: nat, store: string)
    requires file < |mapper|
  {
    exists j :: 0 <= j < |mapper| && mapper[j].file == mapper[file].file && mapper[j].store == store
                && forall l :: j < l < |mapper| ==> mapper[l].file != mapper[file].file
  }

  lemma {:induction false} LastLineTargets(mapper: seq<Mapping>, file: nat, n: nat)
    requires file < n <= |mapper|
    requires forall l :: n <= l < |mapper| ==> mapper[l].file != mapper[file].file
    ensures Targets(mapper, file, Stores(mapper)[mapper[file].file])
  {
    if mapper[n - 1].file == mapper[file].file {
      StoreOfFile(mapper, n - 1);
    } else {
      LastLineTargets(mapper, file, n - 1);
    }
  }

  function StoreOf(input: Input, file: nat): (store: string)
    requires file < |input.mapper|
    ensures Targets(input.mapper, file, store)
  {
    LastLineTargets(input.mapper, file, |input.mapper|);
    Stores(input.mapper)[input.mapper[file].file]
  }

  // ---- lines of a text ----

  /** Position of the first line break, or the length. */
  function LineEnd(s: string): (n: nat)
    ensures n <= |s|
    ensures n < |s| ==> s[n] == '\n'
    ensures '\n' !in s[..n]
  {
    if s == "" || s[0] == '\n' then 0 else
      var n := 1 + LineEnd(s[1..]);
      assert s[..n] == [s[0]] + s[1..][..n - 1];
      n
  }

  /** The pieces of a text between its line breaks. */
  function Split(s: string): (lines: seq<string>)
    ensures lines != []
  {
    if s == "" then [""]
    else
      var rest := Split(s[1..]);
      if s[0] == '\n' then [""] + rest else [[s[0]] + rest[0]] + rest[1..]
  }

  function Join(lines: seq<string>): string
    requires lines != []
  {
    if |lines| == 1 then lines[0] else lines[0] + "\n" + Join(lines[1..])
  }

  /** Splitting loses nothing: the pieces hold no line break and joined with line breaks give the text. */
  lemma {:induction false} SplitJoin(s: string)
    ensures Join(Split(s)) == s
    ensures forall i :: 0 <= i < |Split(s)| ==> '\n' !in Split(s)[i]
  {
    if s != "" {
      SplitJoin(s[1..]);
      var rest := Split(s[1..]);
      assert s == [s[0]] + s[1..];
      if s[0] == '\n' {
        assert ([""] + rest)[1..] == rest;
      } else if |rest| > 1 {
        assert ([[s[0]] + rest[0]] + rest[1..])[1..] == rest[1..];
        Assoc([s[0]], rest[0], "\n");
        Assoc([s[0]], rest[0] + "\n", Join(rest[1..]));
      }
    }
  }

  /** The first piece ends at the first line break. */
  lemma {:induction false} SplitFirst(s: string)
    ensures var n := LineEnd(s);
            Split(s) == [s[..n]] + (if n < |s| then Split(s[n + 1..]) else [])
  {
    if s != "" && s[0] != '\n' {
      SplitFirst(s[1..]);
      var n := LineEnd(s[1..]);
      assert s[..n + 1] == [s[0]] + s[1..][..n];
      if n < |s| - 1 {
        assert s[n + 2..] == s[1..][n + 1..];
      }
    }
  }

  // ---- readline ----

  /** Result codes of `readline`. */
  datatype Code = Line | FileDone | OpenError | NoMoreFiles

  /** `std::getline` on a stream that has not hit its end: a line, and the stream after it. */
  function GetLine(rest: string): (string, Stream) {
    var n := LineEnd(rest);
    if n < |rest| then (rest[..n], Open(rest[n + 1..], false)) else (rest, Open("", true))
  }

  /** One call of `readline`: the code, the line if there is one, and the cursor after it. */
  function ReadLine(input: Input, c: Cursor): (Code, string, Cursor) {
    if c.index >= |input.mapper| then (NoMoreFiles, "", c)
    else if c.stream.Closed? && input.mapper[c.index].file !in input.disk then (OpenError, "", c)
    else
      var stream := if c.stream.Closed? then Open(input.disk[input.mapper[c.index].file], false) else c.stream;
      if stream.eof then (FileDone, "", Cursor(c.index + 1, Closed))
      else
        var (line, after) := GetLine(stream.rest);
        (Line, line, Cursor(c.index, after))
  }

  /** A cursor past the last file has no open stream. */
  predicate ValidCursor(input: Input, c: Cursor) {
    c.index <= |input.mapper| && (c.index == |input.mapper| ==> c.stream.Closed?)
  }

  const START := Cursor(0, Closed)

  // ---- what is to be loaded ----

  function NonEmpty(lines: seq<string>, file: nat): seq<Record> {
    if lines == [] then []
    else (if lines[0] == "" then [] else [Record(file, lines[0])]) + NonEmpty(lines[1..], file)
  }

  /** The non-empty lines of the files from i on, up to the first file that cannot be opened. */
  function RecordsFrom(input: Input, i: nat): seq<Record>
    requires i <= |input.mapper|
    decreases |input.mapper| - i
  {
    if i == |input.mapper| || input.mapper[i].file !in input.disk then []
    else NonEmpty(Split(input.disk[input.mapper[i].file]), i) + RecordsFrom(input, i + 1)
  }

  /** Everything the loader has to load. */
  function Expected(input: Input): seq<Record> {
    RecordsFrom(input, 0)
  }

  /** What is still to be read. */
  function Remaining(input: Input, c: Cursor): seq<Record>
    requires ValidCursor(input, c)
  {
    match c.stream
    case Closed => RecordsFrom(input, c.index)
    case Open(rest, eof) =>
      (if eof then [] else NonEmpty(Split(rest), c.index)) + RecordsFrom(input, c.index + 1)
  }

  lemma {:induction false} NonEmptyCons(line: string, more: seq<string>, file: nat)
    ensures NonEmpty([line] + more, file)
            == (if line == "" then [] else [Record(file, line)]) + NonEmpty(more, file)
  {
    assert ([line] + more)[1..] == more;
  }

  lemma {:induction false} GetLineTakesFirst(rest: string, file: nat)
    ensures var (line, after) := GetLine(rest);
            && after.Open?
            && NonEmpty(Split(rest), file)
               == (if line == "" then [] else [Record(file, line)])
                  + (if after.eof then [] else NonEmpty(Split(after.rest), file))
  {
    var n := LineEnd(rest);
    SplitFirst(rest);
    if n < |rest| {
      NonEmptyCons(rest[..n], Split(rest[n + 1..]), file);
    } else {
      assert rest[..n] == rest;
      NonEmptyCons(rest, [], file);
    }
  }

  /** Opening a file changes nothing of what remains. */
  lemma {:induction false} OpeningKeeps(input: Input, i: nat)
    requires i < |input.mapper| && input.mapper[i].file in input.disk
    ensures Remaining(input, Cursor(i, Closed))
         == Remaining(input, Cursor(i, Open(input.disk[input.mapper[i].file], false)))
  {
  }

  lemma {:induction false} OpenRemaining(input: Input, i: nat, rest: string, eof: bool)
    requires i < |input.mapper|
    ensures Remaining(input, Cursor(i, Open(rest, eof)))
         == (if eof then [] else NonEmpty(Split(rest), i)) + RecordsFrom(input, i + 1)
  {
  }

  lemma {:induction false} OpenLineTakesNext(input: Input, i: nat, rest: string)
    requires i < |input.mapper|
    ensures var (line, after) := GetLine(rest);
            Remaining(input, Cursor(i, Open(rest, false)))
            == (if line == "" then [] else [Record(i, line)]) + Remaining(input, Cursor(i, after))
  {
    var (line, after) := GetLine(rest);
    var first := if line == "" then [] else [Record(i, line)];
    var others := if after.eof then [] else NonEmpty(Split(after.rest), i);
    GetLineTakesFirst(rest, i);
    OpenRemaining(input, i, rest, false);
    OpenRemaining(input, i, after.rest, after.eof);
    Assoc(first, others, RecordsFrom(input, i + 1));
  }

  /** A line that is read is the next piece of what remains. */
  lemma {:induction false} LineTakesNext(input: Input, c: Cursor)
    requires ValidCursor(input, c) && ReadLine(input, c).0 == Line
    ensures var (_, line, c') := ReadLine(input, c);
            && ValidCursor(input, c')
            && c'.index == c.index < |input.mapper|
            && Remaining(input, c)
               == (if line == "" then [] else [Record(c.index, line)]) + Remaining(input, c')
  {
    if c.stream.Closed? {
      OpeningKeeps(input, c.index);
      OpenLineTakesNext(input, c.index, input.disk[input.mapper[c.index].file]);
    } else {
      OpenLineTakesNext(input, c.index, c.stream.rest);
    }
  }

  /** A file that is closed has nothing left. */
  lemma {:induction false} CloseTakesNothing(input: Input, c: Cursor)
    requires ValidCursor(input, c) && ReadLine(input, c).0 == FileDone
    ensures var (_, _, c') := ReadLine(input, c);
            ValidCursor(input, c') && c'.index == c.index + 1 && Remaining(input, c) == Remaining(input, c')
  {
    var (_, _, c') := ReadLine(input, c);
    assert [] + RecordsFrom(input, c.index + 1) == RecordsFrom(input, c.index + 1);
  }

  /** Each call hands out the next piece of what remains, and stops only when nothing does. */
  lemma {:induction false} ReadLineTakesNext(input: Input, c: Cursor)
    requires ValidCursor(input, c)
    ensures var (code, line, c') := ReadLine(input, c);
            && ValidCursor(input, c')
            && (code != Line ==> line == "")
            && (code == Line ==>
                  && c'.index == c.index < |input.mapper|
                  && Remaining(input, c)
                     == (if line == "" then [] else [Record(c.index, line)]) + Remaining(input, c'))
            && (code == FileDone ==> c'.index == c.index + 1 && Remaining(input, c) == Remaining(input, c'))
            && (code == OpenError || code == NoMoreFiles ==> c' == c && Remaining(input, c) == [])
  {
    match ReadLine(input, c).0
    case Line => LineTakesNext(input, c);
    case FileDone => CloseTakesNothing(input, c);
    case _ =>
  }

  // ---- progress ----

  function FilesMeasure(input: Input, i: nat): nat
    requires i <= |input.mapper|
    decreases |input.mapper| - i
  {
    if i == |input.mapper| then 0
    else
      (if input.mapper[i].file in input.disk then |input.disk[input.mapper[i].file]| + 4 else 0)
      + FilesMeasure(input, i + 1)
  }

  /** Files left, bytes left, and the end not yet seen. */
  function Measure(input: Input, c: Cursor): nat
    requires ValidCursor(input, c)
  {
    match c.stream
    case Closed => FilesMeasure(input, c.index)
    case Open(rest, eof) => (if eof then 1 else |rest| + 2) + FilesMeasure(input, c.index + 1)
  }

  /** Every call that returns a line or closes a file makes progress. */
  lemma {:induction false} ReadLineProgress(input: Input, c: Cursor)
    requires ValidCursor(input, c)
    ensures var (code, _, c') := ReadLine(input, c);
            code == Line || code == FileDone ==> ValidCursor(input, c') && Measure(input, c') < Measure(input, c)
  {
  }

  // ---- one line at a time ----

  /** The records handed out by calling `readline` until it stops, one line for each lock. */
  function OneByOne(input: Input, c: Cursor): seq<Record>
    requires ValidCursor(input, c)
    decreases Measure(input, c)
  {
    ReadLineProgress(input, c);
    var (code, line, c') := ReadLine(input, c);
    if code == OpenError || code == NoMoreFiles then []
    else if code == Line && line != "" then [Record(c'.index, line)] + OneByOne(input, c')
    else OneByOne(input, c')
  }

  /** The one-line loader takes exactly what remains, in order. */
  lemma {:induction false} OneByOneTakesAll(input: Input, c: Cursor)
    requires ValidCursor(input, c)
    ensures OneByOne(input, c) == Remaining(input, c)
    decreases Measure(input, c)
  {
    ReadLineProgress(input, c);
    ReadLineTakesNext(input, c);
    var (code, line, c') := ReadLine(input, c);
    if code == Line || code == FileDone {
      OneByOneTakesAll(input, c');
      OneByOneNext(input, c);
    }
  }

  lemma {:induction false} OneByOneNext(input: Input, c: Cursor)
    requires ValidCursor(input, c)
    ensures var (code, line, c') := ReadLine(input, c);
            code == Line || code == FileDone ==>
              && ValidCursor(input, c')
              && OneByOne(input, c)
                 == (if code == Line && line != "" then [Record(c'.index, line)] else []) + OneByOne(input, c')
  {
    ReadLineProgress(input, c);
    var (code, line, c') := ReadLine(input, c);
    if code == Line || code == FileDone {
      assert [] + OneByOne(input, c') == OneByOne(input, c');
    }
  }

  lemma {:induction false} OneByOneIsExpected(input: Input)
    ensures OneByOne(input, START) == Expected(input)
  {
    OneByOneTakesAll(input, START);
  }

  // ---- the loader object ----

  /** The members of the loader that `config` fills and `readline` moves. */
  class LoaderState {
    const input: Input
    var allLoadFiles: seq<string>
    var fileStoreMap: map<string, string>
    var fileIndex: nat
    var stream: Stream

    constructor (input: Input)
      ensures this.input == input && allLoadFiles == [] && fileStoreMap == map[]
      ensures fileIndex == 0 && stream == Closed
    {
      this.input := input;
      allLoadFiles, fileStoreMap := [], map[];
      fileIndex, stream := 0, Closed;
    }

    predicate Configured()
      reads this
    {
      && allLoadFiles == Files(input.mapper)
      && fileStoreMap == Stores(input.mapper)
    }

    function CursorOf(): Cursor
      reads this
    {
      Cursor(fileIndex, stream)
    }

    /** The tables of `Loader::config`. */
    method Config()
      requires allLoadFiles == [] && fileStoreMap == map[]
      modifies this`allLoadFiles, this`fileStoreMap
      ensures Configured()
    {
      for i := 0 to |input.mapper|
        invariant allLoadFiles == Files(input.mapper[..i])
        invariant fileStoreMap == Stores(input.mapper[..i])
      {
        var it := input.mapper[i];
        allLoadFiles := allLoadFiles + [it.file];
        fileStoreMap := fileStoreMap[it.file := it.store];
        assert input.mapper[..i + 1][..i] == input.mapper[..i];
        assert Files(input.mapper[..i + 1]) == Files(input.mapper[..i]) + [it.file];
      }
      assert input.mapper[..|input.mapper|] == input.mapper;
    }

    /** `Loader::readline`. The line is changed only when a line is read. */
    method Readline(line: string) returns (rc: Code, line': string)
      requires Configured()
      modifies this`fileIndex, this`stream
      ensures Configured()
      ensures (rc, if rc == Line then line' else "", CursorOf()) == ReadLine(input, old(CursorOf()))
      ensures rc != Line ==> line' == line
    {
      line' := line;
      if fileIndex >= |allLoadFiles| {
        return NoMoreFiles, line';
      }
      if stream.Closed? && fileIndex < |allLoadFiles| {
        var fileName := allLoadFiles[fileIndex];
        if fileName !in input.disk {
          return OpenError, line';
        }
        stream := Open(input.disk[fileName], false);
      }
      if stream.eof {
        stream := Closed;
        fileIndex := fileIndex + 1;
        return FileDone, line';
      }
      var (text, after) := GetLine(stream.rest);
      stream := after;
      return Line, text;
    }
  }
}
