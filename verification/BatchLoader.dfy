/**
 The batch loader: worker threads take batches of lines from the shared cursor under a lock
 and send them outside it. A run is any sequence of atomic steps of any of the workers.
 */
module BatchLoader {
  import opened Options
  import opened Loader
  import opened Sequences

  // ---- the locked block ----

  /** Lines read under one lock; `more` is false when the thread has to stop. */
  datatype Fill = Fill(code: Code, lines: seq<string>, backup: nat, cursor: Cursor, count: nat)

  /**
   Read lines into the batch until it has `size` lines, its file ends, or reading stops.
   `backup` is the file index before the last call of `readline`, `count` counts non-empty lines.
   */
  function FillFrom(input: Input, size: nat, c: Cursor, lines: seq<string>, count: nat): Fill
    requires ValidCursor(input, c)
    decreases Measure(input, c)
  {
    ReadLineProgress(input, c);
    var (code, line, c') := ReadLine(input, c);
    if code != Line then Fill(code, lines, c.index, c', count)
    else
      var lines' := if line != "" && |lines| < size then lines + [line] else lines;
      var count' := if line != "" then count + 1 else count;
      if |lines'| < size then FillFrom(input, size, c', lines', count')
      else Fill(Line, lines', c.index, c', count')
  }

  /** One round of the loop. */
  lemma {:induction false} FillRound(input: Input, size: nat, c: Cursor, lines: seq<string>, count: nat)
    requires ValidCursor(input, c)
    ensures var (code, line, c') := ReadLine(input, c);
            var lines' := if line != "" && |lines| < size then lines + [line] else lines;
            var count' := if line != "" then count + 1 else count;
            && (code != Line ==> FillFrom(input, size, c, lines, count) == Fill(code, lines, c.index, c', count))
            && (code == Line ==>
                  && ValidCursor(input, c') && Measure(input, c') < Measure(input, c)
                  && FillFrom(input, size, c, lines, count)
                     == if |lines'| < size then FillFrom(input, size, c', lines', count')
                        else Fill(Line, lines', c.index, c', count'))
  {
    ReadLineProgress(input, c);
  }

  function Tag(lines: seq<string>, file: nat): seq<Record> {
    if lines == [] then [] else [Record(file, lines[0])] + Tag(lines[1..], file)
  }

  lemma {:induction false} TagAppend(a: seq<string>, b: seq<string>, file: nat)
    ensures Tag(a + b, file) == Tag(a, file) + Tag(b, file)
    ensures |Tag(a, file)| == |a|
  {
    if a == [] {
      assert a + b == b;
    } else {
      assert (a + b)[1..] == a[1..] + b;
      TagAppend(a[1..], b, file);
    }
  }

  predicate NoEmptyLine(lines: seq<string>) {
    forall i :: 0 <= i < |lines| ==> lines[i] != ""
  }

  /** What one lock takes: lines of one file, in order, none lost and none added. */
  lemma {:induction false} FillConserves(input: Input, size: nat, c: Cursor, lines: seq<string>, count: nat)
    requires ValidCursor(input, c) && |lines| < size
    ensures var f := FillFrom(input, size, c, lines, count);
            && ValidCursor(input, f.cursor)
            && Tag(lines, c.index) + Remaining(input, c) == Tag(f.lines, c.index) + Remaining(input, f.cursor)
    decreases Measure(input, c)
  {
    ReadLineProgress(input, c);
    ReadLineTakesNext(input, c);
    var (code, line, c') := ReadLine(input, c);
    if code == Line {
      var lines' := if line != "" then lines + [line] else lines;
      TagNext(lines, line, c.index, Remaining(input, c'));
      if |lines'| < size {
        FillConserves(input, size, c', lines', if line != "" then count + 1 else count);
        FillStaysInFile(input, size, c', lines', if line != "" then count + 1 else count);
      }
    }
  }

  lemma {:induction false} TagNext(lines: seq<string>, line: string, file: nat, later: seq<Record>)
    ensures Tag(lines, file) + ((if line == "" then [] else [Record(file, line)]) + later)
         == Tag(if line != "" then lines + [line] else lines, file) + later
  {
    if line == "" {
      assert [] + later == later;
    } else {
      TagAppend(lines, [line], file);
      assert Tag([line], file) == [Record(file, line)];
    }
  }

  /** The batch is full, or ends with its file, or is what it was because reading stopped. */
  lemma {:induction false} FillShape(input: Input, size: nat, c: Cursor, lines: seq<string>, count: nat)
    requires ValidCursor(input, c)
    requires |lines| < size && NoEmptyLine(lines)
    ensures var f := FillFrom(input, size, c, lines, count);
            && NoEmptyLine(f.lines)
            && |f.lines| <= size
            && f.count - count == |f.lines| - |lines|
            && (f.code == Line ==> |f.lines| == size)
    decreases Measure(input, c)
  {
    ReadLineProgress(input, c);
    var (code, line, c') := ReadLine(input, c);
    if code == Line {
      var lines' := if line != "" then lines + [line] else lines;
      if |lines'| < size {
        FillShape(input, size, c', lines', if line != "" then count + 1 else count);
      }
    }
  }

  /** A block that does not stop the thread makes progress; one that does takes nothing and nothing remains. */
  lemma {:induction false} FillStops(input: Input, size: nat, c: Cursor, lines: seq<string>, count: nat)
    requires ValidCursor(input, c)
    ensures var f := FillFrom(input, size, c, lines, count);
            && ValidCursor(input, f.cursor)
            && f.backup == c.index
            && (f.code == Line ==> f.cursor.index == c.index)
            && (f.code == Line || f.code == FileDone ==>
                  Measure(input, f.cursor) < Measure(input, c) && c.index < |input.mapper|)
            && (f.code == OpenError || f.code == NoMoreFiles ==>
                  f.cursor == c && Remaining(input, c) == [] && f.lines == lines && f.count == count)
    decreases Measure(input, c)
  {
    ReadLineProgress(input, c);
    ReadLineTakesNext(input, c);
    var (code, line, c') := ReadLine(input, c);
    if code == Line {
      var lines' := if line != "" && |lines| < size then lines + [line] else lines;
      var count' := if line != "" then count + 1 else count;
      if |lines'| < size {
        FillStops(input, size, c', lines', count');
        FillStaysInFile(input, size, c', lines', count');
      }
    }
  }

  /** After a line the stream is open, so the next call cannot fail to open it. */
  lemma {:induction false} FillStaysInFile(input: Input, size: nat, c: Cursor, lines: seq<string>, count: nat)
    requires ValidCursor(input, c) && c.stream.Open?
    ensures var f := FillFrom(input, size, c, lines, count);
            f.code == Line || f.code == FileDone
    decreases Measure(input, c)
  {
    ReadLineProgress(input, c);
    var (code, line, c') := ReadLine(input, c);
    if code == Line {
      var lines' := if line != "" && |lines| < size then lines + [line] else lines;
      if |lines'| < size {
        FillStaysInFile(input, size, c', lines', if line != "" then count + 1 else count);
      }
    }
  }

  // ---- one call of loadTask ----

  datatype Batch = Batch(file: nat, store: string, lines: seq<string>)

  /**
   The locked block of one call: whether the thread goes on, the batch it has to send, what its
   buffer holds afterwards if there is none, and the cursor. Sending a batch clears the buffer.
   */
  datatype Taken = Taken(again: bool, batch: Option<Batch>, left: seq<string>, cursor: Cursor, count: nat)

  /** `lines` is the thread's own buffer as it was left by its last call. */
  function TakeFrom(input: Input, size: nat, c: Cursor, lines: seq<string>): (t: Taken)
    requires ValidCursor(input, c)
    ensures ValidCursor(input, t.cursor)
  {
    FillStops(input, size, c, lines, 0);
    var f := FillFrom(input, size, c, lines, 0);
    match f.code
    case OpenError => Taken(false, None, f.lines, f.cursor, f.count)
    case NoMoreFiles => Taken(false, None, f.lines, f.cursor, f.count)
    case FileDone =>
      Taken(true, if f.lines == [] then None else Some(Batch(f.backup, StoreOf(input, f.backup), f.lines)),
            [], f.cursor, f.count)
    case Line =>
      Taken(true, Some(Batch(f.cursor.index, StoreOf(input, f.cursor.index), f.lines)), [], f.cursor, f.count)
  }

  /** Whatever the buffer: a call that goes on leaves it empty and makes progress; one that stops leaves it alone. */
  lemma {:induction false} TakeStops(input: Input, size: nat, c: Cursor, lines: seq<string>)
    requires ValidCursor(input, c)
    ensures var t := TakeFrom(input, size, c, lines);
            if t.again then t.left == [] && Measure(input, t.cursor) < Measure(input, c)
            else t.left == lines && t.batch.None? && t.cursor == c && t.count == 0 && Remaining(input, c) == []
  {
    FillStops(input, size, c, lines, 0);
  }

  function RecordsOf(b: Option<Batch>): seq<Record> {
    if b.None? then [] else Tag(b.value.lines, b.value.file)
  }

  /** A batch has between one and `size` non-empty lines of one file and goes to that file's store. */
  ghost predicate GoodBatch(input: Input, size: nat, b: Batch) {
    && b.file < |input.mapper|
    && Targets(input.mapper, b.file, b.store)
    && 1 <= |b.lines| <= size
    && NoEmptyLine(b.lines)
  }

  lemma {:induction false} TakeTakesNext(input: Input, size: nat, c: Cursor)
    requires ValidCursor(input, c) && size >= 1
    ensures var t := TakeFrom(input, size, c, []);
            && ValidCursor(input, t.cursor)
            && t.left == []
            && Remaining(input, c) == RecordsOf(t.batch) + Remaining(input, t.cursor)
            && (t.batch.Some? ==> GoodBatch(input, size, t.batch.value))
            && t.count == |RecordsOf(t.batch)|
            && (if t.again then Measure(input, t.cursor) < Measure(input, c)
                else t.batch.None? && t.cursor == c && Remaining(input, c) == [])
  {
    FillConserves(input, size, c, [], 0);
    FillShape(input, size, c, [], 0);
    FillStops(input, size, c, [], 0);
    var f := FillFrom(input, size, c, [], 0);
    TagAppend(f.lines, [], c.index);
    assert Tag([], c.index) + Remaining(input, c) == Remaining(input, c);
  }

  // ---- runs ----

  datatype Worker =
    | Ready(lines: seq<string>)    // about to call loadTask with its buffer
    | Holding(batch: Batch)        // released the lock, has not counted the lines yet
    | Sending(batch: Batch)        // counted the lines, waits for the response
    | Finished(lines: seq<string>) // loadTask returned false

  /** `taken` lists the batches in lock order, `sent` those whose request has been answered or has failed. */
  datatype State = State(
    cursor: Cursor, workers: seq<Worker>, taken: seq<Batch>, sent: seq<Batch>,
    readLines: nat, writeLines: nat, records: nat)

  /** An atomic step of one worker; the result of a request is decided by the network. */
  datatype Action = Take(w: nat) | Count(w: nat) | Send(w: nat, ok: bool)

  function Start(workers: nat): State {
    State(START, seq(workers, _ => Ready([])), [], [], 0, 0, 0)
  }

  /** The state after a step, if the step is possible. */
  function Step(input: Input, size: nat, s: State, a: Action): (r: Option<State>)
    requires ValidCursor(input, s.cursor)
    ensures r.Some? ==> ValidCursor(input, r.value.cursor)
  {
    match a
    case Take(w) =>
      if w < |s.workers| && s.workers[w].Ready? then
        var t := TakeFrom(input, size, s.cursor, s.workers[w].lines);
        Some(s.(
          cursor := t.cursor,
          workers := s.workers[w := if !t.again then Finished(t.left)
                                    else if t.batch.None? then Ready(t.left) else Holding(t.batch.value)],
          taken := if t.batch.None? then s.taken else s.taken + [t.batch.value],
          readLines := s.readLines + t.count))
      else None
    case Count(w) =>
      if w < |s.workers| && s.workers[w].Holding? then
        Some(s.(workers := s.workers[w := Sending(s.workers[w].batch)],
                writeLines := s.writeLines + |s.workers[w].batch.lines|))
      else None
    case Send(w, ok) =>
      if w < |s.workers| && s.workers[w].Sending? then
        Some(s.(workers := s.workers[w := Ready([])],
                sent := s.sent + [s.workers[w].batch],
                records := if ok then s.records + |s.workers[w].batch.lines| else s.records))
      else None
  }

  function Flatten(bs: seq<Batch>): seq<Record> {
    if bs == [] then [] else Tag(bs[0].lines, bs[0].file) + Flatten(bs[1..])
  }

  lemma {:induction false} FlattenSnoc(bs: seq<Batch>, b: Batch)
    ensures Flatten(bs + [b]) == Flatten(bs) + Tag(b.lines, b.file)
  {
    if bs == [] {
      assert bs + [b] == [b];
      assert Tag(b.lines, b.file) + Flatten([]) == [] + Tag(b.lines, b.file);
    } else {
      assert (bs + [b])[1..] == bs[1..] + [b];
      FlattenSnoc(bs[1..], b);
    }
  }

  function Uncounted(w: Worker): nat {
    if w.Holding? then |w.batch.lines| else 0
  }

  /** Lines of the batches some worker has taken and not yet counted. */
  function HeldLines(ws: seq<Worker>): nat {
    if ws == [] then 0 else Uncounted(ws[0]) + HeldLines(ws[1..])
  }

  function Unanswered(w: Worker): nat {
    if w.Sending? then |w.batch.lines| else 0
  }

  /** Lines that have been counted and wait for their response. */
  function SentLines(ws: seq<Worker>): nat {
    if ws == [] then 0 else Unanswered(ws[0]) + SentLines(ws[1..])
  }

  function Hand(w: Worker): multiset<Batch> {
    if w.Holding? || w.Sending? then multiset{w.batch} else multiset{}
  }

  /** The batches that are with some worker. */
  function InHand(ws: seq<Worker>): multiset<Batch> {
    if ws == [] then multiset{} else Hand(ws[0]) + InHand(ws[1..])
  }

  /** Steps a worker takes at most before it reads again. */
  function Pending(w: Worker): nat {
    match w
    case Ready(_) => 1
    case Holding(_) => 3
    case Sending(_) => 2
    case Finished(_) => 0
  }

  function Weight(ws: seq<Worker>): nat {
    if ws == [] then 0 else Pending(ws[0]) + Weight(ws[1..])
  }

  lemma {:induction false} ChangeHeld(ws: seq<Worker>, w: nat, x: Worker)
    requires w < |ws|
    ensures HeldLines(ws[w := x]) == HeldLines(ws) - Uncounted(ws[w]) + Uncounted(x)
  {
    if w > 0 {
      UpdateTail(ws, w, x);
      ChangeHeld(ws[1..], w - 1, x);
    } else {
      assert ws[0 := x][1..] == ws[1..];
    }
  }

  lemma {:induction false} ChangeSent(ws: seq<Worker>, w: nat, x: Worker)
    requires w < |ws|
    ensures SentLines(ws[w := x]) == SentLines(ws) - Unanswered(ws[w]) + Unanswered(x)
  {
    if w > 0 {
      UpdateTail(ws, w, x);
      ChangeSent(ws[1..], w - 1, x);
    } else {
      assert ws[0 := x][1..] == ws[1..];
    }
  }

  lemma {:induction false} Regroup(
      a: multiset<Batch>, b: multiset<Batch>, c: multiset<Batch>, d: multiset<Batch>, e: multiset<Batch>)
    requires b + c == d + e
    ensures (a + b) + c == (a + d) + e
  {
    assert (a + b) + c == a + (b + c);
    assert (a + d) + e == a + (d + e);
  }

  lemma {:induction false} Exchange(a: multiset<Batch>, b: multiset<Batch>, c: multiset<Batch>)
    ensures (a + b) + c == (c + b) + a
  {
  }

  lemma {:induction false} ChangeHand(ws: seq<Worker>, w: nat, x: Worker)
    requires w < |ws|
    ensures InHand(ws[w := x]) + Hand(ws[w]) == InHand(ws) + Hand(x)
  {
    if w > 0 {
      UpdateTail(ws, w, x);
      ChangeHand(ws[1..], w - 1, x);
      Regroup(Hand(ws[0]), InHand(ws[1..][w - 1 := x]), Hand(ws[w]), InHand(ws[1..]), Hand(x));
    } else {
      assert ws[0 := x][1..] == ws[1..];
      Exchange(Hand(x), InHand(ws[1..]), Hand(ws[0]));
    }
  }

  lemma {:induction false} ChangeWeight(ws: seq<Worker>, w: nat, x: Worker)
    requires w < |ws|
    ensures Weight(ws[w := x]) == Weight(ws) - Pending(ws[w]) + Pending(x)
  {
    if w > 0 {
      UpdateTail(ws, w, x);
      ChangeWeight(ws[1..], w - 1, x);
    } else {
      assert ws[0 := x][1..] == ws[1..];
    }
  }

  /** The batches taken and what remains make up what has to be loaded. */
  ghost predicate Conserved(input: Input, size: nat, s: State) {
    && ValidCursor(input, s.cursor)
    && Flatten(s.taken) + Remaining(input, s.cursor) == Expected(input)
    && (forall i :: 0 <= i < |s.taken| ==> GoodBatch(input, size, s.taken[i]))
    && s.readLines == |Flatten(s.taken)|
  }

  /** Every batch taken is with one worker or has been sent. */
  predicate Accounted(s: State) {
    multiset(s.taken) == multiset(s.sent) + InHand(s.workers)
  }

  predicate Counted(s: State) {
    && s.readLines == s.writeLines + HeldLines(s.workers)
    && s.records + SentLines(s.workers) <= s.writeLines
  }

  /** The buffer of a thread that is not sending is empty. */
  predicate BuffersEmpty(s: State) {
    forall i :: 0 <= i < |s.workers| ==>
                  (s.workers[i].Ready? || s.workers[i].Finished? ==> s.workers[i].lines == [])
  }

  predicate StoppedAtEnd(input: Input, s: State) {
    && ValidCursor(input, s.cursor)
    && forall i :: 0 <= i < |s.workers| && s.workers[i].Finished? ==> Remaining(input, s.cursor) == []
  }

  ghost predicate Invariant(input: Input, size: nat, s: State) {
    Conserved(input, size, s) && Accounted(s) && Counted(s) && StoppedAtEnd(input, s) && BuffersEmpty(s)
  }

  lemma {:induction false} StartWorkers(n: nat)
    ensures HeldLines(Start(n).workers) == 0 && SentLines(Start(n).workers) == 0
    ensures InHand(Start(n).workers) == multiset{}
    ensures Weight(Start(n).workers) == n
  {
    if n > 0 {
      assert Start(n).workers[1..] == Start(n - 1).workers;
      StartWorkers(n - 1);
    }
  }

  lemma {:induction false} InvariantAtStart(input: Input, size: nat, workers: nat)
    ensures Invariant(input, size, Start(workers)) && |Start(workers).workers| == workers
  {
    StartWorkers(workers);
    assert [] + Expected(input) == Expected(input);
  }

  /** The batches taken so far with one more batch, or none. */
  lemma {:induction false} TakenGrows(taken: seq<Batch>, batch: Option<Batch>, later: seq<Record>)
    ensures var taken' := if batch.None? then taken else taken + [batch.value];
            && Flatten(taken) + (RecordsOf(batch) + later) == Flatten(taken') + later
            && |Flatten(taken')| == |Flatten(taken)| + |RecordsOf(batch)|
            && |RecordsOf(batch)| == if batch.None? then 0 else |batch.value.lines|
  {
    if batch.Some? {
      FlattenSnoc(taken, batch.value);
      TagAppend(batch.value.lines, [], batch.value.file);
    } else {
      assert [] + later == later;
    }
  }

  lemma {:induction false} StepConserves(input: Input, size: nat, s: State, a: Action)
    requires size >= 1 && Conserved(input, size, s) && BuffersEmpty(s)
    requires Step(input, size, s, a).Some?
    ensures Conserved(input, size, Step(input, size, s, a).value)
  {
    if a.Take? {
      var s' := Step(input, size, s, a).value;
      TakeTakesNext(input, size, s.cursor);
      TakenGrows(s.taken, TakeFrom(input, size, s.cursor, []).batch, Remaining(input, s'.cursor));
    }
  }

  lemma {:induction false} Rebalance(
      taken: multiset<Batch>, sent: multiset<Batch>, before: multiset<Batch>, after: multiset<Batch>,
      out: multiset<Batch>, into: multiset<Batch>, more: multiset<Batch>, done: multiset<Batch>)
    requires taken == sent + before
    requires after + out == before + into
    requires into + done == out + more
    ensures taken + more == (sent + done) + after
  {
    forall b: Batch ensures (taken + more)[b] == ((sent + done) + after)[b] {
      assert (after + out)[b] == (before + into)[b];
      assert (into + done)[b] == (out + more)[b];
    }
  }

  /** A worker that takes the batches `more` and lets go of the batches `done`. */
  lemma {:induction false} AccountChange(s: State, s': State, w: nat, more: multiset<Batch>, done: multiset<Batch>)
    requires Accounted(s) && w < |s.workers| == |s'.workers|
    requires s'.workers == s.workers[w := s'.workers[w]]
    requires multiset(s'.taken) == multiset(s.taken) + more
    requires multiset(s'.sent) == multiset(s.sent) + done
    requires Hand(s'.workers[w]) + done == Hand(s.workers[w]) + more
    ensures Accounted(s')
  {
    ChangeHand(s.workers, w, s'.workers[w]);
    Rebalance(multiset(s.taken), multiset(s.sent), InHand(s.workers), InHand(s'.workers),
              Hand(s.workers[w]), Hand(s'.workers[w]), more, done);
  }

  lemma {:induction false} TakeAccounts(input: Input, size: nat, s: State, w: nat)
    requires ValidCursor(input, s.cursor) && Accounted(s)
    requires Step(input, size, s, Take(w)).Some?
    ensures Accounted(Step(input, size, s, Take(w)).value)
  {
    var s' := Step(input, size, s, Take(w)).value;
    var t := TakeFrom(input, size, s.cursor, s.workers[w].lines);
    AccountChange(s, s', w, if t.batch.None? then multiset{} else multiset{t.batch.value}, multiset{});
  }

  lemma {:induction false} CountAccounts(input: Input, size: nat, s: State, w: nat)
    requires ValidCursor(input, s.cursor) && Accounted(s)
    requires Step(input, size, s, Count(w)).Some?
    ensures Accounted(Step(input, size, s, Count(w)).value)
  {
    AccountChange(s, Step(input, size, s, Count(w)).value, w, multiset{}, multiset{});
  }

  lemma {:induction false} SendAccounts(input: Input, size: nat, s: State, w: nat, ok: bool)
    requires ValidCursor(input, s.cursor) && Accounted(s)
    requires Step(input, size, s, Send(w, ok)).Some?
    ensures Accounted(Step(input, size, s, Send(w, ok)).value)
  {
    AccountChange(s, Step(input, size, s, Send(w, ok)).value, w, multiset{}, multiset{s.workers[w].batch});
  }

  lemma {:induction false} StepAccounts(input: Input, size: nat, s: State, a: Action)
    requires ValidCursor(input, s.cursor) && Accounted(s)
    requires Step(input, size, s, a).Some?
    ensures Accounted(Step(input, size, s, a).value)
  {
    match a
    case Take(w) => TakeAccounts(input, size, s, w);
    case Count(w) => CountAccounts(input, size, s, w);
    case Send(w, ok) => SendAccounts(input, size, s, w, ok);
  }

  lemma {:induction false} StepCounts(input: Input, size: nat, s: State, a: Action)
    requires size >= 1 && ValidCursor(input, s.cursor) && Counted(s) && BuffersEmpty(s)
    requires Step(input, size, s, a).Some?
    ensures Counted(Step(input, size, s, a).value)
  {
    var s' := Step(input, size, s, a).value;
    ChangeHeld(s.workers, a.w, s'.workers[a.w]);
    ChangeSent(s.workers, a.w, s'.workers[a.w]);
    if a.Take? {
      TakeTakesNext(input, size, s.cursor);
      TakenGrows([], TakeFrom(input, size, s.cursor, []).batch, []);
    }
  }

  lemma {:induction false} StepStopsAtEnd(input: Input, size: nat, s: State, a: Action)
    requires size >= 1 && StoppedAtEnd(input, s) && BuffersEmpty(s)
    requires Step(input, size, s, a).Some?
    ensures StoppedAtEnd(input, Step(input, size, s, a).value)
  {
    if a.Take? {
      TakeTakesNext(input, size, s.cursor);
    }
  }

  lemma {:induction false} StepEmptiesBuffers(input: Input, size: nat, s: State, a: Action)
    requires ValidCursor(input, s.cursor) && BuffersEmpty(s)
    requires Step(input, size, s, a).Some?
    ensures BuffersEmpty(Step(input, size, s, a).value)
  {
    if a.Take? {
      TakeStops(input, size, s.cursor, s.workers[a.w].lines);
    }
  }

  /** A run: the state after a sequence of steps, None if one of them is not possible. */
  function Run(input: Input, size: nat, s: State, actions: seq<Action>): (r: Option<State>)
    requires ValidCursor(input, s.cursor)
    ensures r.Some? ==> ValidCursor(input, r.value.cursor)
    decreases actions
  {
    if actions == [] then Some(s)
    else
      var next :- Step(input, size, s, actions[0]);
      Run(input, size, next, actions[1..])
  }

  lemma {:induction false} RunKeepsInvariant(input: Input, size: nat, s: State, actions: seq<Action>)
    requires size >= 1 && Invariant(input, size, s)
    requires Run(input, size, s, actions).Some?
    ensures Invariant(input, size, Run(input, size, s, actions).value)
    decreases actions
  {
    if actions != [] {
      StepConserves(input, size, s, actions[0]);
      StepAccounts(input, size, s, actions[0]);
      StepCounts(input, size, s, actions[0]);
      StepStopsAtEnd(input, size, s, actions[0]);
      StepEmptiesBuffers(input, size, s, actions[0]);
      RunKeepsInvariant(input, size, Step(input, size, s, actions[0]).value, actions[1..]);
    }
  }

  // ---- what every run loads ----

  predicate AllFinished(s: State) {
    forall i :: 0 <= i < |s.workers| ==> s.workers[i].Finished?
  }

  /**
   In every state of every interleaving, the batches taken so far, in lock order, are the
   beginning of what has to be loaded, and every batch is with a worker or has been sent.
   */
  lemma {:induction false} EveryInterleaving(input: Input, size: nat, workers: nat, actions: seq<Action>)
    requires size >= 1
    requires Run(input, size, Start(workers), actions).Some?
    ensures var s := Run(input, size, Start(workers), actions).value;
            && Flatten(s.taken) <= Expected(input)
            && (forall i :: 0 <= i < |s.taken| ==> GoodBatch(input, size, s.taken[i]))
            && multiset(s.taken) == multiset(s.sent) + InHand(s.workers)
            && s.records <= s.writeLines <= s.readLines <= |Expected(input)|
            && BuffersEmpty(s)
  {
    InvariantAtStart(input, size, workers);
    RunKeepsInvariant(input, size, Start(workers), actions);
  }

  lemma {:induction false} NothingInHand(ws: seq<Worker>)
    requires forall i :: 0 <= i < |ws| ==> ws[i].Finished?
    ensures HeldLines(ws) == 0 && SentLines(ws) == 0 && InHand(ws) == multiset{}
  {
    if ws != [] {
      NothingInHand(ws[1..]);
    }
  }

  /** The lines whose requests the run saw succeed. */
  function Inserted(input: Input, size: nat, s: State, actions: seq<Action>): nat
    requires ValidCursor(input, s.cursor) && Run(input, size, s, actions).Some?
    decreases actions
  {
    if actions == [] then 0
    else
      var a := actions[0];
      (if a.Send? && a.ok then |s.workers[a.w].batch.lines| else 0)
      + Inserted(input, size, Step(input, size, s, a).value, actions[1..])
  }

  /** `records` counts exactly these. */
  lemma {:induction false} RecordsAreInserted(input: Input, size: nat, s: State, actions: seq<Action>)
    requires ValidCursor(input, s.cursor) && Run(input, size, s, actions).Some?
    ensures Run(input, size, s, actions).value.records == s.records + Inserted(input, size, s, actions)
    decreases actions
  {
    if actions != [] {
      RecordsAreInserted(input, size, Step(input, size, s, actions[0]).value, actions[1..]);
    }
  }

  predicate AllSucceed(actions: seq<Action>) {
    forall i :: 0 <= i < |actions| && actions[i].Send? ==> actions[i].ok
  }

  /** If no request fails, the lines counted as written are counted as records or wait for their response. */
  lemma {:induction false} RecordsKeepUp(input: Input, size: nat, s: State, actions: seq<Action>)
    requires ValidCursor(input, s.cursor) && Run(input, size, s, actions).Some?
    requires AllSucceed(actions) && s.records + SentLines(s.workers) == s.writeLines
    ensures var s' := Run(input, size, s, actions).value;
            s'.records + SentLines(s'.workers) == s'.writeLines
    decreases actions
  {
    if actions != [] {
      var s' := Step(input, size, s, actions[0]).value;
      assert actions[0].Send? ==> actions[0].ok;
      ChangeSent(s.workers, actions[0].w, s'.workers[actions[0].w]);
      assert forall i :: 0 <= i < |actions[1..]| ==> actions[1..][i] == actions[i + 1];
      RecordsKeepUp(input, size, s', actions[1..]);
    }
  }

  /**
   When all threads have ended, the batches taken are together exactly the non-empty lines of
   the files, in order; each was sent once; and the counters agree.
   */
  lemma {:induction false} EverythingIsLoaded(input: Input, size: nat, workers: nat, actions: seq<Action>)
    requires size >= 1 && workers >= 1
    requires Run(input, size, Start(workers), actions).Some?
    requires AllFinished(Run(input, size, Start(workers), actions).value)
    ensures var s := Run(input, size, Start(workers), actions).value;
            && Flatten(s.taken) == Expected(input) == OneByOne(input, START)
            && multiset(s.sent) == multiset(s.taken)
            && s.readLines == s.writeLines == |Expected(input)|
            && forall i :: 0 <= i < |s.workers| ==> s.workers[i] == Finished([])
  {
    InvariantAtStart(input, size, workers);
    RunIsComplete(input, size, Start(workers), actions);
    OneByOneIsExpected(input);
  }

  lemma {:induction false} RunIsComplete(input: Input, size: nat, s: State, actions: seq<Action>)
    requires size >= 1 && Invariant(input, size, s) && |s.workers| >= 1
    requires Run(input, size, s, actions).Some?
    requires AllFinished(Run(input, size, s, actions).value)
    ensures var s' := Run(input, size, s, actions).value;
            && Flatten(s'.taken) == Expected(input)
            && multiset(s'.sent) == multiset(s'.taken)
            && s'.readLines == s'.writeLines == |Expected(input)|
            && forall i :: 0 <= i < |s'.workers| ==> s'.workers[i] == Finished([])
  {
    RunKeepsInvariant(input, size, s, actions);
    RunKeepsWorkers(input, size, s, actions);
    FinishedIsComplete(input, size, Run(input, size, s, actions).value);
  }

  lemma {:induction false} FinishedIsComplete(input: Input, size: nat, s: State)
    requires Invariant(input, size, s) && AllFinished(s) && |s.workers| >= 1
    ensures Flatten(s.taken) == Expected(input)
    ensures multiset(s.sent) == multiset(s.taken)
    ensures s.readLines == s.writeLines == |Expected(input)|
    ensures forall i :: 0 <= i < |s.workers| ==> s.workers[i] == Finished([])
  {
    assert s.workers[0].Finished?;
    assert Flatten(s.taken) + [] == Flatten(s.taken);
    NothingInHand(s.workers);
  }

  lemma {:induction false} RunKeepsWorkers(input: Input, size: nat, s: State, actions: seq<Action>)
    requires ValidCursor(input, s.cursor)
    requires Run(input, size, s, actions).Some?
    ensures |Run(input, size, s, actions).value.workers| == |s.workers|
    decreases actions
  {
    if actions != [] {
      RunKeepsWorkers(input, size, Step(input, size, s, actions[0]).value, actions[1..]);
    }
  }

  /** If no request fails, a finished load has counted every line that had to be loaded. */
  lemma {:induction false} EverythingIsCounted(input: Input, size: nat, workers: nat, actions: seq<Action>)
    requires size >= 1 && workers >= 1
    requires Run(input, size, Start(workers), actions).Some?
    requires AllFinished(Run(input, size, Start(workers), actions).value) && AllSucceed(actions)
    ensures Run(input, size, Start(workers), actions).value.records == |Expected(input)|
  {
    EverythingIsLoaded(input, size, workers, actions);
    StartWorkers(workers);
    RecordsKeepUp(input, size, Start(workers), actions);
    NothingInHand(Run(input, size, Start(workers), actions).value.workers);
  }

  // ---- every run ends ----

  /** Steps the run can still take at most. */
  function StepsLeft(input: Input, s: State): nat
    requires ValidCursor(input, s.cursor)
  {
    3 * Measure(input, s.cursor) + Weight(s.workers)
  }

  lemma {:induction false} StepDecreases(input: Input, size: nat, s: State, a: Action)
    requires ValidCursor(input, s.cursor)
    requires Step(input, size, s, a).Some?
    ensures StepsLeft(input, Step(input, size, s, a).value) < StepsLeft(input, s)
  {
    var s' := Step(input, size, s, a).value;
    ChangeWeight(s.workers, a.w, s'.workers[a.w]);
    if a.Take? {
      TakeStops(input, size, s.cursor, s.workers[a.w].lines);
    }
  }

  lemma {:induction false} RunIsBounded(input: Input, size: nat, s: State, actions: seq<Action>)
    requires ValidCursor(input, s.cursor)
    requires Run(input, size, s, actions).Some?
    ensures |actions| <= StepsLeft(input, s)
    decreases actions
  {
    if actions != [] {
      StepDecreases(input, size, s, actions[0]);
      RunIsBounded(input, size, Step(input, size, s, actions[0]).value, actions[1..]);
    }
  }

  /**
   No run goes on for ever, whatever the schedule, and a run that cannot go on has ended all
   its threads: the loader always terminates.
   */
  lemma {:induction false} EveryRunEnds(input: Input, size: nat, workers: nat, actions: seq<Action>)
    requires Run(input, size, Start(workers), actions).Some?
    ensures |actions| <= 3 * FilesMeasure(input, 0) + workers
    ensures var s := Run(input, size, Start(workers), actions).value;
            (forall a :: Step(input, size, s, a).None?) ==> AllFinished(s)
  {
    var s := Run(input, size, Start(workers), actions).value;
    StartWorkers(workers);
    RunIsBounded(input, size, Start(workers), actions);
    if !AllFinished(s) {
      var w :| 0 <= w < |s.workers| && !s.workers[w].Finished?;
      var a := if s.workers[w].Ready? then Take(w)
               else if s.workers[w].Holding? then Count(w)
               else Send(w, true);
      assert Step(input, size, s, a).Some?;
    }
  }

  // ---- batch size 0 ----

  lemma {:induction false} EmptyFill(input: Input, c: Cursor, count: nat)
    requires ValidCursor(input, c)
    ensures FillFrom(input, 0, c, [], count).lines == []
    decreases Measure(input, c)
  {
  }

  lemma {:induction false} EmptyBatches(input: Input, s: State, actions: seq<Action>)
    requires ValidCursor(input, s.cursor) && Flatten(s.taken) == [] && BuffersEmpty(s)
    requires Run(input, 0, s, actions).Some?
    ensures Flatten(Run(input, 0, s, actions).value.taken) == []
    decreases actions
  {
    if actions != [] {
      var s' := Step(input, 0, s, actions[0]).value;
      if actions[0].Take? {
        EmptyFill(input, s.cursor, 0);
        var t := TakeFrom(input, 0, s.cursor, []);
        if t.batch.Some? {
          FlattenSnoc(s.taken, t.batch.value);
        }
      }
      StepEmptiesBuffers(input, 0, s, actions[0]);
      EmptyBatches(input, s', actions[1..]);
    }
  }

  /**
   The lines a load takes with a setting. A negative batch size makes the reservation of the
   first thread's buffer throw, which ends the program before a line is read.
   */
  function LinesLoaded(input: Input, batchSize: int, workers: nat, actions: seq<Action>): Option<seq<Record>> {
    if batchSize < 0 then Some([])
    else
      var s :- Run(input, batchSize, Start(workers), actions);
      Some(Flatten(s.taken))
  }

  /** A finished load is complete exactly when the batch size is positive or there was nothing to load. */
  lemma {:induction false} CompleteIffBatchSize(input: Input, batchSize: int, workers: nat, actions: seq<Action>)
    requires workers >= 1
    requires batchSize >= 0 ==>
               && Run(input, batchSize, Start(workers), actions).Some?
               && AllFinished(Run(input, batchSize, Start(workers), actions).value)
    ensures LinesLoaded(input, batchSize, workers, actions) == Some(Expected(input))
       <==> batchSize >= 1 || Expected(input) == []
  {
    if batchSize >= 1 {
      EverythingIsLoaded(input, batchSize, workers, actions);
    } else if batchSize == 0 {
      EmptyBatches(input, Start(workers), actions);
    }
  }

  // ---- the loader object ----

  /** The batch loader's own members beside those of the loader. */
  class BatchLineLoader {
    const loader: LoaderState
    const batchSize: nat
    var readLines: nat
    var writeLines: nat
    var records: nat

    constructor (loader: LoaderState, batchSize: nat)
      ensures this.loader == loader && this.batchSize == batchSize
      ensures readLines == writeLines == records == 0
    {
      this.loader, this.batchSize := loader, batchSize;
      readLines, writeLines, records := 0, 0, 0;
    }

    /** The do-while loop of `loadTask`, run under the lock. */
    method FillBatch(lines0: seq<string>)
      returns (rrc: Code, lines: seq<string>, backup: nat, index: nat)
      requires loader.Configured() && ValidCursor(loader.input, loader.CursorOf())
      modifies this`readLines, loader`fileIndex, loader`stream
      ensures loader.Configured()
      ensures var f := FillFrom(loader.input, batchSize, old(loader.CursorOf()), lines0, 0);
              && rrc == f.code && lines == f.lines && backup == f.backup
              && loader.CursorOf() == f.cursor && index == f.cursor.index
              && readLines == old(readLines) + f.count
    {
      lines := lines0;
      var line := "";
      ghost var count, before := 0, readLines;
      ghost var whole := FillFrom(loader.input, batchSize, loader.CursorOf(), lines, count);
      while true
        invariant loader.Configured() && ValidCursor(loader.input, loader.CursorOf())
        invariant readLines == before + count
        invariant whole == FillFrom(loader.input, batchSize, loader.CursorOf(), lines, count)
        decreases Measure(loader.input, loader.CursorOf())
      {
        FillRound(loader.input, batchSize, loader.CursorOf(), lines, count);
        ghost var read := ReadLine(loader.input, loader.CursorOf());
        backup := loader.fileIndex;
        rrc, line := loader.Readline(line);
        index := loader.fileIndex;
        assert rrc == read.0 && loader.CursorOf() == read.2 && (rrc == Line ==> line == read.1);
        if rrc == OpenError || rrc == NoMoreFiles {
          return;
        } else if rrc == FileDone {
          return;
        }
        if line != "" {
          readLines := readLines + 1;
          count := count + 1;
          if |lines| < batchSize {
            lines := lines + [line];
          }
        }
        if !(|lines| < batchSize) {
          return;
        }
      }
    }

    /** `sendBatchLines`; `ok` is the outcome of the request. */
    method SendBatchLines(lines: seq<string>, fileIndex: nat, ok: bool) returns (request: Batch)
      requires loader.Configured() && fileIndex < |loader.input.mapper|
      modifies this`writeLines, this`records
      ensures request == Batch(fileIndex, StoreOf(loader.input, fileIndex), lines)
      ensures writeLines == old(writeLines) + |lines|
      ensures records == old(records) + if ok then |lines| else 0
    {
      var size := |lines|;
      writeLines := writeLines + size;
      var fileName := loader.allLoadFiles[fileIndex];
      var storeName := loader.fileStoreMap[fileName];
      request := Batch(fileIndex, storeName, lines);
      if ok {
        records := records + size;
      }
    }

    /**
     `loadTask` run without interruption: the three steps of the run above, one after the other.
     `lines0` is the thread's buffer, which is filled, sent and cleared.
     */
    method LoadTask(lines0: seq<string>, ok: bool) returns (again: bool, sent: Option<Batch>, lines: seq<string>)
      requires loader.Configured() && ValidCursor(loader.input, loader.CursorOf())
      modifies this`readLines, this`writeLines, this`records, loader`fileIndex, loader`stream
      ensures loader.Configured()
      ensures var t := TakeFrom(loader.input, batchSize, old(loader.CursorOf()), lines0);
              && again == t.again && sent == t.batch && lines == t.left && loader.CursorOf() == t.cursor
              && readLines == old(readLines) + t.count
              && writeLines == old(writeLines) + (if sent.Some? then |sent.value.lines| else 0)
              && records == old(records) + (if sent.Some? && ok then |sent.value.lines| else 0)
    {
      FillStops(loader.input, batchSize, loader.CursorOf(), lines0, 0);
      var rrc, filled, backup, index := FillBatch(lines0);
      if rrc == OpenError || rrc == NoMoreFiles {
        return false, None, filled;
      }
      if rrc == FileDone {
        if |filled| == 0 {
          return true, None, filled;
        }
        var request := SendBatchLines(filled, backup, ok);
        return true, Some(request), [];
      }
      var request := SendBatchLines(filled, index, ok);
      return true, Some(request), [];
    }

    /** The loop of a loader thread, run alone: it ends, with an empty buffer and nothing left to read. */
    method LoadAll() returns (lines: seq<string>)
      requires loader.Configured() && ValidCursor(loader.input, loader.CursorOf())
      modifies this`readLines, this`writeLines, this`records, loader`fileIndex, loader`stream
      ensures loader.Configured() && ValidCursor(loader.input, loader.CursorOf())
      ensures lines == [] && Remaining(loader.input, loader.CursorOf()) == []
    {
      lines := [];
      var again := true;
      while again
        invariant loader.Configured() && ValidCursor(loader.input, loader.CursorOf())
        invariant lines == []
        invariant !again ==> Remaining(loader.input, loader.CursorOf()) == []
        decreases again, Measure(loader.input, loader.CursorOf())
      {
        TakeStops(loader.input, batchSize, loader.CursorOf(), lines);
        var ok: bool := *;
        var sent;
        again, sent, lines := LoadTask(lines, ok);
      }
    }
  }
}
