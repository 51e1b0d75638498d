/** The one-line loader: each call of loadTask takes at most one line under the lock. */
module StandaloneLoader {
  import opened Options
  import opened Loader
  import opened Sequences

  datatype Insert = Insert(store: string, line: string)

  /** Records taken, in lock order, by the first n calls of loadTask, whichever threads make them. */
  function TakeLines(input: Input, c: Cursor, n: nat): (r: (seq<Record>, Cursor))
    requires ValidCursor(input, c)
    ensures ValidCursor(input, r.1)
    decreases n
  {
    if n == 0 then ([], c)
    else
      ReadLineTakesNext(input, c);
      var (code, line, c') := ReadLine(input, c);
      var (more, end) := TakeLines(input, c', n - 1);
      ((if code == Line && line != "" then [Record(c'.index, line)] else []) + more, end)
  }

  /** At any time the lines taken are the beginning of what has to be loaded. */
  lemma {:induction false} LinesTakenInOrder(input: Input, c: Cursor, n: nat)
    requires ValidCursor(input, c)
    ensures var (taken, end) := TakeLines(input, c, n);
            taken + Remaining(input, end) == Remaining(input, c)
    decreases n
  {
    if n > 0 {
      var (_, _, c') := ReadLine(input, c);
      NextLineTaken(input, c);
      LinesTakenInOrder(input, c', n - 1);
      var (more, end) := TakeLines(input, c', n - 1);
      Assoc(TakenBy(input, c), more, Remaining(input, end));
    }
  }

  /** What one call takes. */
  function TakenBy(input: Input, c: Cursor): seq<Record> {
    var (code, line, c') := ReadLine(input, c);
    if code == Line && line != "" then [Record(c'.index, line)] else []
  }

  lemma {:induction false} NextLineTaken(input: Input, c: Cursor)
    requires ValidCursor(input, c)
    ensures var (_, _, c') := ReadLine(input, c);
            ValidCursor(input, c') && Remaining(input, c) == TakenBy(input, c) + Remaining(input, c')
  {
    ReadLineTakesNext(input, c);
    var (_, _, c') := ReadLine(input, c);
    assert [] + Remaining(input, c') == Remaining(input, c');
  }

  /** `StandaloneLoader::loadTask` up to the send: the line read and the store of its file. */
  method LoadTask(loader: LoaderState) returns (again: bool, insert: Option<Insert>)
    requires loader.Configured() && ValidCursor(loader.input, loader.CursorOf())
    modifies loader`fileIndex, loader`stream
    ensures loader.Configured()
    ensures var (code, line, c') := ReadLine(loader.input, old(loader.CursorOf()));
            && loader.CursorOf() == c'
            && again == (code == Line || code == FileDone)
            && insert == if code == Line && line != "" then Some(Insert(StoreOf(loader.input, c'.index), line)) else None
  {
    ReadLineTakesNext(loader.input, loader.CursorOf());
    var rrc, line := loader.Readline("");
    var fileIndex := loader.fileIndex;
    if rrc == OpenError || rrc == NoMoreFiles {
      return false, None;
    } else if rrc == FileDone {
      return true, None;
    }
    if line == "" {
      return true, None;
    }
    var fileName := loader.allLoadFiles[fileIndex];
    return true, Some(Insert(loader.fileStoreMap[fileName], line));
  }
}
