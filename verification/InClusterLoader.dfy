/**
 The in-cluster loader: callers of sendRequest keep a window of requests open, and every
 response closes one and calls sendRequest again. A run is any sequence of atomic steps; the
 blocks the code runs under its lock are one step each.
 */
module InClusterLoader {
  import opened Options
  import opened Loader
  import opened Sequences

  /** Where a caller of sendRequest stands. */
  datatype Pc =
    | Idle                                  // not in sendRequest
    | AtCheck                               // at the loop condition
    | AtRead(active: int)                   // passed the check with this reading of activeRequest
    | AtFinish(active: int)                 // no more files; the reading is now stale
    | AtSend(record: Record)                // has a line to send
    | AtCount(ok: bool)                     // has sent, not yet counted

  datatype State = State(
    cursor: Cursor,
    activeRequest: int, doneRecords: nat, records: nat,
    callers: seq<Pc>,
    waiting: nat,       // responses handled whose call of sendRequest has not started
    sent: nat,          // requests sent successfully
    counted: nat,       // of those, counted in activeRequest
    unanswered: nat,    // sent requests whose response has not been handled
    taken: seq<Record>, // lines read, in order
    shutdown: bool, exited: bool)

  datatype Outcome = ParseError | Sent | Failed

  datatype Action =
    | Check(w: nat)
    | Read(w: nat)
    | Finish(w: nat)
    | Send(w: nat, outcome: Outcome)
    | Count(w: nat)
    | Respond
    | Enter(w: nat)

  /** `import` makes the first call of sendRequest. */
  function Start(callers: nat): State
    requires callers >= 1
  {
    State(START, 0, 0, 0, seq(callers, i => if i == 0 then AtCheck else Idle), 0, 0, 0, 0, [], false, false)
  }

  function At(s: State, w: nat): Pc {
    if w < |s.callers| then s.callers[w] else Idle
  }

  function Move(s: State, w: nat, pc: Pc): State
    requires w < |s.callers|
  {
    s.(callers := s.callers[w := pc])
  }

  /** The state after a step, if the step is possible; `window` is the number of allowed requests. */
  function Step(input: Input, window: int, s: State, a: Action): (r: Option<State>)
    requires ValidCursor(input, s.cursor)
    ensures r.Some? ==> ValidCursor(input, r.value.cursor)
  {
    if s.exited then None else
    match a
    case Check(w) =>
      if !At(s, w).AtCheck? || w >= |s.callers| then None
      else Some(Move(s, w, if s.activeRequest < window then AtRead(s.activeRequest) else Idle))
    case Read(w) =>
      if !At(s, w).AtRead? || w >= |s.callers| then None
      else Some(AfterRead(input, s, w, s.callers[w].active))
    case Finish(w) =>
      if !At(s, w).AtFinish? || w >= |s.callers| then None
      else Some(Move(s, w, Idle).(shutdown := s.shutdown || s.callers[w].active <= 0))
    case Send(w, outcome) =>
      if !At(s, w).AtSend? || w >= |s.callers| then None
      else
        match outcome {
          case ParseError => Some(Move(s, w, AtCheck))
          case Sent => Some(Move(s, w, AtCount(true)).(sent := s.sent + 1, unanswered := s.unanswered + 1))
          case Failed => Some(Move(s, w, AtCount(false)))
        }
    case Count(w) =>
      if !At(s, w).AtCount? || w >= |s.callers| then None
      else
        var one := if s.callers[w].ok then 1 else 0;
        Some(Move(s, w, AtCheck).(
          activeRequest := s.activeRequest + one, counted := s.counted + one, records := s.records + 1))
    case Respond =>
      if s.unanswered == 0 then None
      else
        Some(s.(unanswered := s.unanswered - 1, doneRecords := s.doneRecords + 1,
                activeRequest := s.activeRequest - 1, waiting := s.waiting + 1))
    case Enter(w) =>
      if !At(s, w).Idle? || w >= |s.callers| || s.waiting == 0 then None
      else Some(Move(s, w, AtCheck).(waiting := s.waiting - 1))
  }

  /** The locked call of `readline` and the branch on its code; an open error exits the program. */
  function AfterRead(input: Input, s: State, w: nat, active: int): (r: State)
    requires ValidCursor(input, s.cursor) && w < |s.callers|
    ensures ValidCursor(input, r.cursor)
  {
    ReadLineTakesNext(input, s.cursor);
    var (code, line, c') := ReadLine(input, s.cursor);
    match code
    case Line =>
      if line == "" then Move(s, w, AtCheck).(cursor := c')
      else Move(s, w, AtSend(Record(c'.index, line))).(cursor := c', taken := s.taken + [Record(c'.index, line)])
    case FileDone => Move(s, w, AtCheck).(cursor := c')
    case OpenError => s.(exited := true)
    case NoMoreFiles => Move(s, w, AtFinish(active))
  }

  function Run(input: Input, window: int, s: State, actions: seq<Action>): (r: Option<State>)
    requires ValidCursor(input, s.cursor)
    ensures r.Some? ==> ValidCursor(input, r.value.cursor)
    decreases actions
  {
    if actions == [] then Some(s)
    else
      var next :- Step(input, window, s, actions[0]);
      Run(input, window, next, actions[1..])
  }

  // ---- counting callers ----

  /** Past the check: reading, finishing, sending or counting. */
  predicate IsPast(pc: Pc) {
    pc.AtRead? || pc.AtFinish? || pc.AtSend? || pc.AtCount?
  }

  /** Has sent a request and not counted it. */
  predicate IsCounting(pc: Pc) {
    pc.AtCount? && pc.ok
  }

  function BoolNat(b: bool): nat {
    if b then 1 else 0
  }

  function Past(ps: seq<Pc>): (n: nat)
    ensures n <= |ps|
  {
    if ps == [] then 0 else BoolNat(IsPast(ps[0])) + Past(ps[1..])
  }

  function Counting(ps: seq<Pc>): (n: nat)
    ensures n <= Past(ps)
  {
    if ps == [] then 0 else BoolNat(IsCounting(ps[0])) + Counting(ps[1..])
  }

  lemma {:induction false} ChangePast(ps: seq<Pc>, w: nat, pc: Pc)
    requires w < |ps|
    ensures Past(ps[w := pc]) == Past(ps) - BoolNat(IsPast(ps[w])) + BoolNat(IsPast(pc))
  {
    if w > 0 {
      UpdateTail(ps, w, pc);
      ChangePast(ps[1..], w - 1, pc);
    } else {
      assert ps[0 := pc][1..] == ps[1..];
    }
  }

  lemma {:induction false} ChangeCounting(ps: seq<Pc>, w: nat, pc: Pc)
    requires w < |ps|
    ensures Counting(ps[w := pc]) == Counting(ps) - BoolNat(IsCounting(ps[w])) + BoolNat(IsCounting(pc))
  {
    if w > 0 {
      UpdateTail(ps, w, pc);
      ChangeCounting(ps[1..], w - 1, pc);
    } else {
      assert ps[0 := pc][1..] == ps[1..];
    }
  }

  lemma {:induction false} NoneBusy(ps: seq<Pc>)
    requires forall i :: 0 <= i < |ps| ==> !IsPast(ps[i])
    ensures Past(ps) == 0
  {
    if ps != [] {
      NoneBusy(ps[1..]);
    }
  }

  // ---- the request window ----

  predicate Balanced(s: State) {
    && s.activeRequest + s.doneRecords == s.counted
    && s.sent == s.counted + Counting(s.callers)
    && s.unanswered + s.doneRecords == s.sent
  }

  predicate WithinWindow(window: int, s: State) {
    s.activeRequest + Past(s.callers) <= window - 1 + |s.callers|
  }

  predicate InOrder(input: Input, s: State) {
    ValidCursor(input, s.cursor) && s.taken + Remaining(input, s.cursor) == Expected(input)
  }

  /** A step of caller w that sends `sent` requests and counts `counted` of them. */
  lemma {:induction false} BalanceMove(s: State, s': State, w: nat, sent: int, counted: int)
    requires Balanced(s) && w < |s.callers| == |s'.callers|
    requires s'.callers == s.callers[w := s'.callers[w]]
    requires s'.sent == s.sent + sent && s'.unanswered == s.unanswered + sent
    requires s'.counted == s.counted + counted && s'.activeRequest == s.activeRequest + counted
    requires s'.doneRecords == s.doneRecords
    requires BoolNat(IsCounting(s'.callers[w])) == BoolNat(IsCounting(s.callers[w])) + sent - counted
    ensures Balanced(s')
  {
    ChangeCounting(s.callers, w, s'.callers[w]);
  }

  lemma {:induction false} ReadBalances(input: Input, s: State, w: nat)
    requires ValidCursor(input, s.cursor) && Balanced(s) && w < |s.callers| && s.callers[w].AtRead?
    ensures Balanced(AfterRead(input, s, w, s.callers[w].active))
  {
    var s' := AfterRead(input, s, w, s.callers[w].active);
    assert s.callers[w := s.callers[w]] == s.callers;
    BalanceMove(s, s', w, 0, 0);
  }

  lemma {:induction false} StepBalances(input: Input, window: int, s: State, a: Action)
    requires ValidCursor(input, s.cursor) && Balanced(s)
    requires Step(input, window, s, a).Some?
    ensures Balanced(Step(input, window, s, a).value)
  {
    var s' := Step(input, window, s, a).value;
    match a
    case Read(w) => ReadBalances(input, s, w);
    case Respond =>
    case Send(w, outcome) => BalanceMove(s, s', w, BoolNat(outcome.Sent?), 0);
    case Count(w) => BalanceMove(s, s', w, 0, BoolNat(s.callers[w].ok));
    case Check(w) => BalanceMove(s, s', w, 0, 0);
    case Finish(w) => BalanceMove(s, s', w, 0, 0);
    case Enter(w) => BalanceMove(s, s', w, 0, 0);
  }

  /** A step moves one caller and opens at most one request, which the caller then leaves. */
  lemma {:induction false} StepMovesOne(input: Input, window: int, s: State, a: Action)
    requires ValidCursor(input, s.cursor) && Step(input, window, s, a).Some?
    ensures var s' := Step(input, window, s, a).value;
            if a.Respond? then s'.callers == s.callers && s'.activeRequest == s.activeRequest - 1
            else
              && a.w < |s.callers| == |s'.callers|
              && s'.callers == s.callers[a.w := s'.callers[a.w]]
              && (s'.activeRequest + BoolNat(IsPast(s'.callers[a.w]))
                    <= s.activeRequest + BoolNat(IsPast(s.callers[a.w]))
                  || (a.Check? && s'.activeRequest == s.activeRequest < window))
  {
  }

  lemma {:induction false} StepWithinWindow(input: Input, window: int, s: State, a: Action)
    requires ValidCursor(input, s.cursor) && WithinWindow(window, s)
    requires Step(input, window, s, a).Some?
    ensures WithinWindow(window, Step(input, window, s, a).value)
  {
    var s' := Step(input, window, s, a).value;
    StepMovesOne(input, window, s, a);
    if !a.Respond? {
      ChangePast(s.callers, a.w, s'.callers[a.w]);
    }
  }

  lemma {:induction false} StepInOrder(input: Input, window: int, s: State, a: Action)
    requires InOrder(input, s)
    requires Step(input, window, s, a).Some?
    ensures InOrder(input, Step(input, window, s, a).value)
  {
    if a.Read? {
      ReadLineTakesNext(input, s.cursor);
      var (code, line, c') := ReadLine(input, s.cursor);
      if code == Line && line != "" {
        Assoc(s.taken, [Record(c'.index, line)], Remaining(input, c'));
      } else {
        assert [] + Remaining(input, c') == Remaining(input, c');
      }
    }
  }

  lemma {:induction false} StepKeepsCallers(input: Input, window: int, s: State, a: Action)
    requires ValidCursor(input, s.cursor)
    requires Step(input, window, s, a).Some?
    ensures |Step(input, window, s, a).value.callers| == |s.callers|
  {
  }

  lemma {:induction false} RunKeepsWindow(input: Input, window: int, s: State, actions: seq<Action>)
    requires InOrder(input, s) && Balanced(s) && WithinWindow(window, s)
    requires Run(input, window, s, actions).Some?
    ensures var s' := Run(input, window, s, actions).value;
            && InOrder(input, s') && Balanced(s') && WithinWindow(window, s')
            && |s'.callers| == |s.callers|
    decreases actions
  {
    if actions != [] {
      StepBalances(input, window, s, actions[0]);
      StepWithinWindow(input, window, s, actions[0]);
      StepInOrder(input, window, s, actions[0]);
      StepKeepsCallers(input, window, s, actions[0]);
      RunKeepsWindow(input, window, Step(input, window, s, actions[0]).value, actions[1..]);
    }
  }

  lemma {:induction false} StartIsGood(input: Input, window: int, callers: nat)
    requires callers >= 1 && window >= 0
    ensures var s := Start(callers); InOrder(input, s) && Balanced(s) && WithinWindow(window, s)
  {
    NoneBusy(Start(callers).callers);
    assert [] + Expected(input) == Expected(input);
  }

  /**
   In every state of every run: activeRequest and the callers past the check together stay
   within the window and its overshoot, and so do the requests really outstanding; the counters
   balance; and the lines are read in order, none lost.
   */
  lemma {:induction false} WindowInEveryRun(input: Input, window: int, callers: nat, actions: seq<Action>)
    requires callers >= 1 && window >= 0
    requires Run(input, window, Start(callers), actions).Some?
    ensures var s := Run(input, window, Start(callers), actions).value;
            && s.activeRequest + Past(s.callers) <= window - 1 + callers
            && s.unanswered == s.activeRequest + Counting(s.callers) <= window - 1 + callers
            && s.activeRequest + s.doneRecords == s.counted
            && s.taken <= Expected(input)
  {
    StartIsGood(input, window, callers);
    RunKeepsWindow(input, window, Start(callers), actions);
  }

  // ---- completion ----

  /** The first caller is the only one in sendRequest. */
  predicate OnlyFirst(s: State) {
    s.callers != [] && forall i :: 1 <= i < |s.callers| ==> s.callers[i].Idle?
  }

  /** With one caller, its reading of activeRequest is never too small, and after shutdown nothing is open. */
  predicate SafeCompletion(input: Input, s: State) {
    && OnlyFirst(s)
    && ValidCursor(input, s.cursor)
    && (s.callers[0].AtRead? ==> s.activeRequest <= s.callers[0].active)
    && (s.callers[0].AtFinish? ==>
          s.activeRequest <= s.callers[0].active && s.cursor.index == |input.mapper|)
    && (s.shutdown ==>
          && s.unanswered == 0
          && s.cursor.index == |input.mapper|
          && !s.callers[0].AtSend? && !s.callers[0].AtCount?)
  }

  lemma {:induction false} CountingFirst(ps: seq<Pc>)
    requires ps != [] && forall i :: 1 <= i < |ps| ==> ps[i].Idle?
    ensures Counting(ps) == BoolNat(IsCounting(ps[0]))
  {
    NoneBusy(ps[1..]);
  }

  lemma {:induction false} StepCompletesSafely(input: Input, window: int, s: State, a: Action)
    requires SafeCompletion(input, s) && Balanced(s) && (|s.callers| == 1 || s.waiting == 0)
    requires Step(input, window, s, a).Some?
    ensures SafeCompletion(input, Step(input, window, s, a).value)
  {
    if a.Read? {
      ReadCompletesSafely(input, s, a.w);
    } else if a.Respond? || a.Enter? {
      ResponseCompletesSafely(input, window, s, a);
    } else {
      CallerCompletesSafely(input, window, s, a);
    }
  }

  lemma {:induction false} ReadCompletesSafely(input: Input, s: State, w: nat)
    requires SafeCompletion(input, s) && w < |s.callers| && s.callers[w].AtRead?
    ensures SafeCompletion(input, AfterRead(input, s, w, s.callers[w].active))
  {
    ReadLineTakesNext(input, s.cursor);
  }

  lemma {:induction false} ResponseCompletesSafely(input: Input, window: int, s: State, a: Action)
    requires SafeCompletion(input, s) && (|s.callers| == 1 || s.waiting == 0) && (a.Respond? || a.Enter?)
    requires Step(input, window, s, a).Some?
    ensures SafeCompletion(input, Step(input, window, s, a).value)
  {
  }

  lemma {:induction false} CallerCompletesSafely(input: Input, window: int, s: State, a: Action)
    requires SafeCompletion(input, s) && Balanced(s) && (a.Check? || a.Finish? || a.Send? || a.Count?)
    requires Step(input, window, s, a).Some?
    ensures SafeCompletion(input, Step(input, window, s, a).value)
  {
    CountingFirst(s.callers);
  }

  lemma {:induction false} RunCompletesSafely(input: Input, window: int, s: State, actions: seq<Action>)
    requires SafeCompletion(input, s) && Balanced(s) && |s.callers| == 1
    requires Run(input, window, s, actions).Some?
    ensures SafeCompletion(input, Run(input, window, s, actions).value)
    decreases actions
  {
    if actions != [] {
      StepCompletesSafely(input, window, s, actions[0]);
      StepBalances(input, window, s, actions[0]);
      StepKeepsCallers(input, window, s, actions[0]);
      RunCompletesSafely(input, window, Step(input, window, s, actions[0]).value, actions[1..]);
    }
  }

  /**
   If at most one sendRequest runs at a time, the application is shut down only when every line
   has been read and every sent request has been answered, and nothing is sent afterwards.
   */
  lemma {:induction false} OneCallerCompletesSafely(input: Input, window: int, actions: seq<Action>)
    requires Run(input, window, Start(1), actions).Some?
    requires Run(input, window, Start(1), actions).value.shutdown
    ensures var s := Run(input, window, Start(1), actions).value;
            && s.unanswered == 0 && s.doneRecords == s.sent
            && s.taken == Expected(input)
  {
    StartIsGood(input, 0, 1);
    StartCompletesSafely(input);
    RunShutDownIsComplete(input, window, Start(1), actions);
  }

  lemma {:induction false} RunShutDownIsComplete(input: Input, window: int, s: State, actions: seq<Action>)
    requires InOrder(input, s) && Balanced(s) && SafeCompletion(input, s) && |s.callers| == 1
    requires Run(input, window, s, actions).Some? && Run(input, window, s, actions).value.shutdown
    ensures var s' := Run(input, window, s, actions).value;
            s'.unanswered == 0 && s'.doneRecords == s'.sent && s'.taken == Expected(input)
  {
    RunCompletesSafely(input, window, s, actions);
    RunBalancesInOrder(input, window, s, actions);
    ShutDownIsComplete(input, Run(input, window, s, actions).value);
  }

  lemma {:induction false} StartCompletesSafely(input: Input)
    ensures SafeCompletion(input, Start(1)) && |Start(1).callers| == 1
  {
  }

  lemma {:induction false} ShutDownIsComplete(input: Input, s: State)
    requires InOrder(input, s) && Balanced(s) && SafeCompletion(input, s) && s.shutdown
    ensures s.unanswered == 0 && s.doneRecords == s.sent && s.taken == Expected(input)
  {
    assert s.taken + [] == s.taken;
  }

  lemma {:induction false} RunBalancesInOrder(input: Input, window: int, s: State, actions: seq<Action>)
    requires InOrder(input, s) && Balanced(s)
    requires Run(input, window, s, actions).Some?
    ensures var s' := Run(input, window, s, actions).value; InOrder(input, s') && Balanced(s')
    decreases actions
  {
    if actions != [] {
      StepBalances(input, window, s, actions[0]);
      StepInOrder(input, window, s, actions[0]);
      RunBalancesInOrder(input, window, Step(input, window, s, actions[0]).value, actions[1..]);
    }
  }

  // ---- exactly when completion is safe ----

  predicate AllOpen(input: Input) {
    forall i :: 0 <= i < |input.mapper| ==> input.mapper[i].file in input.disk
  }

  /** In no run is the application shut down while a sent request has not been answered. */
  ghost predicate NeverEarly(input: Input, window: int, callers: nat)
    requires callers >= 1
  {
    forall actions ::
      var r := Run(input, window, Start(callers), actions);
      r.Some? && r.value.shutdown ==> r.value.unanswered == 0
  }

  // a window that is not positive

  predicate NothingStarts(s: State) {
    && s.activeRequest == 0 && s.unanswered == 0 && !s.shutdown
    && forall i :: 0 <= i < |s.callers| ==> s.callers[i].AtCheck? || s.callers[i].Idle?
  }

  lemma {:induction false} NothingRuns(input: Input, window: int, s: State, actions: seq<Action>)
    requires window <= 0 && ValidCursor(input, s.cursor) && NothingStarts(s)
    requires Run(input, window, s, actions).Some?
    ensures !Run(input, window, s, actions).value.shutdown
    decreases actions
  {
    if actions != [] {
      NothingRuns(input, window, Step(input, window, s, actions[0]).value, actions[1..]);
    }
  }

  // a file that cannot be opened

  /** No caller gets past the file. */
  predicate StopsBefore(input: Input, s: State, file: nat) {
    && file < |input.mapper| && input.mapper[file].file !in input.disk
    && ValidCursor(input, s.cursor)
    && s.cursor.index <= file && (s.cursor.index == file ==> s.cursor.stream.Closed?)
    && !s.shutdown
    && forall i :: 0 <= i < |s.callers| ==> !s.callers[i].AtFinish?
  }

  lemma {:induction false} RunStopsBefore(input: Input, window: int, s: State, actions: seq<Action>, file: nat)
    requires StopsBefore(input, s, file)
    requires Run(input, window, s, actions).Some?
    ensures !Run(input, window, s, actions).value.shutdown
    decreases actions
  {
    if actions != [] {
      RunStopsBefore(input, window, Step(input, window, s, actions[0]).value, actions[1..], file);
    }
  }

  // at most one line

  function Sending(ps: seq<Pc>): nat {
    if ps == [] then 0 else BoolNat(ps[0].AtSend?) + Sending(ps[1..])
  }

  lemma {:induction false} ChangeSending(ps: seq<Pc>, w: nat, pc: Pc)
    requires w < |ps|
    ensures Sending(ps[w := pc]) == Sending(ps) - BoolNat(ps[w].AtSend?) + BoolNat(pc.AtSend?)
  {
    if w > 0 {
      UpdateTail(ps, w, pc);
      ChangeSending(ps[1..], w - 1, pc);
    } else {
      assert ps[0 := pc][1..] == ps[1..];
    }
  }

  lemma {:induction false} NoneSending(ps: seq<Pc>)
    requires forall i :: 0 <= i < |ps| ==> !IsPast(ps[i])
    ensures Sending(ps) == 0
  {
    if ps != [] {
      NoneSending(ps[1..]);
    }
  }

  /** Only lines that were read are sent. */
  predicate SentFromTaken(s: State) {
    s.sent + Sending(s.callers) <= |s.taken|
  }

  lemma {:induction false} StepSendsTaken(input: Input, window: int, s: State, a: Action)
    requires ValidCursor(input, s.cursor) && SentFromTaken(s)
    requires Step(input, window, s, a).Some?
    ensures SentFromTaken(Step(input, window, s, a).value)
  {
    var s' := Step(input, window, s, a).value;
    StepMovesOne(input, window, s, a);
    if !a.Respond? {
      ChangeSending(s.callers, a.w, s'.callers[a.w]);
    }
  }

  // every line is accounted for

  /** Callers that have tried to send their line and not counted it yet. */
  function Uncounted(ps: seq<Pc>): nat {
    if ps == [] then 0 else BoolNat(ps[0].AtCount?) + Uncounted(ps[1..])
  }

  lemma {:induction false} ChangeUncounted(ps: seq<Pc>, w: nat, pc: Pc)
    requires w < |ps|
    ensures Uncounted(ps[w := pc]) == Uncounted(ps) - BoolNat(ps[w].AtCount?) + BoolNat(pc.AtCount?)
  {
    if w > 0 {
      UpdateTail(ps, w, pc);
      ChangeUncounted(ps[1..], w - 1, pc);
    } else {
      assert ps[0 := pc][1..] == ps[1..];
    }
  }

  /** How often a run tried to send a line with one of these outcomes. */
  function Tries(actions: seq<Action>, outcomes: set<Outcome>): nat {
    if actions == [] then 0
    else BoolNat(actions[0].Send? && actions[0].outcome in outcomes) + Tries(actions[1..], outcomes)
  }

  lemma {:induction false} StepAccountsForLines(input: Input, window: int, s: State, a: Action)
    requires ValidCursor(input, s.cursor) && Step(input, window, s, a).Some?
    ensures var s' := Step(input, window, s, a).value;
            && |s'.taken| + Sending(s.callers) == |s.taken| + Sending(s'.callers) + BoolNat(a.Send?)
            && s'.records + Uncounted(s'.callers)
               == s.records + Uncounted(s.callers) + BoolNat(a.Send? && !a.outcome.ParseError?)
            && s'.sent == s.sent + BoolNat(a.Send? && a.outcome.Sent?)
  {
    var s' := Step(input, window, s, a).value;
    StepMovesOne(input, window, s, a);
    if !a.Respond? {
      ChangeSending(s.callers, a.w, s'.callers[a.w]);
      ChangeUncounted(s.callers, a.w, s'.callers[a.w]);
    }
  }

  lemma {:induction false} RunAccountsForLines(input: Input, window: int, s: State, actions: seq<Action>)
    requires ValidCursor(input, s.cursor) && Run(input, window, s, actions).Some?
    ensures var s' := Run(input, window, s, actions).value;
            && |s'.taken| + Sending(s.callers)
               == |s.taken| + Sending(s'.callers) + Tries(actions, {ParseError, Sent, Failed})
            && s'.records + Uncounted(s'.callers)
               == s.records + Uncounted(s.callers) + Tries(actions, {Sent, Failed})
            && s'.sent == s.sent + Tries(actions, {Sent})
    decreases actions
  {
    if actions != [] {
      StepAccountsForLines(input, window, s, actions[0]);
      RunAccountsForLines(input, window, Step(input, window, s, actions[0]).value, actions[1..]);
    }
  }

  lemma {:induction false} NoneUncounted(ps: seq<Pc>)
    requires forall i :: 0 <= i < |ps| ==> !IsPast(ps[i])
    ensures Uncounted(ps) == 0
  {
    if ps != [] {
      NoneUncounted(ps[1..]);
    }
  }

  /**
   In every run: every line read is with a caller that has still to send it, or was tried once;
   `records` counts the lines that could be parsed and were tried, whether the request was sent or
   not, but for those just tried; and the requests sent are those whose line was sent.
   */
  lemma {:induction false} EveryLineIsTriedOnce(input: Input, window: int, callers: nat, actions: seq<Action>)
    requires callers >= 1 && Run(input, window, Start(callers), actions).Some?
    ensures var s := Run(input, window, Start(callers), actions).value;
            && |s.taken| == Sending(s.callers) + Tries(actions, {ParseError, Sent, Failed})
            && s.records + Uncounted(s.callers) == Tries(actions, {Sent, Failed})
            && s.sent == Tries(actions, {Sent})
  {
    NoneSending(Start(callers).callers);
    NoneUncounted(Start(callers).callers);
    RunAccountsForLines(input, window, Start(callers), actions);
  }

  /** Until the first response there is one caller. */
  predicate SafeUntilAnswer(input: Input, s: State) {
    s.doneRecords == 0 ==> SafeCompletion(input, s) && s.waiting == 0
  }

  lemma {:induction false} StepSafeUntilAnswer(input: Input, window: int, s: State, a: Action)
    requires ValidCursor(input, s.cursor) && SafeUntilAnswer(input, s) && Balanced(s)
    requires Step(input, window, s, a).Some?
    ensures SafeUntilAnswer(input, Step(input, window, s, a).value)
  {
    if s.doneRecords == 0 && !a.Respond? {
      StepCompletesSafely(input, window, s, a);
    }
  }

  lemma {:induction false} FewLinesAreSafe(input: Input, window: int, s: State, actions: seq<Action>)
    requires |Expected(input)| <= 1
    requires InOrder(input, s) && Balanced(s) && SentFromTaken(s) && SafeUntilAnswer(input, s)
    requires Run(input, window, s, actions).Some? && Run(input, window, s, actions).value.shutdown
    ensures Run(input, window, s, actions).value.unanswered == 0
    decreases actions
  {
    if actions == [] {
      assert |s.taken| <= |Expected(input)|;
    } else {
      StepBalances(input, window, s, actions[0]);
      StepInOrder(input, window, s, actions[0]);
      StepSendsTaken(input, window, s, actions[0]);
      StepSafeUntilAnswer(input, window, s, actions[0]);
      FewLinesAreSafe(input, window, Step(input, window, s, actions[0]).value, actions[1..]);
    }
  }

  lemma {:induction false} StartIsSafe(input: Input, callers: nat)
    requires callers >= 1
    ensures SentFromTaken(Start(callers)) && SafeUntilAnswer(input, Start(callers))
  {
    NoneSending(Start(callers).callers);
  }

  lemma {:induction false} SafeSettings(input: Input, window: int, callers: nat)
    requires callers >= 1
    requires callers == 1 || window <= 0 || |Expected(input)| <= 1 || !AllOpen(input)
    ensures NeverEarly(input, window, callers)
  {
    forall actions |
      var r := Run(input, window, Start(callers), actions); r.Some? && r.value.shutdown
      ensures Run(input, window, Start(callers), actions).value.unanswered == 0
    {
      if callers == 1 {
        OneCallerCompletesSafely(input, window, actions);
      } else if window <= 0 {
        NothingRuns(input, window, Start(callers), actions);
      } else if !AllOpen(input) {
        var file :| 0 <= file < |input.mapper| && input.mapper[file].file !in input.disk;
        RunStopsBefore(input, window, Start(callers), actions, file);
      } else {
        StartIsGood(input, window, callers);
        StartIsSafe(input, callers);
        FewLinesAreSafe(input, window, Start(callers), actions);
      }
    }
  }

  // ---- two callers ----

  lemma {:induction false} RunAppend(input: Input, window: int, s: State, a: seq<Action>, b: seq<Action>)
    requires ValidCursor(input, s.cursor) && Run(input, window, s, a).Some?
    ensures Run(input, window, s, a + b) == Run(input, window, Run(input, window, s, a).value, b)
    decreases a
  {
    if a == [] {
      assert a + b == b;
    } else {
      assert (a + b)[1..] == a[1..] + b;
      RunAppend(input, window, Step(input, window, s, a[0]).value, a[1..], b);
    }
  }

  /** A loader whose completion turns out not to be safe. */
  datatype Setting = Setting(input: Input, window: int, callers: nat)

  predicate Busy(g: Setting) {
    g.callers >= 2 && g.window >= 1 && |Expected(g.input)| >= 2 && AllOpen(g.input)
  }

  /** A state the loader can come to. */
  ghost predicate Reached(g: Setting, s: State)
    requires g.callers >= 1
  {
    && ValidCursor(g.input, s.cursor)
    && exists actions :: Run(g.input, g.window, Start(g.callers), actions) == Some(s)
  }

  lemma {:induction false} OneMore(g: Setting, s: State, a: Action, next: State)
    requires g.callers >= 1 && Reached(g, s)
    requires Step(g.input, g.window, s, a) == Some(next)
    ensures Reached(g, next)
  {
    var actions :| Run(g.input, g.window, Start(g.callers), actions) == Some(s);
    RunAppend(g.input, g.window, Start(g.callers), actions, [a]);
    assert [a][1..] == [];
    assert Run(g.input, g.window, Start(g.callers), actions + [a]) == Some(next);
  }

  /** The state with other lines read. */
  predicate ReadOn(s: State, next: State) {
    next == s.(cursor := next.cursor, callers := next.callers, taken := next.taken)
  }

  /** Caller w is at the check and may pass it. */
  predicate MayPass(g: Setting, s: State, w: nat) {
    !s.exited && w < |s.callers| && s.callers[w] == AtCheck && s.activeRequest < g.window
  }

  /** One round of the loop. */
  lemma {:induction false} Passes(g: Setting, s: State, w: nat) returns (next: State)
    requires Busy(g) && Reached(g, s) && MayPass(g, s, w)
    ensures Reached(g, next) && ReadOn(s, next)
    ensures var (code, line, c) := ReadLine(g.input, s.cursor);
            && code != OpenError
            && next.cursor == c
            && next.callers == (if code == Line && line != "" then s.callers[w := AtSend(Record(c.index, line))]
                                else if code == NoMoreFiles then s.callers[w := AtFinish(s.activeRequest)]
                                else s.callers)
  {
    ReadLineTakesNext(g.input, s.cursor);
    var reading := Move(s, w, AtRead(s.activeRequest));
    OneMore(g, s, Check(w), reading);
    next := AfterRead(g.input, reading, w, s.activeRequest);
    OneMore(g, reading, Read(w), next);
    assert s.callers[w := AtRead(s.activeRequest)][w := AtCheck] == s.callers;
  }

  /** If a line remains, caller w comes to hold it. */
  lemma {:induction false} FindsLine(g: Setting, s: State, w: nat) returns (next: State, r: Record)
    requires Busy(g) && Reached(g, s) && MayPass(g, s, w) && Remaining(g.input, s.cursor) != []
    ensures Reached(g, next) && ReadOn(s, next) && next.callers == s.callers[w := AtSend(r)]
    ensures |Remaining(g.input, next.cursor)| == |Remaining(g.input, s.cursor)| - 1
    decreases Measure(g.input, s.cursor)
  {
    ReadLineTakesNext(g.input, s.cursor);
    ReadLineProgress(g.input, s.cursor);
    var (code, line, c) := ReadLine(g.input, s.cursor);
    next := Passes(g, s, w);
    if code == Line && line != "" {
      r := Record(c.index, line);
    } else {
      next, r := FindsLine(g, next, w);
    }
  }

  /** If no line remains, caller w finds no more files. */
  lemma {:induction false} RunsOut(g: Setting, s: State, w: nat) returns (next: State)
    requires Busy(g) && Reached(g, s) && MayPass(g, s, w) && Remaining(g.input, s.cursor) == []
    ensures Reached(g, next) && ReadOn(s, next) && next.callers == s.callers[w := AtFinish(s.activeRequest)]
    ensures ReadLine(g.input, next.cursor).0 == NoMoreFiles
    decreases Measure(g.input, s.cursor)
  {
    ReadLineTakesNext(g.input, s.cursor);
    ReadLineProgress(g.input, s.cursor);
    var (code, line, c) := ReadLine(g.input, s.cursor);
    next := Passes(g, s, w);
    if code == Line || code == FileDone {
      next := RunsOut(g, next, w);
    }
  }

  /** Caller w reads all that remains, finds no line it can parse, and then no more files. */
  lemma {:induction false} Drains(g: Setting, s: State, w: nat) returns (next: State)
    requires Busy(g) && Reached(g, s) && MayPass(g, s, w)
    ensures Reached(g, next) && ReadOn(s, next) && next.callers == s.callers[w := AtFinish(s.activeRequest)]
    ensures ReadLine(g.input, next.cursor).0 == NoMoreFiles
    decreases |Remaining(g.input, s.cursor)|
  {
    if Remaining(g.input, s.cursor) == [] {
      next := RunsOut(g, s, w);
    } else {
      var holding, r := FindsLine(g, s, w);
      var back := Move(holding, w, AtCheck);
      OneMore(g, holding, Send(w, ParseError), back);
      assert back.callers == s.callers;
      next := Drains(g, back, w);
    }
  }

  lemma {:induction false} SendsLine(g: Setting, s: State, w: nat) returns (next: State)
    requires g.callers >= 1 && Reached(g, s) && !s.exited && w < |s.callers| && s.callers[w].AtSend?
    ensures Reached(g, next)
    ensures next == Move(s, w, AtCount(true)).(sent := s.sent + 1, unanswered := s.unanswered + 1)
  {
    next := Move(s, w, AtCount(true)).(sent := s.sent + 1, unanswered := s.unanswered + 1);
    OneMore(g, s, Send(w, Sent), next);
  }

  lemma {:induction false} CountsLine(g: Setting, s: State, w: nat) returns (next: State)
    requires g.callers >= 1 && Reached(g, s) && !s.exited && w < |s.callers| && s.callers[w] == AtCount(true)
    ensures Reached(g, next)
    ensures next == Move(s, w, AtCheck).(
              activeRequest := s.activeRequest + 1, counted := s.counted + 1, records := s.records + 1)
  {
    next := Move(s, w, AtCheck).(
      activeRequest := s.activeRequest + 1, counted := s.counted + 1, records := s.records + 1);
    OneMore(g, s, Count(w), next);
  }

  lemma {:induction false} ShutsDown(g: Setting, s: State, w: nat) returns (next: State)
    requires g.callers >= 1 && Reached(g, s) && !s.exited && w < |s.callers| && s.callers[w] == AtFinish(0)
    ensures Reached(g, next) && next == Move(s, w, Idle).(shutdown := true)
    ensures Step(g.input, g.window, s, Finish(w)) == Some(next)
  {
    next := Move(s, w, Idle).(shutdown := true);
    OneMore(g, s, Finish(w), next);
  }

  /** A response to a counted request. */
  lemma {:induction false} Answers(g: Setting, s: State) returns (next: State)
    requires g.callers >= 1 && Reached(g, s) && !s.exited && s.unanswered >= 1
    ensures Reached(g, next)
    ensures next == s.(unanswered := s.unanswered - 1, doneRecords := s.doneRecords + 1,
                       activeRequest := s.activeRequest - 1, waiting := s.waiting + 1)
  {
    next := s.(unanswered := s.unanswered - 1, doneRecords := s.doneRecords + 1,
               activeRequest := s.activeRequest - 1, waiting := s.waiting + 1);
    OneMore(g, s, Respond, next);
  }

  lemma {:induction false} Enters(g: Setting, s: State, w: nat) returns (next: State)
    requires g.callers >= 1 && Reached(g, s) && !s.exited && s.waiting >= 1
    requires w < |s.callers| && s.callers[w] == Idle
    ensures Reached(g, next) && next == Move(s, w, AtCheck).(waiting := s.waiting - 1)
  {
    next := Move(s, w, AtCheck).(waiting := s.waiting - 1);
    OneMore(g, s, Enter(w), next);
  }

  lemma {:induction false} StartIsReached(g: Setting)
    requires g.callers >= 1
    ensures Reached(g, Start(g.callers))
  {
    assert Run(g.input, g.window, Start(g.callers), []) == Some(Start(g.callers));
  }

  /** The first line has been sent and answered. */
  lemma {:induction false} FirstLineAnswered(g: Setting) returns (s: State)
    requires Busy(g)
    ensures Reached(g, s) && !s.exited
    ensures |s.callers| == g.callers && s.callers[0] == AtCheck && s.callers[1] == Idle
    ensures s.activeRequest == 0 && s.unanswered == 0 && s.waiting == 1
    ensures Remaining(g.input, s.cursor) != []
  {
    StartIsReached(g);
    var holding, r := FindsLine(g, Start(g.callers), 0);
    var counting := SendsLine(g, holding, 0);
    var counted := CountsLine(g, counting, 0);
    s := Answers(g, counted);
  }

  /** The response lets a second caller in. */
  lemma {:induction false} SecondCallerEnters(g: Setting) returns (s: State)
    requires Busy(g)
    ensures Reached(g, s) && !s.exited
    ensures |s.callers| == g.callers && s.callers[0] == AtCheck && s.callers[1] == AtCheck
    ensures s.activeRequest == 0 && s.unanswered == 0
    ensures Remaining(g.input, s.cursor) != []
  {
    var answered := FirstLineAnswered(g);
    s := Enters(g, answered, 1);
  }

  /**
   The first caller has sent a line and not yet counted it. The second reads activeRequest,
   rightly, as 0, finds no more files, and shuts the application down with that request open.
   */
  lemma {:induction false} UncountedRequest(g: Setting) returns (s: State)
    requires Busy(g)
    ensures Reached(g, s) && s.shutdown && s.unanswered == 1
  {
    s := SecondCallerEnters(g);
    var holding, r := FindsLine(g, s, 0);
    var sent := SendsLine(g, holding, 0);
    var finishing := Drains(g, sent, 1);
    s := ShutsDown(g, finishing, 1);
  }

  lemma {:induction false} RunTwo(g: Setting, s: State, a: Action, mid: State, b: Action, end: State)
    requires ValidCursor(g.input, s.cursor) && ValidCursor(g.input, mid.cursor)
    requires Step(g.input, g.window, s, a) == Some(mid) && Step(g.input, g.window, mid, b) == Some(end)
    ensures Run(g.input, g.window, s, [a, b]) == Some(end)
  {
    assert [a, b][1..] == [b] && [b][1..] == [];
    assert Run(g.input, g.window, mid, [b]) == Some(end);
  }

  /** The second caller read 0; the first has sent and counted a line since, and read all the rest. */
  lemma {:induction false} StaleReading(g: Setting) returns (s: State)
    requires Busy(g) && g.window >= 2
    ensures Reached(g, s) && !s.exited && |s.callers| >= 2
    ensures s.callers[1] == AtRead(0) && s.activeRequest == 1 && s.unanswered == 1
    ensures ReadLine(g.input, s.cursor).0 == NoMoreFiles
  {
    var entered := SecondCallerEnters(g);
    var stale := Move(entered, 1, AtRead(0));
    OneMore(g, entered, Check(1), stale);
    var holding, r := FindsLine(g, stale, 0);
    var sent := SendsLine(g, holding, 0);
    var counted := CountsLine(g, sent, 0);
    s := Drains(g, counted, 0);
  }

  /**
   A stale reading does the same when two requests are allowed: the second caller read 0, the
   first has since sent and counted a request and read the files to their end, and the second
   acts on its reading while activeRequest is 1.
   */
  lemma {:induction false} TwoCallersShutDownEarly(g: Setting) returns (before: State, s: State)
    requires Busy(g) && g.window >= 2
    ensures Reached(g, before) && |before.callers| >= 2
    ensures before.callers[1] == AtRead(0) && before.activeRequest == 1 && before.unanswered == 1
    ensures Run(g.input, g.window, before, [Read(1), Finish(1)]) == Some(s) && Reached(g, s)
    ensures s.shutdown && s.unanswered == 1
  {
    before := StaleReading(g);
    ReadLineTakesNext(g.input, before.cursor);
    var finishing := Move(before, 1, AtFinish(0));
    OneMore(g, before, Read(1), finishing);
    s := ShutsDown(g, finishing, 1);
    RunTwo(g, before, Read(1), finishing, Finish(1), s);
  }

  // ---- the exact condition ----

  /**
   The application is never shut down with a request open exactly if only one sendRequest runs
   at a time, or no request is allowed, or there are not two lines to send, or some file cannot
   be opened.
   */
  lemma {:induction false} NeverEarlyIff(input: Input, window: int, callers: nat)
    requires callers >= 1
    ensures NeverEarly(input, window, callers)
       <==> callers == 1 || window <= 0 || |Expected(input)| <= 1 || !AllOpen(input)
  {
    if callers == 1 || window <= 0 || |Expected(input)| <= 1 || !AllOpen(input) {
      SafeSettings(input, window, callers);
    } else {
      var g := Setting(input, window, callers);
      var s := UncountedRequest(g);
      var actions :| Run(input, window, Start(callers), actions) == Some(s);
      assert Run(input, window, Start(callers), actions).value.shutdown;
    }
  }

  /** Two lines in one file, without a line break at the end. */
  const TWO_LINES := Input([Mapping("f", "store")], map["f" := "a\nb"])

  lemma {:induction false} TwoLinesExpected()
    ensures |Expected(TWO_LINES)| == 2 && AllOpen(TWO_LINES)
  {
    var t := "a\nb";
    assert t[1..] == "\nb";
    assert LineEnd("\nb") == 0;
    assert LineEnd(t) == 1;
    assert t[..1] == "a" && t[2..] == "b";
    assert "b"[1..] == "";
    assert LineEnd("b") == 1;
    assert ReadLine(TWO_LINES, START) == (Line, "a", Cursor(0, Open("b", false)));
    assert ReadLine(TWO_LINES, Cursor(0, Open("b", false))) == (Line, "b", Cursor(0, Open("", true)));
    assert ReadLine(TWO_LINES, Cursor(0, Open("", true))) == (FileDone, "", Cursor(1, Closed));
    OneByOneTakesAll(TWO_LINES, START);
    OneByOneTakesAll(TWO_LINES, Cursor(0, Open("b", false)));
    OneByOneTakesAll(TWO_LINES, Cursor(0, Open("", true)));
    OneByOneTakesAll(TWO_LINES, Cursor(1, Closed));
  }

  /** Over all inputs: exactly if one sendRequest runs at a time or no request is allowed. */
  lemma {:induction false} SafeSettingsExactly(window: int, callers: nat)
    requires callers >= 1
    ensures (forall input :: NeverEarly(input, window, callers)) <==> callers == 1 || window <= 0
  {
    TwoLinesExpected();
    NeverEarlyIff(TWO_LINES, window, callers);
    forall input | callers == 1 || window <= 0 ensures NeverEarly(input, window, callers) {
      NeverEarlyIff(input, window, callers);
    }
  }

  // ---- every run ends ----

  /** How far a caller still is from leaving, in steps. */
  function PcWeight(pc: Pc): nat {
    match pc
    case Idle => 0
    case AtFinish(_) => 1
    case AtRead(_) => 2
    case AtCheck => 3
    case AtCount(_) => 4
    case AtSend(_) => 10
  }

  function Weight(ps: seq<Pc>): nat {
    if ps == [] then 0 else PcWeight(ps[0]) + Weight(ps[1..])
  }

  lemma {:induction false} ChangeWeight(ps: seq<Pc>, w: nat, pc: Pc)
    requires w < |ps|
    ensures Weight(ps[w := pc]) == Weight(ps) - PcWeight(ps[w]) + PcWeight(pc)
  {
    if w > 0 {
      UpdateTail(ps, w, pc);
      ChangeWeight(ps[1..], w - 1, pc);
    } else {
      assert ps[0 := pc][1..] == ps[1..];
    }
  }

  /** Steps the run can still take at most. */
  function StepsLeft(input: Input, s: State): nat
    requires ValidCursor(input, s.cursor)
  {
    9 * Measure(input, s.cursor) + Weight(s.callers) + 5 * s.unanswered + 4 * s.waiting + BoolNat(!s.exited)
  }

  lemma {:induction false} ReadDecreases(input: Input, s: State, w: nat)
    requires ValidCursor(input, s.cursor) && w < |s.callers| && s.callers[w].AtRead? && !s.exited
    ensures StepsLeft(input, AfterRead(input, s, w, s.callers[w].active)) < StepsLeft(input, s)
  {
    var s' := AfterRead(input, s, w, s.callers[w].active);
    AfterReadShape(input, s, w);
    ChangeWeight(s.callers, w, s'.callers[w]);
  }

  /** Reading makes progress, or ends the loop or the program. */
  lemma {:induction false} AfterReadShape(input: Input, s: State, w: nat)
    requires ValidCursor(input, s.cursor) && w < |s.callers| && s.callers[w].AtRead?
    ensures var s' := AfterRead(input, s, w, s.callers[w].active);
            && s' == s.(cursor := s'.cursor, callers := s'.callers, taken := s'.taken, exited := s'.exited)
            && |s'.callers| == |s.callers| && s'.callers == s.callers[w := s'.callers[w]]
            && (if s'.cursor == s.cursor then (s'.exited && s'.callers == s.callers) || s'.callers[w].AtFinish?
                else Measure(input, s'.cursor) < Measure(input, s.cursor) && PcWeight(s'.callers[w]) <= 10)
            && (s.exited ==> s'.exited)
  {
    ReadLineProgress(input, s.cursor);
    ReadLineTakesNext(input, s.cursor);
    assert s.callers[w := s.callers[w]] == s.callers;
  }

  lemma {:induction false} StepDecreases(input: Input, window: int, s: State, a: Action)
    requires ValidCursor(input, s.cursor)
    requires Step(input, window, s, a).Some?
    ensures StepsLeft(input, Step(input, window, s, a).value) < StepsLeft(input, s)
  {
    if a.Read? {
      ReadDecreases(input, s, a.w);
    } else if !a.Respond? {
      CallerDecreases(input, window, s, a);
    }
  }

  lemma {:induction false} CallerDecreases(input: Input, window: int, s: State, a: Action)
    requires ValidCursor(input, s.cursor) && !a.Read? && !a.Respond?
    requires Step(input, window, s, a).Some?
    ensures StepsLeft(input, Step(input, window, s, a).value) < StepsLeft(input, s)
  {
    ChangeWeight(s.callers, a.w, Step(input, window, s, a).value.callers[a.w]);
  }

  lemma {:induction false} RunIsBounded(input: Input, window: int, s: State, actions: seq<Action>)
    requires ValidCursor(input, s.cursor)
    requires Run(input, window, s, actions).Some?
    ensures |actions| <= StepsLeft(input, s)
    decreases actions
  {
    if actions != [] {
      StepDecreases(input, window, s, actions[0]);
      RunIsBounded(input, window, Step(input, window, s, actions[0]).value, actions[1..]);
    }
  }

  lemma {:induction false} IdleWeight(ps: seq<Pc>)
    requires forall i :: 0 <= i < |ps| ==> ps[i].Idle?
    ensures Weight(ps) == 0
  {
    if ps != [] {
      IdleWeight(ps[1..]);
    }
  }

  lemma {:induction false} StartWeight(callers: nat)
    requires callers >= 1
    ensures Weight(Start(callers).callers) == 3
  {
    IdleWeight(Start(callers).callers[1..]);
  }

  // ---- a run that has ended is complete ----

  /** This caller will look at activeRequest again, or has read it as not positive. */
  predicate CarriesOn(pc: Pc) {
    || pc.AtCheck? || pc.AtSend? || pc.AtCount?
    || (pc.AtRead? && pc.active <= 0)
    || (pc.AtFinish? && pc.active <= 0)
  }

  /** Unless the application has been shut down, a request, a response or a caller carries the load on. */
  predicate Alive(s: State) {
    || s.shutdown || s.unanswered > 0 || s.waiting > 0
    || exists w :: 0 <= w < |s.callers| && CarriesOn(s.callers[w])
  }

  /** At the end of the files the cursor stays there. */
  predicate AtEnd(input: Input, s: State) {
    && ValidCursor(input, s.cursor)
    && (s.shutdown ==> s.cursor.index == |input.mapper|)
    && forall i :: 0 <= i < |s.callers| && s.callers[i].AtFinish? ==> s.cursor.index == |input.mapper|
  }

  lemma {:induction false} StepAtEnd(input: Input, window: int, s: State, a: Action)
    requires AtEnd(input, s) && Step(input, window, s, a).Some?
    ensures AtEnd(input, Step(input, window, s, a).value)
  {
    if a.Read? {
      ReadAtEnd(input, s, a.w);
    }
  }

  lemma {:induction false} ReadAtEnd(input: Input, s: State, w: nat)
    requires AtEnd(input, s) && w < |s.callers| && s.callers[w].AtRead?
    ensures AtEnd(input, AfterRead(input, s, w, s.callers[w].active))
  {
    ReadLineTakesNext(input, s.cursor);
  }

  /** A caller that carries on and takes a step: it goes on carrying on, or leaves something that does. */
  lemma {:induction false} CarrierSteps(input: Input, window: int, s: State, a: Action)
    requires window >= 1 && AllOpen(input) && ValidCursor(input, s.cursor) && Balanced(s)
    requires Step(input, window, s, a).Some? && !a.Respond? && a.w < |s.callers| && CarriesOn(s.callers[a.w])
    ensures Alive(Step(input, window, s, a).value)
  {
    var s' := Step(input, window, s, a).value;
    assert a.w < |s'.callers|;
    if a.Check? {
      assert s.unanswered == s.activeRequest + Counting(s.callers);
      assert s'.callers[a.w].AtRead? || s.activeRequest >= window;
    } else if a.Read? {
      ReadLineTakesNext(input, s.cursor);
    }
    if CarriesOn(s'.callers[a.w]) {
      assert Alive(s');
    }
  }

  lemma {:induction false} StepAlive(input: Input, window: int, s: State, a: Action)
    requires window >= 1 && AllOpen(input) && ValidCursor(input, s.cursor) && Balanced(s) && Alive(s)
    requires Step(input, window, s, a).Some?
    ensures Alive(Step(input, window, s, a).value)
  {
    var s' := Step(input, window, s, a).value;
    StepMovesOne(input, window, s, a);
    if !a.Respond? && CarriesOn(s.callers[a.w]) {
      CarrierSteps(input, window, s, a);
    } else if s.shutdown || s.unanswered > 0 || s.waiting > 0 {
      if a.Enter? {
        assert CarriesOn(s'.callers[a.w]);
      }
    } else {
      var w :| 0 <= w < |s.callers| && CarriesOn(s.callers[w]);
      assert CarriesOn(s'.callers[w]);
    }
  }

  predicate Progressing(input: Input, s: State) {
    InOrder(input, s) && Balanced(s) && Alive(s) && AtEnd(input, s) && !s.exited
  }

  lemma {:induction false} StepStaysOpen(input: Input, window: int, s: State, a: Action)
    requires AllOpen(input) && ValidCursor(input, s.cursor) && Step(input, window, s, a).Some?
    ensures !Step(input, window, s, a).value.exited
  {
    ReadLineTakesNext(input, s.cursor);
  }

  lemma {:induction false} RunProgresses(input: Input, window: int, s: State, actions: seq<Action>)
    requires window >= 1 && AllOpen(input) && Progressing(input, s)
    requires Run(input, window, s, actions).Some?
    ensures Progressing(input, Run(input, window, s, actions).value)
    ensures |Run(input, window, s, actions).value.callers| == |s.callers|
    decreases actions
  {
    if actions != [] {
      StepBalances(input, window, s, actions[0]);
      StepInOrder(input, window, s, actions[0]);
      StepAlive(input, window, s, actions[0]);
      StepAtEnd(input, window, s, actions[0]);
      StepStaysOpen(input, window, s, actions[0]);
      StepKeepsCallers(input, window, s, actions[0]);
      RunProgresses(input, window, Step(input, window, s, actions[0]).value, actions[1..]);
    }
  }

  /** A run that cannot go on. */
  ghost predicate Stuck(input: Input, window: int, s: State)
    requires ValidCursor(input, s.cursor)
  {
    forall a :: Step(input, window, s, a).None?
  }

  /** The step a caller that is not idle can take. */
  function NextAction(pc: Pc, w: nat): Action
    requires !pc.Idle?
  {
    match pc
    case AtCheck => Check(w)
    case AtRead(_) => Read(w)
    case AtFinish(_) => Finish(w)
    case AtSend(_) => Send(w, Failed)
    case AtCount(_) => Count(w)
  }

  lemma {:induction false} CanMove(input: Input, window: int, s: State, w: nat)
    requires ValidCursor(input, s.cursor) && !s.exited && w < |s.callers| && !s.callers[w].Idle?
    ensures Step(input, window, s, NextAction(s.callers[w], w)).Some?
  {
  }

  lemma {:induction false} StuckIsIdle(input: Input, window: int, s: State)
    requires ValidCursor(input, s.cursor) && Stuck(input, window, s) && !s.exited && s.callers != []
    ensures s.unanswered == 0 && s.waiting == 0
    ensures forall w :: 0 <= w < |s.callers| ==> s.callers[w].Idle?
  {
    forall w | 0 <= w < |s.callers| ensures s.callers[w].Idle? {
      if !s.callers[w].Idle? {
        CanMove(input, window, s, w);
      }
    }
    assert Step(input, window, s, Respond).None?;
    assert Step(input, window, s, Enter(0)).None?;
  }

  lemma {:induction false} StartProgresses(input: Input, callers: nat)
    requires callers >= 1
    ensures Progressing(input, Start(callers))
  {
    StartIsGood(input, 0, callers);
    assert CarriesOn(Start(callers).callers[0]);
  }

  /**
   Every run ends within a bound, whatever the interleaving. When it cannot go on, the
   application has been shut down exactly if a request is allowed and all files can be opened;
   then every line has been read and every request that was sent has been answered.
   */
  lemma {:induction false} EveryRunEnds(input: Input, window: int, callers: nat, actions: seq<Action>)
    requires callers >= 1
    requires Run(input, window, Start(callers), actions).Some?
    ensures |actions| <= 9 * FilesMeasure(input, 0) + 4
    ensures var s := Run(input, window, Start(callers), actions).value;
            Stuck(input, window, s) ==>
              && (s.shutdown <==> window >= 1 && AllOpen(input))
              && (s.shutdown ==>
                    && s.taken == Expected(input)
                    && s.unanswered == 0 && s.activeRequest == 0 && s.doneRecords == s.sent)
  {
    StartWeight(callers);
    RunIsBounded(input, window, Start(callers), actions);
    var s := Run(input, window, Start(callers), actions).value;
    if window <= 0 {
      NothingRuns(input, window, Start(callers), actions);
    } else if !AllOpen(input) {
      var file :| 0 <= file < |input.mapper| && input.mapper[file].file !in input.disk;
      RunStopsBefore(input, window, Start(callers), actions, file);
    } else if Stuck(input, window, s) {
      StartProgresses(input, callers);
      RunProgresses(input, window, Start(callers), actions);
      EndedIsComplete(input, window, s);
    }
  }

  lemma {:induction false} EndedIsComplete(input: Input, window: int, s: State)
    requires Progressing(input, s) && Stuck(input, window, s) && s.callers != []
    ensures s.shutdown && s.taken == Expected(input)
    ensures s.unanswered == 0 && s.activeRequest == 0 && s.doneRecords == s.sent
  {
    StuckIsIdle(input, window, s);
    NoneBusy(s.callers);
    assert s.taken + [] == s.taken;
  }
}
