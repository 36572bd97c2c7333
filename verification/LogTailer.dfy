/** The polling log tailer (RunLogTailer in pkg/server/server.go) over a shared log buffer. */
module LogTailer {
  import opened Basics
  import opened LogBuffers

  datatype Exit = Following | SocketClosed | NotRunning | SendFailed

  /** What the tailer meets, in any order: an entry written by the unit, a tick of its timer, or
      the client going away. `between` is written during a tick, after the probing read that is
      made when the unit is not running and before the read that fetches the entries. */
  datatype Event =
    | Write(entry: LogEntry)
    | Tick(unitRunning: bool, between: seq<LogEntry>, sendOk: bool)
    | Close

  /** `delivered` is what the client received. The remaining fields below it record, for every
      position the cursor passed, whether it was delivered, overwritten before it could be read,
      or read but not sent. */
  datatype State = State(
    history: seq<LogEntry>, cursor: nat, exit: Exit, delivered: seq<LogEntry>,
    start: nat, positions: seq<nat>, lost: seq<nat>, unsent: seq<nat>, endAt: nat)

  function Init(history: seq<LogEntry>): State {
    State(history, |history|, Following, [], |history|, [], [], [], 0)
  }

  function Range(a: nat, b: nat): (r: seq<nat>)
    requires a <= b
    ensures |r| == b - a && forall i :: 0 <= i < |r| ==> r[i] == a + i
  {
    seq(b - a, i requires 0 <= i < b - a => a + i)
  }

  function Leave(s: State, why: Exit): State {
    s.(exit := why, endAt := |s.history|)
  }

  /** ReadSince(cursor) and the message sent for it. */
  function Fetch(s: State, cap: nat, sendOk: bool): State
    requires s.cursor <= |s.history|
  {
    var next, from := |s.history|, ResumeAt(|s.history|, cap, s.cursor);
    var t := s.(cursor := next, lost := s.lost + Range(s.cursor, from));
    if from >= next then t
    else if sendOk then
      t.(delivered := s.delivered + s.history[from..], positions := s.positions + Range(from, next))
    else Leave(t.(unsent := Range(from, next)), SendFailed)
  }

  function Step(s: State, cap: nat, e: Event): State
    requires s.cursor <= |s.history|
  {
    match e
    case Write(entry) => s.(history := s.history + [entry])
    case Close => if s.exit == Following then Leave(s, SocketClosed) else s
    case Tick(unitRunning, between, sendOk) =>
      if s.exit != Following then s
      else if unitRunning then Fetch(s, cap, sendOk)
      else if EntriesSince(s.history, cap, s.cursor) == [] then Leave(s, NotRunning)
      else Fetch(s.(history := s.history + between), cap, sendOk)
  }

  function Run(history: seq<LogEntry>, cap: nat, events: seq<Event>): (s: State)
    requires 0 < cap
    ensures s.cursor <= |s.history|
  {
    if events == [] then Init(history)
    else Step(Run(history, cap, events[..|events| - 1]), cap, events[|events| - 1])
  }

  // ----- Conservation ------------------------------------------------------------------

  ghost predicate Accounted(s: State) {
    && s.start <= s.cursor <= |s.history|
    && Embeds(s.delivered, s.history, s.positions)
    && Increasing(s.positions, s.cursor)
    && (forall p :: p in s.positions || p in s.lost || p in s.unsent ==> s.start <= p < s.cursor)
    && (forall p :: s.start <= p < s.cursor ==> p in s.positions || p in s.lost || p in s.unsent)
    && |s.positions| + |s.lost| + |s.unsent| == s.cursor - s.start
    && (s.unsent != [] ==> s.exit == SendFailed)
    && (s.exit == NotRunning ==> s.cursor == s.endAt)
  }

  lemma FetchAccounts(s: State, cap: nat, sendOk: bool)
    requires 0 < cap && Accounted(s) && s.exit == Following
    ensures Accounted(Fetch(s, cap, sendOk))
  {
    var t := Fetch(s, cap, sendOk);
    var next, from := |s.history|, ResumeAt(|s.history|, cap, s.cursor);
    if from < next {
      var skipped, read := Range(s.cursor, from), Range(from, next);
      forall p | s.cursor <= p < next
        ensures p in skipped || p in read
      {
        if p < from { assert skipped[p - s.cursor] == p; } else { assert read[p - from] == p; }
      }
    }
  }

  lemma StepAccounts(s: State, cap: nat, e: Event)
    requires 0 < cap && Accounted(s)
    ensures Accounted(Step(s, cap, e))
  {
    if e.Tick? && s.exit == Following {
      if e.unitRunning {
        FetchAccounts(s, cap, e.sendOk);
      } else if EntriesSince(s.history, cap, s.cursor) != [] {
        var u := s.(history := s.history + e.between);
        assert Embeds(u.delivered, u.history, u.positions);
        FetchAccounts(u, cap, e.sendOk);
      }
    }
  }

  /** Every position the cursor has passed is exactly one of delivered, overwritten and unsent, and
      what was delivered is a duplicate-free, in-order part of what was written. */
  lemma {:induction false} TailerConserves(history: seq<LogEntry>, cap: nat, events: seq<Event>)
    requires 0 < cap
    ensures Accounted(Run(history, cap, events))
    ensures IsSubsequence(Run(history, cap, events).delivered, Run(history, cap, events).history)
  {
    if events != [] {
      TailerConserves(history, cap, events[..|events| - 1]);
      StepAccounts(Run(history, cap, events[..|events| - 1]), cap, events[|events| - 1]);
    }
    var s := Run(history, cap, events);
    assert Embeds(s.delivered, s.history, s.positions);
  }

  // ----- Polling in time ---------------------------------------------------------------

  /** What the events alone say: how many entries have been written since the last poll, before each
      earlier poll, and how polling has ended. */
  datatype Polls = Polls(pending: nat, counts: seq<nat>, exit: Exit)

  /** A poll comes after `n` writes. */
  function Poll(p: Polls, n: nat, sendOk: bool): Polls {
    Polls(0, p.counts + [n], if n > 0 && !sendOk then SendFailed else Following)
  }

  function PollsOf(events: seq<Event>): Polls {
    if events == [] then Polls(0, [], Following)
    else
      var p := PollsOf(events[..|events| - 1]);
      match events[|events| - 1]
      case Write(_) => p.(pending := p.pending + 1)
      case Close => if p.exit == Following then p.(exit := SocketClosed) else p
      case Tick(unitRunning, between, sendOk) =>
        if p.exit != Following then p
        else if unitRunning then Poll(p, p.pending, sendOk)
        else if p.pending == 0 then p.(exit := NotRunning)
        else Poll(p, p.pending + |between|, sendOk)
  }

  /** At most `cap` entries are written between any two polls. */
  ghost predicate InTime(events: seq<Event>, cap: nat) {
    forall n :: n in PollsOf(events).counts ==> n <= cap
  }

  /** By how much the writes before the polls exceed what the buffer holds. */
  function Excess(counts: seq<nat>, cap: nat): nat {
    if counts == [] then 0 else Excess(counts[..|counts| - 1], cap) + Max(0, counts[|counts| - 1] - cap)
  }

  lemma {:induction false} NoExcessExactlyWhen(counts: seq<nat>, cap: nat)
    ensures Excess(counts, cap) == 0 <==> forall n :: n in counts ==> n <= cap
  {
    if counts != [] {
      var before, last := counts[..|counts| - 1], counts[|counts| - 1];
      NoExcessExactlyWhen(before, cap);
      assert counts == before + [last];
      assert last in counts && forall n :: n in before ==> n in counts;
    }
  }

  ghost predicate InStep(s: State, p: Polls, cap: nat) {
    && s.cursor + p.pending == |s.history|
    && p.exit == s.exit
    && |s.lost| == Excess(p.counts, cap)
  }

  lemma FetchInStep(s: State, p: Polls, cap: nat, sendOk: bool)
    requires 0 < cap && InStep(s, p, cap) && s.exit == Following
    ensures InStep(Fetch(s, cap, sendOk), Poll(p, p.pending, sendOk), cap)
  {
    assert (p.counts + [p.pending])[..|p.counts|] == p.counts;
  }

  /** The events alone decide how far the tailer gets, how it ends, and how many entries are
      overwritten before they are read: those written between two polls beyond the capacity. */
  lemma {:induction false} PollsTellTheState(history: seq<LogEntry>, cap: nat, events: seq<Event>)
    requires 0 < cap
    ensures InStep(Run(history, cap, events), PollsOf(events), cap)
  {
    if events != [] {
      var before, e := events[..|events| - 1], events[|events| - 1];
      PollsTellTheState(history, cap, before);
      var s, p := Run(history, cap, before), PollsOf(before);
      if e.Tick? && p.exit == Following {
        if e.unitRunning {
          FetchInStep(s, p, cap, e.sendOk);
        } else if p.pending > 0 {
          var n := p.pending + |e.between|;
          FetchInStep(s.(history := s.history + e.between), p.(pending := n), cap, e.sendOk);
        }
      }
    }
  }

  /** Nothing is ever overwritten unread exactly when at most `cap` entries are written between any
      two polls. */
  lemma {:induction false} LosslessExactlyWhenPolledInTime(history: seq<LogEntry>, cap: nat, events: seq<Event>)
    requires 0 < cap
    ensures Run(history, cap, events).lost == [] <==> InTime(events, cap)
  {
    PollsTellTheState(history, cap, events);
    NoExcessExactlyWhen(PollsOf(events).counts, cap);
  }

  /** Until a send fails, a tailer that is polled in time has delivered exactly the entries between
      its start and its cursor. */
  lemma {:induction false} PolledInTimeDeliversAll(history: seq<LogEntry>, cap: nat, events: seq<Event>)
    requires 0 < cap
    requires InTime(events, cap) && Run(history, cap, events).exit != SendFailed
    ensures var s := Run(history, cap, events);
            && |history| <= s.cursor && s.cursor + PollsOf(events).pending == |s.history|
            && s.delivered == s.history[|history|..s.cursor]
  {
    TailerConserves(history, cap, events);
    PollsTellTheState(history, cap, events);
    LosslessExactlyWhenPolledInTime(history, cap, events);
    StartIsFixed(history, cap, events);
    AllAccountedIsAllDelivered(Run(history, cap, events));
  }

  lemma AllAccountedIsAllDelivered(s: State)
    requires Accounted(s) && s.lost == [] && s.exit != SendFailed
    ensures s.delivered == s.history[s.start..s.cursor]
  {
    DensePositions(s.positions, s.start, s.cursor);
    assert forall i :: 0 <= i < |s.delivered| ==> s.delivered[i] == s.history[s.start + i];
  }

  lemma {:induction false} StartIsFixed(history: seq<LogEntry>, cap: nat, events: seq<Event>)
    requires 0 < cap
    ensures Run(history, cap, events).start == |history|
    ensures history <= Run(history, cap, events).history
  {
    if events != [] {
      StartIsFixed(history, cap, events[..|events| - 1]);
    }
  }

  /** Strictly increasing positions that are as many as the interval they lie in fill it. */
  lemma {:induction false} DensePositions(at: seq<nat>, lo: nat, hi: nat)
    requires Increasing(at, hi) && lo <= hi && |at| == hi - lo
    requires forall p :: p in at ==> lo <= p
    ensures forall i :: 0 <= i < |at| ==> at[i] == lo + i
  {
    if at != [] {
      var n := |at| - 1;
      forall i | 0 <= i < n
        ensures at[i] < hi - 1
      {
        assert at[i] < at[n];
      }
      assert forall p :: p in at[..n] ==> p in at;
      DensePositions(at[..n], lo, hi - 1);
      assert at[n] in at;
      if n > 0 {
        assert at[n - 1] == lo + n - 1 && at[n - 1] < at[n];
      }
    }
  }

  /** When the tailer gives up because the unit is not running, all that was written up to that
      moment had been fetched: with timely polls the client has every entry. */
  lemma {:induction false} NotRunningExitIsDrained(history: seq<LogEntry>, cap: nat, events: seq<Event>)
    requires 0 < cap
    requires Run(history, cap, events).exit == NotRunning
    ensures var s := Run(history, cap, events);
            && |history| <= s.endAt <= |s.history|
            && |s.delivered| + |s.lost| == s.endAt - |history|
            && (InTime(events, cap) ==> s.delivered == s.history[|history|..s.endAt])
  {
    TailerConserves(history, cap, events);
    StartIsFixed(history, cap, events);
    if InTime(events, cap) {
      PolledInTimeDeliversAll(history, cap, events);
    }
  }

  // ----- The loop ----------------------------------------------------------------------

  /** RunLogTailer, driven by the given events; `delivered` collects the messages sent. */
  method RunLogTailer(logBuffer: LogBuffer, events: seq<Event>)
    returns (delivered: seq<LogEntry>, lastOffset: int, exit: Exit)
    requires logBuffer.Valid() && logBuffer.capacity > 0
    modifies logBuffer, logBuffer.buf
    ensures logBuffer.Valid()
    ensures var s := Run(old(logBuffer.history), logBuffer.capacity, events);
            logBuffer.history == s.history && delivered == s.delivered && lastOffset == s.cursor && exit == s.exit
  {
    ghost var history, cap := logBuffer.history, logBuffer.capacity;
    lastOffset := logBuffer.GetOffset();
    delivered, exit := [], Following;
    for i := 0 to |events|
      invariant logBuffer.Valid() && logBuffer.buf == old(logBuffer.buf)
      invariant var s := Run(history, cap, events[..i]);
                logBuffer.history == s.history && delivered == s.delivered && lastOffset == s.cursor && exit == s.exit
    {
      ghost var s := Run(history, cap, events[..i]);
      assert events[..i + 1][..i] == events[..i];
      assert Run(history, cap, events[..i + 1]) == Step(s, cap, events[i]);
      match events[i] {
        case Write(entry) =>
          logBuffer.Write(entry);
        case Close =>
          if exit == Following { exit := SocketClosed; }
        case Tick(unitRunning, between, sendOk) =>
          if exit == Following {
            delivered, lastOffset, exit := OnTick(logBuffer, delivered, lastOffset, events[i], s);
          }
      }
    }
    assert events[..|events|] == events;
  }

  /** What the loop does when its timer fires. */
  method OnTick(logBuffer: LogBuffer, sent: seq<LogEntry>, offset: int, tick: Event, ghost s: State)
    returns (delivered: seq<LogEntry>, lastOffset: int, exit: Exit)
    requires logBuffer.Valid() && logBuffer.capacity > 0 && tick.Tick?
    requires logBuffer.history == s.history && sent == s.delivered && offset == s.cursor && s.exit == Following
    requires s.cursor <= |s.history|
    modifies logBuffer, logBuffer.buf
    ensures logBuffer.Valid() && logBuffer.buf == old(logBuffer.buf)
    ensures var t := Step(s, logBuffer.capacity, tick);
            logBuffer.history == t.history && delivered == t.delivered && lastOffset == t.cursor && exit == t.exit
  {
    delivered, lastOffset, exit := sent, offset, Following;
    var entries, ignored := [], 0;
    if !tick.unitRunning {
      entries, ignored := logBuffer.ReadSince(lastOffset);
      if |entries| == 0 {
        return delivered, lastOffset, NotRunning;
      }
      WriteAll(logBuffer, tick.between);
    }
    entries, lastOffset := logBuffer.ReadSince(lastOffset);
    if |entries| > 0 {
      if tick.sendOk {
        delivered := delivered + entries;
      } else {
        exit := SendFailed;
      }
    }
  }

  method WriteAll(logBuffer: LogBuffer, entries: seq<LogEntry>)
    requires logBuffer.Valid() && logBuffer.capacity > 0
    modifies logBuffer, logBuffer.buf
    ensures logBuffer.Valid() && logBuffer.buf == old(logBuffer.buf)
    ensures logBuffer.history == old(logBuffer.history) + entries
  {
    for i := 0 to |entries|
      invariant logBuffer.Valid() && logBuffer.buf == old(logBuffer.buf)
      invariant logBuffer.history == old(logBuffer.history) + entries[..i]
    {
      logBuffer.Write(entries[i]);
    }
  }
}
