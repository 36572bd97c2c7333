/** A running unit being watched, end to end: three probe workers ticking on their own, their lossy
    result channels, and the watcher that receives from them (pkg/prober/worker.go and
    watchRunningCmd in pkg/unit/unit.go). Every interleaving of the events below is a run. */
module WatchSystem {
  import opened Basics
  import opened UnitStatuses
  import opened ProbeWorkers
  import opened UnitLoops

  // ----- One worker and its channel ----------------------------------------------------

  /** A result reported at the end of the first `at` ticks. */
  datatype Report = Report(result: Result, at: nat)

  /** `reported` lists every result the worker tried to send; `arrived` are the positions in it of
      those received or waiting in the channel, and `lost` counts the others. */
  datatype Probe = Probe(
    worker: Worker, ticks: seq<Tick>, channel: seq<Report>, received: seq<Report>,
    reported: seq<Report>, arrived: seq<nat>, lost: nat)

  const NEW_PROBE := Probe(NEW_WORKER, [], [], [], [], [], 0)

  function TickProbe(p: Probe, t: ProbeType, spec: ProbeSpec, tick: Tick): Probe {
    var (w, emitted) := DoProbe(p.worker, t, spec, tick);
    var q := p.(worker := w, ticks := p.ticks + [tick]);
    if emitted.None? then q else Send(q, Report(emitted.value, |q.ticks|))
  }

  function Send(p: Probe, r: Report): Probe {
    var q := p.(channel := Offer(p.channel, r), reported := p.reported + [r]);
    if |p.channel| < RESULTS_CAPACITY then q.(arrived := p.arrived + [|p.reported|]) else q.(lost := p.lost + 1)
  }

  function Results(channel: seq<Report>): seq<Result> {
    seq(|channel|, i requires 0 <= i < |channel| => channel[i].result)
  }

  /** A tick does to the worker and its channel what one turn of the worker's loop does. */
  lemma TickIsTurn(p: Probe, t: ProbeType, spec: ProbeSpec, tick: Tick)
    ensures var q := TickProbe(p, t, spec, tick); var (w, emitted) := DoProbe(p.worker, t, spec, tick);
            q.worker == w && Results(q.channel) == Emitted(Results(p.channel), emitted)
  {
    var emitted := DoProbe(p.worker, t, spec, tick).1;
    if emitted.Some? {
      var r := Report(emitted.value, |p.ticks| + 1);
      assert Results(p.channel + [r]) == Results(p.channel) + [emitted.value];
    }
  }

  function Receive(p: Probe): Probe
    requires p.channel != []
  {
    p.(channel := p.channel[1..], received := p.received + [p.channel[0]])
  }

  /** The outcomes counted in the first `n` ticks end with `threshold` times `r`. */
  ghost predicate RunOf(ticks: seq<Tick>, r: Result, threshold: int, n: nat)
    requires n <= |ticks|
  {
    EndsWith(CountedOf(ticks[..n]), r, threshold)
  }

  /** What a report says about the ticks up to it. */
  ghost predicate Justified(ticks: seq<Tick>, t: ProbeType, spec: ProbeSpec, r: Report) {
    && 0 < r.at <= |ticks|
    && match ticks[r.at - 1]
       case InitialDelay => r.result == InitialValue(t)
       case Discarded => false
       case Counted(x) =>
         && r.result == x
         && (x == Failure ==> RunOf(ticks, Failure, spec.failureThreshold, r.at))
         && (x == Success ==> RunOf(ticks, Success, spec.successThreshold, r.at))
  }

  lemma JustifiedStays(ticks: seq<Tick>, tick: Tick, t: ProbeType, spec: ProbeSpec, r: Report)
    requires Justified(ticks, t, spec, r)
    ensures Justified(ticks + [tick], t, spec, r)
  {
    assert (ticks + [tick])[..r.at] == ticks[..r.at];
  }

  lemma NewReportIsJustified(ticks: seq<Tick>, tick: Tick, t: ProbeType, spec: ProbeSpec)
    requires tick != Counted(Unknown)
    ensures var emitted := DoProbe(WorkerAfter(ticks, t, spec), t, spec, tick).1;
            emitted.Some? ==> Justified(ticks + [tick], t, spec, Report(emitted.value, |ticks| + 1))
  {
    ReportsExactlyAtThreshold(ticks, t, spec, tick);
    var all := ticks + [tick];
    assert all[..|ticks| + 1] == all && all[..|all| - 1] == ticks;
  }

  /** Nothing is invented, reordered or repeated between the worker and the receiver: what arrives
      is what was reported, apart from results that found the channel full. */
  ghost predicate ChannelOk(p: Probe) {
    && |p.channel| <= RESULTS_CAPACITY
    && Embeds(p.received + p.channel, p.reported, p.arrived)
    && |p.received| + |p.channel| + p.lost == |p.reported|
    && (p.lost == 0 ==> p.received + p.channel == p.reported)
  }

  ghost predicate ReportsOk(reported: seq<Report>, ticks: seq<Tick>, t: ProbeType, spec: ProbeSpec) {
    && (forall i :: 0 <= i < |reported| ==> Justified(ticks, t, spec, reported[i]))
    && (forall i, j :: 0 <= i < j < |reported| ==> reported[i].at < reported[j].at)
  }

  ghost predicate ProbeOk(p: Probe, t: ProbeType, spec: ProbeSpec) {
    p.worker == WorkerAfter(p.ticks, t, spec) && ReportsOk(p.reported, p.ticks, t, spec) && ChannelOk(p)
  }

  lemma SendKeepsChannelOk(p: Probe, r: Report)
    requires ChannelOk(p)
    ensures ChannelOk(Send(p, r))
  {
    var q := Send(p, r);
    if |p.channel| < RESULTS_CAPACITY {
      assert q.received + q.channel == (p.received + p.channel) + [r];
    }
  }

  lemma ReportsStayOk(reported: seq<Report>, ticks: seq<Tick>, tick: Tick, t: ProbeType, spec: ProbeSpec)
    requires ReportsOk(reported, ticks, t, spec)
    ensures ReportsOk(reported, ticks + [tick], t, spec)
  {
    forall i | 0 <= i < |reported|
      ensures Justified(ticks + [tick], t, spec, reported[i])
    {
      JustifiedStays(ticks, tick, t, spec, reported[i]);
    }
  }

  /** A report of the newest tick can be added. */
  lemma ReportAdded(reported: seq<Report>, ticks: seq<Tick>, tick: Tick, t: ProbeType, spec: ProbeSpec, r: Report)
    requires ReportsOk(reported, ticks, t, spec) && r.at == |ticks| + 1 && Justified(ticks + [tick], t, spec, r)
    ensures ReportsOk(reported + [r], ticks + [tick], t, spec)
  {
    ReportsStayOk(reported, ticks, tick, t, spec);
    assert forall i :: 0 <= i < |reported| ==> Justified(ticks, t, spec, reported[i]);
  }

  lemma TickKeepsOk(p: Probe, t: ProbeType, spec: ProbeSpec, tick: Tick)
    requires ProbeOk(p, t, spec) && tick != Counted(Unknown)
    ensures ProbeOk(TickProbe(p, t, spec, tick), t, spec)
  {
    var (w, emitted) := DoProbe(p.worker, t, spec, tick);
    var all := p.ticks + [tick];
    WorkerAfterOneMore(p.ticks, tick, t, spec);
    ReportsStayOk(p.reported, p.ticks, tick, t, spec);
    var q := p.(worker := w, ticks := all);
    if emitted.Some? {
      var r := Report(emitted.value, |all|);
      NewReportIsJustified(p.ticks, tick, t, spec);
      ReportAdded(p.reported, p.ticks, tick, t, spec, r);
      SendKeepsChannelOk(q, r);
      assert TickProbe(p, t, spec, tick) == Send(q, r);
    } else {
      assert TickProbe(p, t, spec, tick) == q;
    }
  }

  lemma WorkerAfterOneMore(ticks: seq<Tick>, tick: Tick, t: ProbeType, spec: ProbeSpec)
    ensures WorkerAfter(ticks + [tick], t, spec) == DoProbe(WorkerAfter(ticks, t, spec), t, spec, tick).0
  {
    assert (ticks + [tick])[..|ticks|] == ticks;
  }

  lemma ReceiveKeepsOk(p: Probe, t: ProbeType, spec: ProbeSpec)
    requires ProbeOk(p, t, spec) && p.channel != []
    ensures ProbeOk(Receive(p), t, spec)
  {
    assert Receive(p).received + Receive(p).channel == p.received + p.channel;
  }

  /** The last result received is `r`. */
  predicate Heard(p: Probe, r: Result) {
    p.received != [] && p.received[|p.received| - 1].result == r
  }

  /** The last result received is `r`, and when the worker reported it, its counted outcomes ended
      with `threshold` times `r`. */
  ghost predicate Proven(p: Probe, r: Result, threshold: int) {
    && Heard(p, r)
    && var n := p.received[|p.received| - 1].at;
       n <= |p.ticks| && RunOf(p.ticks, r, threshold, n)
  }

  lemma HeardIsProven(p: Probe, t: ProbeType, spec: ProbeSpec, r: Result)
    requires ProbeOk(p, t, spec) && r != InitialValue(t) && r != Unknown
    ensures Heard(p, r) <==> Proven(p, r, if r == Failure then spec.failureThreshold else spec.successThreshold)
  {
    if Heard(p, r) {
      var k := |p.received| - 1;
      assert (p.received + p.channel)[k] == p.received[k];
      assert p.received[k] == p.reported[p.arrived[k]];
    }
  }

  // ----- The whole system --------------------------------------------------------------

  datatype Specs = Specs(startup: ProbeSpec, liveness: ProbeSpec, readiness: ProbeSpec)

  /** `events` is what the watcher has received so far, in order. */
  datatype System = System(
    startup: Probe, liveness: Probe, readiness: Probe, watch: Watch, file: File, events: seq<WatchEvent>)

  /** A worker ticks, the watcher receives from one channel, or the command ends. */
  datatype Event = Ticks(t: ProbeType, tick: Tick) | Receives(t: ProbeType) | CommandEnds(cmd: CmdResult)

  function Init(cfg: Config, f: File): System {
    var (w, g) := Begin(cfg, f);
    System(NEW_PROBE, NEW_PROBE, NEW_PROBE, w, g, [])
  }

  /** The watcher takes `e`. */
  function Take(s: System, cfg: Config, e: WatchEvent): System {
    var (w, f) := WatchStep(cfg, s.watch, s.file, e);
    s.(watch := w, file := f, events := s.events + [e])
  }

  /** The startup worker runs from the beginning, the other two from when the unit has started; the
      watcher selects among the channels of the phase it is in. Events that cannot happen in a
      state leave it as it is. */
  function Step(s: System, cfg: Config, specs: Specs, e: Event): System {
    match e
    case Ticks(Startup, tick) =>
      if cfg.startup then s.(startup := TickProbe(s.startup, Startup, specs.startup, tick)) else s
    case Ticks(Liveness, tick) =>
      if cfg.liveness && s.watch.Watching?
      then s.(liveness := TickProbe(s.liveness, Liveness, specs.liveness, tick)) else s
    case Ticks(Readiness, tick) =>
      if cfg.readiness && s.watch.Watching?
      then s.(readiness := TickProbe(s.readiness, Readiness, specs.readiness, tick)) else s
    case Receives(Startup) =>
      if s.watch.AwaitingStartup? && s.startup.channel != []
      then Take(s.(startup := Receive(s.startup)), cfg, StartupResult(s.startup.channel[0].result)) else s
    case Receives(Liveness) =>
      if s.watch.Watching? && s.liveness.channel != []
      then Take(s.(liveness := Receive(s.liveness)), cfg, LivenessResult(s.liveness.channel[0].result)) else s
    case Receives(Readiness) =>
      if s.watch.Watching? && s.readiness.channel != []
      then Take(s.(readiness := Receive(s.readiness)), cfg, ReadinessResult(s.readiness.channel[0].result)) else s
    case CommandEnds(cmd) =>
      if s.watch.Over? then s else Take(s, cfg, CmdDone(cmd))
  }

  function Run(cfg: Config, specs: Specs, f: File, events: seq<Event>): System {
    if events == [] then Init(cfg, f)
    else Step(Run(cfg, specs, f, events[..|events| - 1]), cfg, specs, events[|events| - 1])
  }

  /** The prober's outcomes are only ever Success and Failure. */
  ghost predicate RealOutcomes(events: seq<Event>) {
    forall i :: 0 <= i < |events| && events[i].Ticks? ==> events[i].tick != Counted(Unknown)
  }

  // ----- The system refines the watch of the restart loop -------------------------------

  lemma {:induction false} WatchIgnoresLater(cfg: Config, f: File, events: seq<WatchEvent>, e: WatchEvent, n: nat)
    requires n <= |events|
    ensures WatchAfter(cfg, f, events + [e], n) == WatchAfter(cfg, f, events, n)
  {
    if n > 0 {
      WatchIgnoresLater(cfg, f, events, e, n - 1);
    }
  }

  ghost predicate Follows(s: System, cfg: Config, f: File) {
    (s.watch, s.file) == WatchAfter(cfg, f, s.events, |s.events|)
  }

  lemma TakeFollows(s: System, cfg: Config, f: File, e: WatchEvent)
    requires Follows(s, cfg, f)
    ensures Follows(Take(s, cfg, e), cfg, f)
  {
    WatchIgnoresLater(cfg, f, s.events, e, |s.events|);
  }

  lemma StepFollows(s: System, cfg: Config, specs: Specs, f: File, e: Event)
    requires Follows(s, cfg, f)
    ensures Follows(Step(s, cfg, specs, e), cfg, f)
  {
    match e {
      case Receives(Startup) =>
        if s.watch.AwaitingStartup? && s.startup.channel != [] {
          TakeFollows(s.(startup := Receive(s.startup)), cfg, f, StartupResult(s.startup.channel[0].result));
        }
      case Receives(Liveness) =>
        if s.watch.Watching? && s.liveness.channel != [] {
          TakeFollows(s.(liveness := Receive(s.liveness)), cfg, f, LivenessResult(s.liveness.channel[0].result));
        }
      case Receives(Readiness) =>
        if s.watch.Watching? && s.readiness.channel != [] {
          TakeFollows(s.(readiness := Receive(s.readiness)), cfg, f, ReadinessResult(s.readiness.channel[0].result));
        }
      case CommandEnds(cmd) => TakeFollows(s, cfg, f, CmdDone(cmd));
      case Ticks(_, _) =>
    }
  }

  /** Every interleaving of the workers and the watcher is one of the watches that the restart loop
      is proved for: the received events produce the same end and the same status file. */
  lemma {:induction false} SystemRefinesWatch(cfg: Config, specs: Specs, f: File, events: seq<Event>)
    ensures var s := Run(cfg, specs, f, events); (s.watch, s.file) == WatchAfter(cfg, f, s.events, |s.events|)
  {
    if events != [] {
      SystemRefinesWatch(cfg, specs, f, events[..|events| - 1]);
      StepFollows(Run(cfg, specs, f, events[..|events| - 1]), cfg, specs, f, events[|events| - 1]);
    }
  }

  // ----- End to end --------------------------------------------------------------------

  ghost predicate ProbesOk(s: System, specs: Specs) {
    && ProbeOk(s.startup, Startup, specs.startup)
    && ProbeOk(s.liveness, Liveness, specs.liveness)
    && ProbeOk(s.readiness, Readiness, specs.readiness)
  }

  lemma StepKeepsProbesOk(s: System, cfg: Config, specs: Specs, e: Event)
    requires ProbesOk(s, specs) && (e.Ticks? ==> e.tick != Counted(Unknown))
    ensures ProbesOk(Step(s, cfg, specs, e), specs)
  {
    match e {
      case Ticks(Startup, tick) => TickKeepsOk(s.startup, Startup, specs.startup, tick);
      case Ticks(Liveness, tick) => TickKeepsOk(s.liveness, Liveness, specs.liveness, tick);
      case Ticks(Readiness, tick) => TickKeepsOk(s.readiness, Readiness, specs.readiness, tick);
      case Receives(Startup) =>
        if s.startup.channel != [] { ReceiveKeepsOk(s.startup, Startup, specs.startup); }
      case Receives(Liveness) =>
        if s.liveness.channel != [] { ReceiveKeepsOk(s.liveness, Liveness, specs.liveness); }
      case Receives(Readiness) =>
        if s.readiness.channel != [] { ReceiveKeepsOk(s.readiness, Readiness, specs.readiness); }
      case CommandEnds(_) =>
    }
  }

  /** What the watcher does is decided by the last result it heard from each probe. */
  ghost predicate Decided(s: System, cfg: Config) {
    && (s.watch == Over(StartupFailed) <==> cfg.startup && Heard(s.startup, Failure))
    && (s.watch == Over(LivenessFailed) <==> Heard(s.liveness, Failure))
    && (s.file.status.started == Some(true) <==> !cfg.startup || Heard(s.startup, Success))
    && (s.file.status.ready <==> s.file.status.started == Some(true) && (!cfg.readiness || Heard(s.readiness, Success)))
    && (s.watch.AwaitingStartup? ==> cfg.startup && s.file.status.started != Some(true))
    && (s.watch.Watching? ==> s.file.status.started == Some(true))
    && (!cfg.liveness ==> s.liveness == NEW_PROBE)
    && (!cfg.readiness ==> s.readiness == NEW_PROBE)
    && (!cfg.startup ==> s.startup == NEW_PROBE)
    && (s.file.status.started != Some(true) ==> s.liveness == NEW_PROBE && s.readiness == NEW_PROBE)
  }

  /** A tick is not heard until it is received. */
  lemma TickIsNotHeard(p: Probe, t: ProbeType, spec: ProbeSpec, tick: Tick, r: Result)
    ensures Heard(TickProbe(p, t, spec, tick), r) <==> Heard(p, r)
  {
  }

  lemma ReceiveIsHeard(p: Probe, r: Result)
    requires p.channel != []
    ensures Heard(Receive(p), r) <==> p.channel[0].result == r
  {
  }

  lemma StepKeepsDecided(s: System, cfg: Config, specs: Specs, e: Event)
    requires Decided(s, cfg)
    ensures Decided(Step(s, cfg, specs, e), cfg)
  {
    match e {
      case Ticks(Startup, tick) =>
        TickIsNotHeard(s.startup, Startup, specs.startup, tick, Success);
        TickIsNotHeard(s.startup, Startup, specs.startup, tick, Failure);
      case Ticks(Liveness, tick) => TickIsNotHeard(s.liveness, Liveness, specs.liveness, tick, Failure);
      case Ticks(Readiness, tick) => TickIsNotHeard(s.readiness, Readiness, specs.readiness, tick, Success);
      case Receives(t) => ReceivingKeepsDecided(s, cfg, specs, t);
      case CommandEnds(_) =>
    }
  }

  lemma ReceivingKeepsDecided(s: System, cfg: Config, specs: Specs, t: ProbeType)
    requires Decided(s, cfg)
    ensures Decided(Step(s, cfg, specs, Receives(t)), cfg)
  {
    match t {
      case Startup =>
        if s.startup.channel != [] {
          ReceiveIsHeard(s.startup, Success);
          ReceiveIsHeard(s.startup, Failure);
        }
      case Liveness =>
        if s.liveness.channel != [] { ReceiveIsHeard(s.liveness, Failure); }
      case Readiness =>
        if s.readiness.channel != [] { ReceiveIsHeard(s.readiness, Success); }
    }
  }

  lemma {:induction false} RunInvariant(cfg: Config, specs: Specs, f: File, restarts: int, events: seq<Event>)
    requires RealOutcomes(events)
    ensures var s := Run(cfg, specs, StartFile(f, restarts), events); ProbesOk(s, specs) && Decided(s, cfg)
  {
    if events != [] {
      var before := events[..|events| - 1];
      assert events[|events| - 1].Ticks? ==> events[|events| - 1].tick != Counted(Unknown);
      RunInvariant(cfg, specs, f, restarts, before);
      var s := Run(cfg, specs, StartFile(f, restarts), before);
      StepKeepsProbesOk(s, cfg, specs, events[|events| - 1]);
      StepKeepsDecided(s, cfg, specs, events[|events| - 1]);
    } else {
      assert Embeds(NEW_PROBE.received + NEW_PROBE.channel, NEW_PROBE.reported, []);
    }
  }

  /** In every run, what the watcher does is justified by the outcomes behind the results it heard:
      a probe kill by as many counted failures in a row as that probe's failure threshold, being
      started under a startup probe by its run of successes, and being ready under a readiness
      probe by its run of successes. The last result heard decides, in both directions. */
  lemma {:induction false} ProbesDecideEndToEnd(cfg: Config, specs: Specs, f: File, restarts: int, events: seq<Event>)
    requires RealOutcomes(events)
    ensures var s := Run(cfg, specs, StartFile(f, restarts), events);
            var started := s.file.status.started == Some(true);
            && (s.watch == Over(StartupFailed) <==>
                  cfg.startup && Proven(s.startup, Failure, specs.startup.failureThreshold))
            && (s.watch == Over(LivenessFailed) <==>
                  cfg.liveness && Proven(s.liveness, Failure, specs.liveness.failureThreshold))
            && (started <==> !cfg.startup || Proven(s.startup, Success, specs.startup.successThreshold))
            && (s.file.status.ready <==>
                  started && (!cfg.readiness || Proven(s.readiness, Success, specs.readiness.successThreshold)))
  {
    RunInvariant(cfg, specs, f, restarts, events);
    var s := Run(cfg, specs, StartFile(f, restarts), events);
    HeardIsProven(s.startup, Startup, specs.startup, Failure);
    HeardIsProven(s.startup, Startup, specs.startup, Success);
    HeardIsProven(s.liveness, Liveness, specs.liveness, Failure);
    HeardIsProven(s.readiness, Readiness, specs.readiness, Success);
  }

  ghost predicate EndedAt(cfg: Config, specs: Specs, f: File, events: seq<Event>, k: nat, cmd: CmdResult) {
    k < |events| && events[k] == CommandEnds(cmd) && !Run(cfg, specs, f, events[..k]).watch.Over?
  }

  lemma EndedEarlier(cfg: Config, specs: Specs, f: File, events: seq<Event>, k: nat, cmd: CmdResult)
    requires events != []
    ensures EndedAt(cfg, specs, f, events, k, cmd) <==>
            || EndedAt(cfg, specs, f, events[..|events| - 1], k, cmd)
            || (k == |events| - 1 && events[k] == CommandEnds(cmd)
                && !Run(cfg, specs, f, events[..|events| - 1]).watch.Over?)
  {
    if k < |events| - 1 {
      assert events[..|events| - 1][..k] == events[..k];
    }
  }

  /** Only the end of the command ends the watch with a result of the command. */
  lemma StepExits(s: System, cfg: Config, specs: Specs, e: Event, cmd: CmdResult)
    ensures Step(s, cfg, specs, e).watch == Over(Exited(cmd)) <==>
            s.watch == Over(Exited(cmd)) || (!s.watch.Over? && e == CommandEnds(cmd))
  {
  }

  /** Over whole runs: the watch is over with the command's own result exactly when the command ended
      with it while it was being watched. */
  lemma {:induction false} ExitsEndToEnd(cfg: Config, specs: Specs, f: File, events: seq<Event>, cmd: CmdResult)
    ensures Run(cfg, specs, f, events).watch == Over(Exited(cmd)) <==>
            exists k :: EndedAt(cfg, specs, f, events, k, cmd)
  {
    if events != [] {
      var before, e := events[..|events| - 1], events[|events| - 1];
      ExitsEndToEnd(cfg, specs, f, before, cmd);
      StepExits(Run(cfg, specs, f, before), cfg, specs, e, cmd);
      forall k: nat
        ensures EndedAt(cfg, specs, f, events, k, cmd) <==>
                || EndedAt(cfg, specs, f, before, k, cmd)
                || (k == |before| && e == CommandEnds(cmd) && !Run(cfg, specs, f, before).watch.Over?)
      {
        EndedEarlier(cfg, specs, f, events, k, cmd);
      }
      if k :| EndedAt(cfg, specs, f, before, k, cmd) {
        assert EndedAt(cfg, specs, f, events, k, cmd);
      }
      if e == CommandEnds(cmd) && !Run(cfg, specs, f, before).watch.Over? {
        assert EndedAt(cfg, specs, f, events, |before|, cmd);
      }
    }
  }

  function ProbeOf(s: System, t: ProbeType): Probe {
    match t
    case Startup => s.startup
    case Liveness => s.liveness
    case Readiness => s.readiness
  }

  /** The watcher receives from the channels of the phase it is in. */
  predicate Listens(w: Watch, t: ProbeType) {
    match t
    case Startup => w.AwaitingStartup?
    case _ => w.Watching?
  }

  /** No result is passed over: a receive takes the oldest one waiting, and a failure of the startup or
      liveness probe ends the watch there and then. */
  lemma ReceivesOldest(s: System, cfg: Config, specs: Specs, t: ProbeType)
    requires Listens(s.watch, t) && ProbeOf(s, t).channel != []
    requires t == Liveness ==> cfg.liveness
    ensures var r := ProbeOf(s, t).channel[0]; var u := Step(s, cfg, specs, Receives(t));
            && ProbeOf(u, t).received == ProbeOf(s, t).received + [r]
            && [r] + ProbeOf(u, t).channel == ProbeOf(s, t).channel
            && (forall o :: o != t ==> ProbeOf(u, o) == ProbeOf(s, o))
            && (t == Startup && r.result == Failure ==> u.watch == Over(StartupFailed))
            && (t == Startup && r.result == Success ==> u.watch == Watching)
            && (t == Liveness && r.result == Failure ==> u.watch == Over(LivenessFailed))
  {
  }

  /** While they are to run, the configured workers do tick. */
  lemma WorkersTick(s: System, cfg: Config, specs: Specs, t: ProbeType, tick: Tick)
    requires Listens(s.watch, t)
    requires match t case Startup => cfg.startup case Liveness => cfg.liveness case Readiness => cfg.readiness
    ensures var spec := match t
                        case Startup => specs.startup
                        case Liveness => specs.liveness
                        case Readiness => specs.readiness;
            var u := Step(s, cfg, specs, Ticks(t, tick));
            ProbeOf(u, t) == TickProbe(ProbeOf(s, t), t, spec, tick) && (u.watch, u.file) == (s.watch, s.file)
  {
  }

  ghost predicate InOrder(p: Probe) {
    && IsSubsequence(p.received, p.reported)
    && |p.channel| <= 2
    && (p.lost == 0 <==> p.received + p.channel == p.reported)
  }

  lemma ChannelInOrder(p: Probe)
    requires ChannelOk(p)
    ensures InOrder(p)
  {
    var n := |p.received|;
    forall i | 0 <= i < n ensures p.received[i] == p.reported[p.arrived[i]] {
      assert (p.received + p.channel)[i] == p.received[i];
    }
    assert Embeds(p.received, p.reported, p.arrived[..n]);
  }

  /** In every run the results received from each worker are an in-order, duplicate-free part of
      those it reported; nothing is missing but what still waits in the channel exactly when no
      report ever found the channel full. */
  lemma {:induction false} ResultsArriveInOrder(cfg: Config, specs: Specs, f: File, restarts: int, events: seq<Event>)
    requires RealOutcomes(events)
    ensures var s := Run(cfg, specs, StartFile(f, restarts), events);
            InOrder(s.startup) && InOrder(s.liveness) && InOrder(s.readiness)
  {
    RunInvariant(cfg, specs, f, restarts, events);
    var s := Run(cfg, specs, StartFile(f, restarts), events);
    ChannelInOrder(s.startup);
    ChannelInOrder(s.liveness);
    ChannelInOrder(s.readiness);
  }
}
