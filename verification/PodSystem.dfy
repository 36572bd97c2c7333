/** The pod controller as a concurrent system: callers of UpdatePod, the update loop with the
    synchronisation it runs, and the goroutine that starts the units
    (pkg/server/pod_controller.go). Every step is atomic; a run is any sequence of events, and an
    event that is not enabled changes nothing. */
module PodSystem {
  import opened Basics
  import opened PodSpecs
  import opened PodSync

  const SPEC_CHAN_SIZE := 100

  // ----- State -------------------------------------------------------------------------

  /** Where the update loop is. */
  datatype Consumer =
    | Looping
    | Discarding                              // has seen more than one pending update
    | Taking                                  // about to receive an update
    | Syncing(spec: PodSpec, rest: seq<Call>) // runtime calls still to be made
    | Launching(spec: PodSpec, job: Job)      // in waitGroup.Wait()

  /** The update channel and its two ends. `accepted`, `taken`, `applied` and `appliedAt` only
      record what happened: the updates sent, how many left the channel, and which were applied. */
  datatype Updates = Updates(
    queue: seq<PodSpec>, pending: map<int, PodSpec>,
    accepted: seq<PodSpec>, taken: nat, applied: seq<PodSpec>, appliedAt: seq<nat>)

  /** Where the starting goroutine is; `i` counts through the init units and then the units. */
  datatype Starter =
    | Idle
    | Starting(job: Job, i: nat)
    | Awaiting(job: Job, i: nat)              // in waitForInitUnit

  datatype Note = StartCalled(unit: Unit) | InitExited(unit: Unit, code: int)
  datatype Entry = Entry(generation: nat, note: Note)

  /** `jobs` are the jobs launched so far, `log` the StartContainer calls and the observed init
      successes, each with the number of the job it belongs to. `cancelled` belongs to the context
      of the newest job. */
  datatype Starts = Starts(starter: Starter, waitGroup: nat, cancelled: bool, jobs: seq<Job>, log: seq<Entry>)

  datatype Fate = CreateFailed(name: string) | StartFailed(name: string) | UnitStarted(name: string)

  /** `clean` records that no call made by the update loop has failed so far, `launchedFor` the
      position among the applied updates of the one each job was launched for, and `since` how many
      fates there were when the newest job was launched. */
  datatype State = State(
    updates: Updates, consumer: Consumer, pod: Pod, podStatus: PodSpec, clean: bool,
    starts: Starts, launchedFor: seq<nat>, fates: seq<Fate>, since: nat)

  /** The status before the first update. */
  const NO_SPEC := PodSpec(PodRunning, Always, [], [])

  function Init(): State {
    State(Updates([], map[], [], 0, [], []), Looping, Pod([], map[], map[], PodRunning),
          NO_SPEC, true, Starts(Idle, 0, false, [], []), [], [], 0)
  }

  // ----- Steps -------------------------------------------------------------------------

  datatype Outcome = StartOk | StartError | SeesCancel | StatusError | NotTerminated | Exited(code: int)

  datatype Event =
    | Check(caller: int, spec: PodSpec)       // UpdatePod compares the length
    | Send(caller: int)                       // UpdatePod sends
    | Consume(ok: bool)                       // the update loop moves
    | Start(outcome: Outcome)                 // the starting goroutine moves

  function CheckStep(u: Updates, caller: int, spec: PodSpec): Updates {
    if caller in u.pending || |u.queue| == SPEC_CHAN_SIZE then u else u.(pending := u.pending[caller := spec])
  }

  function SendStep(u: Updates, caller: int): Updates {
    if caller !in u.pending || |u.queue| >= SPEC_CHAN_SIZE then u
    else
      var spec := u.pending[caller];
      u.(queue := u.queue + [spec], pending := u.pending - {caller}, accepted := u.accepted + [spec])
  }

  function Pop(u: Updates): Updates
    requires u.queue != []
  {
    u.(queue := u.queue[1..], taken := u.taken + 1)
  }

  function LastTaken(u: Updates): nat {
    if u.taken > 0 then u.taken - 1 else 0
  }

  function Applied(u: Updates, spec: PodSpec): Updates {
    u.(applied := u.applied + [spec], appliedAt := u.appliedAt + [LastTaken(u)])
  }

  /** The end of doUpdate. */
  function Finish(s: State, spec: PodSpec): State {
    s.(consumer := Looping, podStatus := spec.(phase := s.pod.phase), updates := Applied(s.updates, spec))
  }

  function ConsumeStep(s: State, ok: bool): State {
    match s.consumer
    case Looping => s.(consumer := if |s.updates.queue| > 1 then Discarding else Taking)
    case Discarding => if s.updates.queue == [] then s else s.(updates := Pop(s.updates), consumer := Looping)
    case Taking =>
      if s.updates.queue == [] then s
      else
        var spec := s.updates.queue[0];
        s.(updates := Pop(s.updates), consumer := Syncing(spec, Script(spec, s.podStatus)),
           pod := s.pod.(phase := StartPhase(spec, s.podStatus)))
    case Syncing(spec, rest) =>
      if rest == [] then
        if ChangeType(spec, s.podStatus) == NoChanges then Finish(s, spec)
        else s.(consumer := Launching(spec, JobOf(spec, s.podStatus)), starts := s.starts.(cancelled := true))
      else
        var t := s.(pod := Do(s.pod, rest[0], ok), clean := s.clean && ok,
                    fates := if !ok && rest[0].Create? then s.fates + [CreateFailed(rest[0].unit.name)] else s.fates);
        if ok then t.(consumer := Syncing(spec, rest[1..])) else Finish(t, spec)
    case Launching(spec, job) =>
      if s.starts.waitGroup != 0 then s
      else
        Finish(s.(pod := s.pod.(phase := PodRunning),
                  launchedFor := s.launchedFor + [|s.updates.applied|], since := |s.fates|,
                  starts := Starts(Starting(job, 0), 1, false, s.starts.jobs + [job], s.starts.log)), spec)
  }

  function Work(job: Job): seq<Unit> {
    job.inits + job.units
  }

  function Noted(x: Starts, note: Note): Starts {
    x.(log := x.log + [Entry(if x.jobs == [] then 0 else |x.jobs| - 1, note)])
  }

  /** waitGroup.Done() and return. */
  function Done(x: Starts): Starts {
    x.(starter := Idle, waitGroup := if x.waitGroup > 0 then x.waitGroup - 1 else 0)
  }

  function StartStep(s: State, o: Outcome): State {
    var x := s.starts;
    match x.starter
    case Idle => s
    case Starting(job, i) =>
      if i >= |Work(job)| then s.(starts := Done(x))
      else
        var unit := Work(job)[i];
        var y := Noted(x, StartCalled(unit));
        if o == StartError then
          s.(starts := Done(y), fates := s.fates + [StartFailed(unit.name)],
             pod := s.pod.(errors := s.pod.errors[unit.name := unit]))
        else if o != StartOk then s
        else if i < |job.inits| then s.(starts := y.(starter := Awaiting(job, i)))
        else
          s.(starts := y.(starter := Starting(job, i + 1)), fates := s.fates + [UnitStarted(unit.name)],
             pod := s.pod.(errors := s.pod.errors - {unit.name}))
    case Awaiting(job, i) =>
      if i >= |Work(job)| then s
      else
        match o
        case SeesCancel => if x.cancelled then s.(starts := x.(starter := Idle)) else s
        case Exited(code) =>
          if code == 0 then s.(starts := Noted(x, InitExited(Work(job)[i], code)).(starter := Starting(job, i + 1)))
          else if job.policy == Never then s.(starts := x.(starter := Idle))
          else s
        case _ => s
  }

  function Step(s: State, e: Event): State {
    match e
    case Check(caller, spec) => s.(updates := CheckStep(s.updates, caller, spec))
    case Send(caller) => s.(updates := SendStep(s.updates, caller))
    case Consume(ok) => ConsumeStep(s, ok)
    case Start(o) => StartStep(s, o)
  }

  function Run(events: seq<Event>): State {
    if events == [] then Init() else Step(Run(events[..|events| - 1]), events[|events| - 1])
  }

  // ----- Update conflation -------------------------------------------------------------

  function InHand(c: Consumer): Option<PodSpec> {
    match c
    case Syncing(spec, _) => Some(spec)
    case Launching(spec, _) => Some(spec)
    case _ => None
  }

  /** `hand` is the update the loop is working on. */
  ghost predicate Conflating(u: Updates, hand: Option<PodSpec>) {
    && |u.queue| <= SPEC_CHAN_SIZE
    && u.taken <= |u.accepted| && u.queue == u.accepted[u.taken..]
    && Embeds(u.applied, u.accepted, u.appliedAt)
    && (match hand
        case Some(spec) => u.taken > 0 && spec == u.accepted[u.taken - 1] && Increasing(u.appliedAt, u.taken - 1)
        case None => Increasing(u.appliedAt, u.taken)
                     && (0 < u.taken == |u.accepted| ==>
                           u.applied != [] && u.appliedAt[|u.applied| - 1] == u.taken - 1))
  }

  lemma SendConflates(u: Updates, hand: Option<PodSpec>, caller: int)
    requires Conflating(u, hand)
    ensures Conflating(SendStep(u, caller), hand)
    ensures |u.queue| <= |SendStep(u, caller).queue|
  {
    var t := SendStep(u, caller);
    assert Embeds(u.applied, t.accepted, u.appliedAt);
  }

  /** Discarding the oldest of several updates. */
  lemma DiscardConflates(u: Updates)
    requires Conflating(u, None) && |u.queue| > 1
    ensures Conflating(Pop(u), None)
  {
    assert u.accepted[u.taken..][1..] == u.accepted[u.taken + 1..];
  }

  lemma TakeConflates(u: Updates)
    requires Conflating(u, None) && u.queue != []
    ensures Conflating(Pop(u), Some(u.queue[0]))
  {
    assert u.accepted[u.taken..][1..] == u.accepted[u.taken + 1..];
  }

  lemma ApplyConflates(u: Updates, spec: PodSpec)
    requires Conflating(u, Some(spec))
    ensures Conflating(Applied(u, spec), None)
  {
    assert Embeds(u.applied + [spec], u.accepted, u.appliedAt + [u.taken - 1]);
  }

  ghost predicate QueueInv(s: State) {
    && Conflating(s.updates, InHand(s.consumer))
    && (s.consumer == Discarding ==> |s.updates.queue| > 1)
  }

  /** All the update loop can do to the channel. */
  datatype Move = Stay | Discard | Take | Apply

  function MoveOf(s: State, ok: bool): Move {
    match s.consumer
    case Looping => Stay
    case Discarding => if s.updates.queue == [] then Stay else Discard
    case Taking => if s.updates.queue == [] then Stay else Take
    case Syncing(spec, rest) =>
      if rest == [] then (if ChangeType(spec, s.podStatus) == NoChanges then Apply else Stay)
      else if ok then Stay else Apply
    case Launching(_, _) => if s.starts.waitGroup != 0 then Stay else Apply
  }

  lemma ConsumeMoves(s: State, ok: bool)
    ensures var t := ConsumeStep(s, ok);
            match MoveOf(s, ok)
            case Stay => t.updates == s.updates && InHand(t.consumer) == InHand(s.consumer)
                         && (t.consumer == Discarding && s.consumer != Discarding ==> |s.updates.queue| > 1)
            case Discard => s.consumer == Discarding && t.updates == Pop(s.updates) && t.consumer == Looping
            case Take => s.consumer == Taking && t.updates == Pop(s.updates)
                         && InHand(t.consumer) == Some(s.updates.queue[0]) && t.consumer != Discarding
            case Apply => InHand(s.consumer).Some? && t.updates == Applied(s.updates, InHand(s.consumer).value)
                          && t.consumer == Looping
  {
  }

  lemma ConsumeKeepsQueue(s: State, ok: bool)
    requires QueueInv(s)
    ensures QueueInv(ConsumeStep(s, ok))
  {
    ConsumeMoves(s, ok);
    match MoveOf(s, ok) {
      case Stay =>
      case Discard => DiscardConflates(s.updates);
      case Take => TakeConflates(s.updates);
      case Apply => ApplyConflates(s.updates, InHand(s.consumer).value);
    }
  }

  lemma StepKeepsQueue(s: State, e: Event)
    requires QueueInv(s)
    ensures QueueInv(Step(s, e))
  {
    match e {
      case Check(caller, spec) =>
      case Send(caller) => SendConflates(s.updates, InHand(s.consumer), caller);
      case Start(o) => StartsKeepRest(s, o);
      case Consume(ok) => ConsumeKeepsQueue(s, ok);
    }
  }

  lemma {:induction false} RunKeepsQueue(events: seq<Event>)
    ensures QueueInv(Run(events))
  {
    if events != [] {
      RunKeepsQueue(events[..|events| - 1]);
      StepKeepsQueue(Run(events[..|events| - 1]), events[|events| - 1]);
    }
  }

  /** The starting goroutine touches neither the channel nor the update loop. */
  lemma StartsKeepRest(s: State, o: Outcome)
    ensures var t := StartStep(s, o);
            && t.updates == s.updates && t.consumer == s.consumer && t.podStatus == s.podStatus
            && t.clean == s.clean && t.pod.containers == s.pod.containers
            && t.starts.jobs == s.starts.jobs && t.launchedFor == s.launchedFor
  {
  }

  /** The update accepted last is last in the channel, being worked on, or the last one applied. */
  ghost predicate KeepsLast(u: Updates, hand: Option<PodSpec>) {
    u.accepted != [] ==>
      var last := u.accepted[|u.accepted| - 1];
      if u.queue != [] then u.queue[|u.queue| - 1] == last
      else if hand.Some? then hand.value == last
      else u.applied != [] && u.applied[|u.applied| - 1] == last
  }

  lemma ConflatingKeepsLast(u: Updates, hand: Option<PodSpec>)
    requires Conflating(u, hand)
    ensures IsSubsequence(u.applied, u.accepted) && KeepsLast(u, hand)
  {
    assert Embeds(u.applied, u.accepted, u.appliedAt);
  }

  /** In every interleaving of callers and the update loop: the channel never holds more than 100
      updates, the updates applied are a subsequence of those accepted, and the last accepted one
      is never dropped. */
  lemma {:induction false} UpdatesAreConflated(events: seq<Event>)
    ensures var s := Run(events);
            && |s.updates.queue| <= 100
            && IsSubsequence(s.updates.applied, s.updates.accepted)
            && KeepsLast(s.updates, InHand(s.consumer))
  {
    RunKeepsQueue(events);
    ConflatingKeepsLast(Run(events).updates, InHand(Run(events).consumer));
  }

  // ----- What is taken up --------------------------------------------------------------

  /** UpdatePod accepts an update exactly when fewer than 100 are waiting. */
  lemma AcceptedExactlyWhenNotFull(s: State, caller: int, spec: PodSpec)
    requires caller !in s.updates.pending && |s.updates.queue| <= 100
    ensures var u := Step(Step(s, Check(caller, spec)), Send(caller)).updates;
            && (|s.updates.queue| < 100 ==>
                  u.accepted == s.updates.accepted + [spec] && u.queue == s.updates.queue + [spec])
            && (|s.updates.queue| == 100 ==> u == s.updates)
  {
  }

  /** The update loop moving `n` times with nobody sending. */
  function Moving(s: State, n: nat): State
    decreases n
  {
    if n == 0 then s else Moving(ConsumeStep(s, true), n - 1)
  }

  /** With several updates waiting, an idle loop skips to the newest and takes up no other. */
  lemma {:induction false} SkipsToNewest(s: State)
    requires s.consumer == Looping && s.updates.queue != []
    ensures var q := s.updates.queue; var t := Moving(s, 2 * |q|);
            && t.updates.queue == [] && t.updates.applied == s.updates.applied
            && t.consumer == Syncing(q[|q| - 1], Script(q[|q| - 1], s.podStatus))
    decreases |s.updates.queue|
  {
    var q := s.updates.queue;
    var t := ConsumeStep(ConsumeStep(s, true), true);
    assert Moving(s, 2 * |q|) == Moving(ConsumeStep(s, true), 2 * |q| - 1) == Moving(t, 2 * |q| - 2);
    if |q| > 1 {
      assert t.updates.queue == q[1..] && t.consumer == Looping;
      SkipsToNewest(t);
    } else {
      assert q[1..] == [] && Moving(t, 0) == t;
    }
  }

  // ----- Reconciliation in every interleaving ------------------------------------------

  ghost predicate AllDistinct(specs: seq<PodSpec>) {
    forall spec :: spec in specs ==> DistinctNames(spec.units)
  }

  ghost predicate OnCourse(containers: map<string, string>, c: Consumer, status: PodSpec) {
    match c
    case Syncing(spec, rest) => DistinctNames(spec.units) && Reconciled(After(containers, rest), spec.units)
    case Launching(spec, _) => DistinctNames(spec.units) && Reconciled(containers, spec.units)
    case _ => Reconciled(containers, status.units)
  }

  ghost predicate TableInv(s: State) {
    && (if s.updates.applied == [] then s.podStatus.units == []
        else s.podStatus.units == s.updates.applied[|s.updates.applied| - 1].units)
    && (s.clean && AllDistinct(s.updates.accepted) ==>
          DistinctNames(s.podStatus.units) && OnCourse(s.pod.containers, s.consumer, s.podStatus))
  }

  lemma SyncKeepsTable(s: State, ok: bool)
    requires TableInv(s) && s.consumer.Syncing?
    ensures TableInv(ConsumeStep(s, ok))
  {
  }

  lemma TakeKeepsTable(s: State, ok: bool)
    requires QueueInv(s) && TableInv(s) && s.consumer.Taking?
    ensures TableInv(ConsumeStep(s, ok))
  {
    if s.updates.queue != [] && s.clean && AllDistinct(s.updates.accepted) {
      var spec := s.updates.queue[0];
      assert spec in s.updates.accepted;
      ScriptReconciles(s.pod.containers, spec, s.podStatus);
    }
  }

  lemma LaunchKeepsTable(s: State, ok: bool)
    requires TableInv(s) && (s.consumer.Launching? || s.consumer.Looping? || s.consumer.Discarding?)
    ensures TableInv(ConsumeStep(s, ok))
  {
  }

  lemma ConsumeKeepsTable(s: State, ok: bool)
    requires QueueInv(s) && TableInv(s)
    ensures TableInv(ConsumeStep(s, ok))
  {
    match s.consumer {
      case Syncing(spec, rest) => SyncKeepsTable(s, ok);
      case Taking => TakeKeepsTable(s, ok);
      case _ => LaunchKeepsTable(s, ok);
    }
  }

  lemma StepKeepsTable(s: State, e: Event)
    requires QueueInv(s) && TableInv(s)
    ensures TableInv(Step(s, e))
  {
    match e {
      case Check(caller, spec) =>
      case Send(caller) =>
        if caller in s.updates.pending {
          var a := s.updates.accepted;
          assert AllDistinct(a + [s.updates.pending[caller]]) ==> AllDistinct(a);
        }
      case Start(o) => StartsKeepRest(s, o);
      case Consume(ok) => ConsumeKeepsTable(s, ok);
    }
  }

  lemma {:induction false} RunKeepsTable(events: seq<Event>)
    ensures TableInv(Run(events))
  {
    if events != [] {
      var before := events[..|events| - 1];
      RunKeepsTable(before);
      RunKeepsQueue(before);
      StepKeepsTable(Run(before), events[|events| - 1]);
    }
  }

  lemma ReconciledBetweenUpdates(s: State)
    requires TableInv(s) && KeepsLast(s.updates, InHand(s.consumer))
    requires s.clean && AllDistinct(s.updates.accepted) && InHand(s.consumer).None?
    ensures var u := s.updates;
            && Reconciled(s.pod.containers, s.podStatus.units)
            && (u.applied != [] ==> Reconciled(s.pod.containers, u.applied[|u.applied| - 1].units))
            && (u.queue == [] && u.accepted != [] ==> Reconciled(s.pod.containers, u.accepted[|u.accepted| - 1].units))
  {
  }

  /** In every interleaving in which no call of the update loop fails: whenever the loop is between
      updates, the containers are exactly the units of the last applied spec; and once the channel
      is empty, those of the last accepted one. */
  lemma {:induction false} PodIsReconciled(events: seq<Event>)
    requires Run(events).clean && AllDistinct(Run(events).updates.accepted) && InHand(Run(events).consumer).None?
    ensures var s := Run(events); var u := s.updates;
            && Reconciled(s.pod.containers, s.podStatus.units)
            && (u.applied != [] ==> Reconciled(s.pod.containers, u.applied[|u.applied| - 1].units))
            && (u.queue == [] && u.accepted != [] ==> Reconciled(s.pod.containers, u.accepted[|u.accepted| - 1].units))
  {
    RunKeepsTable(events);
    UpdatesAreConflated(events);
    ReconciledBetweenUpdates(Run(events));
  }

  // ----- Starting units ----------------------------------------------------------------

  /** The number of notes a completed job leaves. */
  function Total(job: Job): nat {
    2 * |job.inits| + |job.units|
  }

  /** The order in which a job's calls and init successes have to happen: every init unit is started
      and then seen to exit with 0 before anything further is started. */
  function Due(job: Job, k: nat): Note
    requires k < Total(job)
  {
    if 2 * |job.inits| <= k then StartCalled(job.units[k - 2 * |job.inits|])
    else if k % 2 == 0 then StartCalled(job.inits[k / 2])
    else InitExited(job.inits[k / 2], 0)
  }

  ghost predicate Follows(notes: seq<Note>, job: Job) {
    && |notes| <= Total(job)
    && forall k :: 0 <= k < |notes| ==> notes[k] == Due(job, k)
  }

  /** How many notes are behind the starting goroutine. */
  function Progress(st: Starter): nat {
    match st
    case Idle => 0
    case Starting(job, i) => if i <= |job.inits| then 2 * i else |job.inits| + i
    case Awaiting(job, i) => 2 * i + 1
  }

  /** The notes of one job, in order of time. */
  function NotesOf(log: seq<Entry>, generation: nat): seq<Note> {
    if log == [] then []
    else
      var last := log[|log| - 1];
      NotesOf(log[..|log| - 1], generation) + if last.generation == generation then [last.note] else []
  }

  lemma NotesAppend(log: seq<Entry>, e: Entry, generation: nat)
    ensures NotesOf(log + [e], generation) ==
            NotesOf(log, generation) + if e.generation == generation then [e.note] else []
  {
    assert (log + [e])[..|log|] == log;
  }

  lemma {:induction false} NoNotesYet(log: seq<Entry>, generation: nat)
    requires forall k :: 0 <= k < |log| ==> log[k].generation < generation
    ensures NotesOf(log, generation) == []
  {
    if log != [] {
      NoNotesYet(log[..|log| - 1], generation);
    }
  }

  ghost predicate InRange(st: Starter) {
    match st
    case Idle => true
    case Starting(job, i) => i <= |Work(job)|
    case Awaiting(job, i) => i < |job.inits|
  }

  /** Entries of different jobs do not interleave. */
  ghost predicate Separated(log: seq<Entry>) {
    forall j, k :: 0 <= j < k < |log| ==> log[j].generation <= log[k].generation
  }

  ghost predicate LogInv(jobs: seq<Job>, log: seq<Entry>) {
    && (forall k :: 0 <= k < |log| ==> log[k].generation < |jobs|)
    && Separated(log)
    && forall g: nat :: g < |jobs| ==> Follows(NotesOf(log, g), jobs[g])
  }

  ghost predicate StartsInv(x: Starts) {
    && x.waitGroup <= 1
    && LogInv(x.jobs, x.log)
    && InRange(x.starter)
    && (!x.starter.Idle? ==>
          && x.waitGroup == 1 && x.jobs != [] && x.starter.job == x.jobs[|x.jobs| - 1]
          && |NotesOf(x.log, |x.jobs| - 1)| == Progress(x.starter))
  }

  /** The newest job adds the note that is due. */
  lemma NoteKeepsLog(jobs: seq<Job>, log: seq<Entry>, note: Note)
    requires jobs != [] && LogInv(jobs, log)
    requires var job := jobs[|jobs| - 1]; var p := |NotesOf(log, |jobs| - 1)|; p < Total(job) && note == Due(job, p)
    ensures var log' := log + [Entry(|jobs| - 1, note)];
            LogInv(jobs, log') && |NotesOf(log', |jobs| - 1)| == |NotesOf(log, |jobs| - 1)| + 1
  {
    var e := Entry(|jobs| - 1, note);
    forall g: nat | g < |jobs|
      ensures Follows(NotesOf(log + [e], g), jobs[g])
      ensures g == |jobs| - 1 ==> |NotesOf(log + [e], g)| == |NotesOf(log, g)| + 1
    {
      NotesAppend(log, e, g);
    }
  }

  /** All the starting goroutine can do to the log: nothing, or add the note that is due. */
  ghost predicate Moves(x: Starts, y: Starts) {
    && y.jobs == x.jobs && InRange(y.starter)
    && (x.starter.Idle? ==> y == x)
    && (!x.starter.Idle? ==>
          && (y.starter.Idle? ==> y.waitGroup == x.waitGroup || y.waitGroup + 1 == x.waitGroup)
          && (!y.starter.Idle? ==> y.waitGroup == x.waitGroup && y.starter.job == x.starter.job)
          && (if y.log == x.log then y.starter.Idle? || y.starter == x.starter
              else
                && Progress(x.starter) < Total(x.starter.job)
                && y.log == Noted(x, Due(x.starter.job, Progress(x.starter))).log
                && (y.starter.Idle? || Progress(y.starter) == Progress(x.starter) + 1)))
  }

  lemma StartingMoves(s: State, o: Outcome)
    requires InRange(s.starts.starter) && s.starts.starter.Starting?
    ensures Moves(s.starts, StartStep(s, o).starts)
  {
  }

  lemma AwaitingMoves(s: State, o: Outcome)
    requires InRange(s.starts.starter) && s.starts.starter.Awaiting?
    ensures Moves(s.starts, StartStep(s, o).starts)
  {
  }

  lemma StartMoves(s: State, o: Outcome)
    requires InRange(s.starts.starter)
    ensures Moves(s.starts, StartStep(s, o).starts)
  {
    match s.starts.starter {
      case Idle =>
      case Starting(_, _) => StartingMoves(s, o);
      case Awaiting(_, _) => AwaitingMoves(s, o);
    }
  }

  lemma MovingKeepsStarts(x: Starts, y: Starts)
    requires StartsInv(x) && Moves(x, y)
    ensures StartsInv(y)
  {
    if y.log != x.log {
      NoteKeepsLog(x.jobs, x.log, Due(x.starter.job, Progress(x.starter)));
    }
  }

  lemma StartKeepsStarts(s: State, o: Outcome)
    requires StartsInv(s.starts)
    ensures StartsInv(StartStep(s, o).starts)
  {
    StartMoves(s, o);
    MovingKeepsStarts(s.starts, StartStep(s, o).starts);
  }

  lemma LaunchKeepsStarts(x: Starts, job: Job)
    requires StartsInv(x) && x.waitGroup == 0
    ensures StartsInv(Starts(Starting(job, 0), 1, false, x.jobs + [job], x.log))
  {
    NoNotesYet(x.log, |x.jobs|);
  }

  /** The update loop touches the starting side only to cancel it and to launch the next job. */
  lemma ConsumeLaunches(s: State, ok: bool)
    ensures var x := s.starts; var y := ConsumeStep(s, ok).starts;
            || y == x || y == x.(cancelled := true)
            || (s.consumer.Launching? && x.waitGroup == 0
                && y == Starts(Starting(s.consumer.job, 0), 1, false, x.jobs + [s.consumer.job], x.log))
  {
  }

  lemma StepKeepsStarts(s: State, e: Event)
    requires StartsInv(s.starts)
    ensures StartsInv(Step(s, e).starts)
  {
    match e {
      case Check(caller, spec) =>
      case Send(caller) =>
      case Start(o) => StartKeepsStarts(s, o);
      case Consume(ok) =>
        ConsumeLaunches(s, ok);
        if s.consumer.Launching? && s.starts.waitGroup == 0 {
          LaunchKeepsStarts(s.starts, s.consumer.job);
        }
    }
  }

  lemma {:induction false} RunKeepsStarts(events: seq<Event>)
    ensures StartsInv(Run(events).starts)
  {
    if events != [] {
      RunKeepsStarts(events[..|events| - 1]);
      StepKeepsStarts(Run(events[..|events| - 1]), events[|events| - 1]);
    }
  }

  lemma InitComesFirst(notes: seq<Note>, job: Job, i: nat)
    requires Follows(notes, job) && i < |job.inits| && 2 * |job.inits| < |notes|
    ensures notes[2 * i] == StartCalled(job.inits[i]) && notes[2 * i + 1] == InitExited(job.inits[i], 0)
  {
    assert notes[2 * i] == Due(job, 2 * i) && notes[2 * i + 1] == Due(job, 2 * i + 1);
    assert (2 * i) / 2 == i && (2 * i + 1) / 2 == i;
  }

  lemma UnitComesAt(notes: seq<Note>, job: Job, k: nat)
    requires Follows(notes, job) && 2 * |job.inits| <= k < |notes|
    ensures notes[k] == StartCalled(job.units[k - 2 * |job.inits|])
  {
  }

  /** In every interleaving: the StartContainer calls of different updates never interleave, and
      those of one update happen in the order of its init units and then its units, with every init
      unit seen to exit with 0 before the next call - so no regular unit is started before all init
      units have succeeded. */
  lemma {:induction false} StartsAreOrdered(events: seq<Event>, g: nat)
    requires g < |Run(events).starts.jobs|
    ensures Separated(Run(events).starts.log)
    ensures var x := Run(events).starts; var job := x.jobs[g]; var notes := NotesOf(x.log, g);
            && Follows(notes, job)
            && (|notes| > 2 * |job.inits| ==>
                  && (forall i :: 0 <= i < |job.inits| ==>
                        notes[2 * i] == StartCalled(job.inits[i]) && notes[2 * i + 1] == InitExited(job.inits[i], 0))
                  && (forall k :: 2 * |job.inits| <= k < |notes| ==>
                        notes[k] == StartCalled(job.units[k - 2 * |job.inits|])))
  {
    RunKeepsStarts(events);
    var x := Run(events).starts;
    var notes := NotesOf(x.log, g);
    var job := x.jobs[g];
    assert Follows(notes, job);
    if |notes| > 2 * |job.inits| {
      forall i | 0 <= i < |job.inits|
        ensures notes[2 * i] == StartCalled(job.inits[i]) && notes[2 * i + 1] == InitExited(job.inits[i], 0)
      {
        InitComesFirst(notes, job, i);
      }
      forall k | 2 * |job.inits| <= k < |notes|
        ensures notes[k] == StartCalled(job.units[k - 2 * |job.inits|])
      {
        UnitComesAt(notes, job, k);
      }
    }
  }

  // ----- Every start is made ------------------------------------------------------------

  /** All of the newest job's calls have been made, or the last one was a start that has failed since
      the job was launched. */
  ghost predicate ThroughOrFailed(s: State)
    requires s.starts.jobs != []
  {
    var g := |s.starts.jobs| - 1;
    var notes := NotesOf(s.starts.log, g);
    || |notes| == Total(s.starts.jobs[g])
    || (notes != [] && notes[|notes| - 1].StartCalled? && FailedSince(s, notes[|notes| - 1].unit.name))
  }

  ghost predicate FailedSince(s: State, n: string) {
    exists k :: s.since <= k < |s.fates| && s.fates[k] == StartFailed(n)
  }

  ghost predicate EndInv(s: State) {
    && s.since <= |s.fates|
    && (s.starts.jobs != [] && s.starts.starter.Idle? && s.starts.waitGroup == 0 ==> ThroughOrFailed(s))
  }

  /** How the starting goroutine gets to call Done. */
  lemma StartReportsBack(s: State, o: Outcome)
    requires InRange(s.starts.starter) && !s.starts.starter.Idle? && s.starts.waitGroup == 1
    ensures var t := StartStep(s, o); var x, y := s.starts, t.starts;
            && t.since == s.since && s.fates <= t.fates
            && (y.starter.Idle? && y.waitGroup == 0 ==>
                  || (y.log == x.log && Progress(x.starter) == Total(x.starter.job))
                  || exists u :: y.log == Noted(x, StartCalled(u)).log && t.fates == s.fates + [StartFailed(u.name)])
  {
    var x, y := s.starts, StartStep(s, o).starts;
    if x.starter.Starting? && x.starter.i < |Work(x.starter.job)| && o == StartError {
      var u := Work(x.starter.job)[x.starter.i];
      assert y.log == Noted(x, StartCalled(u)).log;
    }
  }

  lemma StartKeepsEnd(s: State, o: Outcome)
    requires StartsInv(s.starts) && EndInv(s)
    ensures EndInv(StartStep(s, o))
  {
    var x, t := s.starts, StartStep(s, o);
    if x.starter.Idle? {
      assert t == s;
    } else {
      StartReportsBack(s, o);
      StartsKeepRest(s, o);
      if t.starts.starter.Idle? && t.starts.waitGroup == 0 && t.starts.log != x.log {
        var u :| t.starts.log == Noted(x, StartCalled(u)).log && t.fates == s.fates + [StartFailed(u.name)];
        NotesAppend(x.log, Entry(|x.jobs| - 1, StartCalled(u)), |x.jobs| - 1);
        assert t.fates[|s.fates|] == StartFailed(u.name) && FailedSince(t, u.name);
      }
    }
  }

  lemma ConsumeKeepsEnd(s: State, ok: bool)
    requires EndInv(s)
    ensures EndInv(ConsumeStep(s, ok))
  {
    var t := ConsumeStep(s, ok);
    ConsumeLaunches(s, ok);
    assert s.fates <= t.fates && (t.since == s.since || !t.starts.starter.Idle?);
    if t.starts.starter.Idle? && t.starts.waitGroup == 0 && t.starts.jobs != [] {
      forall n | FailedSince(s, n)
        ensures FailedSince(t, n)
      {
        var k :| s.since <= k < |s.fates| && s.fates[k] == StartFailed(n);
        assert t.fates[k] == StartFailed(n);
      }
    }
  }

  lemma StepKeepsEnd(s: State, e: Event)
    requires StartsInv(s.starts) && EndInv(s)
    ensures EndInv(Step(s, e))
  {
    match e {
      case Check(caller, spec) =>
      case Send(caller) =>
      case Start(o) => StartKeepsEnd(s, o);
      case Consume(ok) => ConsumeKeepsEnd(s, ok);
    }
  }

  /** In every run: a goroutine that has reported back has made every start of its job, in order and
      with every init unit seen to succeed, unless the last start it made has failed. */
  lemma {:induction false} GoroutineGoesThrough(events: seq<Event>)
    ensures EndInv(Run(events))
  {
    if events != [] {
      var before := events[..|events| - 1];
      GoroutineGoesThrough(before);
      RunKeepsStarts(before);
      StepKeepsEnd(Run(before), events[|events| - 1]);
    }
  }

  /** Where the goroutine is with `k` notes of its job behind it. */
  function PlaceAfter(job: Job, k: nat): Starter
    requires k <= Total(job)
  {
    if 2 * |job.inits| <= k then Starting(job, k - |job.inits|)
    else if k % 2 == 0 then Starting(job, k / 2)
    else Awaiting(job, k / 2)
  }

  /** What has to happen next for all to go well. */
  function Good(job: Job, k: nat): Outcome
    requires k < Total(job)
  {
    if Due(job, k).StartCalled? then StartOk else Exited(0)
  }

  /** The first `k` good outcomes in a row. */
  function GoingWell(s: State, job: Job, k: nat): State
    requires k <= Total(job)
  {
    if k == 0 then s else StartStep(GoingWell(s, job, k - 1), Good(job, k - 1))
  }

  /** The goroutine of the newest job, number `g`, has `k` notes of it behind it. */
  ghost predicate GoneWell(x: Starts, job: Job, g: nat, k: nat) {
    && k <= Total(job) && x.starter == PlaceAfter(job, k) && x.waitGroup == 1
    && |x.jobs| == g + 1 && |NotesOf(x.log, g)| == k
  }

  lemma GoodOutcome(s: State, job: Job, k: nat)
    requires k < Total(job) && s.starts.starter == PlaceAfter(job, k)
    ensures var x, y := s.starts, StartStep(s, Good(job, k)).starts;
            && y.starter == PlaceAfter(job, k + 1) && y.waitGroup == x.waitGroup && y.jobs == x.jobs
            && y.log == Noted(x, Due(job, k)).log
  {
  }

  lemma GoodStep(s: State, job: Job, g: nat, k: nat)
    requires k < Total(job) && GoneWell(s.starts, job, g, k)
    ensures GoneWell(StartStep(s, Good(job, k)).starts, job, g, k + 1)
  {
    GoodOutcome(s, job, k);
    NotesAppend(s.starts.log, Entry(g, Due(job, k)), g);
  }

  lemma {:induction false} GoingWellMakesProgress(s: State, job: Job, g: nat, k: nat)
    requires k <= Total(job) && GoneWell(s.starts, job, g, 0)
    ensures GoneWell(GoingWell(s, job, k).starts, job, g, k)
  {
    if k > 0 {
      GoingWellMakesProgress(s, job, g, k - 1);
      GoodStep(GoingWell(s, job, k - 1), job, g, k - 1);
    }
  }

  lemma LastStepReportsBack(s: State, job: Job, g: nat, o: Outcome)
    requires GoneWell(s.starts, job, g, Total(job))
    ensures var x := StartStep(s, o).starts;
            x.starter.Idle? && x.waitGroup == 0 && |NotesOf(x.log, g)| == Total(job)
  {
  }

  /** From the launch of job number `g`: if its starts succeed and its init units exit with 0, all of
      its starts are made and the goroutine reports back. */
  lemma {:induction false} GoodJobCompletes(s: State, job: Job, g: nat, o: Outcome)
    requires s.starts.starter == Starting(job, 0) && s.starts.waitGroup == 1
    requires |s.starts.jobs| == g + 1 && NotesOf(s.starts.log, g) == []
    ensures var x := StartStep(GoingWell(s, job, Total(job)), o).starts;
            x.starter.Idle? && x.waitGroup == 0 && |NotesOf(x.log, g)| == Total(job)
  {
    GoingWellMakesProgress(s, job, g, Total(job));
    LastStepReportsBack(GoingWell(s, job, Total(job)), job, g, o);
  }

  /** The wait for an init unit goes on until the unit exits with 0 or the wait is given up: errors,
      running units and, unless the policy is Never, failures do not end it. */
  lemma WaitEndsExactlyWhen(s: State, o: Outcome)
    requires s.starts.starter.Awaiting? && InRange(s.starts.starter)
    ensures StartStep(s, o) != s <==> o == Exited(0) || GivesUpWaiting(s.starts, Start(o))
  {
  }

  // ----- Cancelling --------------------------------------------------------------------

  lemma StepKeepsCancelled(s: State, e: Event)
    requires s.starts.cancelled <==> s.consumer.Launching?
    ensures Step(s, e).starts.cancelled <==> Step(s, e).consumer.Launching?
  {
  }

  /** In every run the context of the newest job is cancelled exactly while a later update that has
      made its calls waits to start its own units. */
  lemma {:induction false} CancelledExactlyWhenSuperseded(events: seq<Event>)
    ensures Run(events).starts.cancelled <==> Run(events).consumer.Launching?
  {
    if events != [] {
      CancelledExactlyWhenSuperseded(events[..|events| - 1]);
      StepKeepsCancelled(Run(events[..|events| - 1]), events[|events| - 1]);
    }
  }

  // ----- Which update a job belongs to -------------------------------------------------

  /** The spec applied before the p-th one. */
  function StatusBefore(applied: seq<PodSpec>, p: nat): PodSpec
    requires p <= |applied|
  {
    if p == 0 then NO_SPEC else applied[p - 1]
  }

  /** The status is the spec applied last, whether or not its calls succeeded; only the phase may
      have changed. */
  ghost predicate StatusIsLastApplied(s: State) {
    s.podStatus == StatusBefore(s.updates.applied, |s.updates.applied|).(phase := s.podStatus.phase)
  }

  lemma StepKeepsStatus(s: State, e: Event)
    requires StatusIsLastApplied(s)
    ensures StatusIsLastApplied(Step(s, e))
  {
    match e {
      case Check(caller, spec) =>
      case Send(caller) =>
      case Start(o) => StartsKeepRest(s, o);
      case Consume(ok) => ConsumeMoves(s, ok);
    }
  }

  /** In every run the status is the spec applied last. */
  lemma {:induction false} RunKeepsStatus(events: seq<Event>)
    ensures StatusIsLastApplied(Run(events))
  {
    if events != [] {
      RunKeepsStatus(events[..|events| - 1]);
      StepKeepsStatus(Run(events[..|events| - 1]), events[|events| - 1]);
    }
  }

  /** The job of the p-th applied update. */
  ghost predicate JobFits(job: Job, applied: seq<PodSpec>, p: nat) {
    && p < |applied|
    && ChangeType(applied[p], StatusBefore(applied, p)) != NoChanges
    && job == JobOf(applied[p], StatusBefore(applied, p))
  }

  ghost predicate LaunchInv(s: State) {
    && |s.launchedFor| == |s.starts.jobs|
    && Increasing(s.launchedFor, |s.updates.applied|)
    && (forall g :: 0 <= g < |s.starts.jobs| ==> JobFits(s.starts.jobs[g], s.updates.applied, s.launchedFor[g]))
    && (s.consumer.Launching? ==> s.consumer.job == JobOf(s.consumer.spec, s.podStatus)
                                  && ChangeType(s.consumer.spec, s.podStatus) != NoChanges)
  }

  lemma ApplyingKeepsFits(job: Job, applied: seq<PodSpec>, p: nat, spec: PodSpec)
    requires JobFits(job, applied, p)
    ensures JobFits(job, applied + [spec], p)
  {
  }

  lemma ConsumeKeepsLaunch(s: State, ok: bool)
    requires StatusIsLastApplied(s) && LaunchInv(s)
    ensures LaunchInv(ConsumeStep(s, ok))
  {
    var t := ConsumeStep(s, ok);
    ConsumeMoves(s, ok);
    ConsumeLaunches(s, ok);
    if MoveOf(s, ok) == Apply {
      var spec, applied := InHand(s.consumer).value, s.updates.applied;
      forall g | 0 <= g < |s.starts.jobs|
        ensures JobFits(s.starts.jobs[g], t.updates.applied, s.launchedFor[g])
      {
        ApplyingKeepsFits(s.starts.jobs[g], applied, s.launchedFor[g], spec);
      }
      if s.consumer.Launching? {
        assert StatusBefore(applied + [spec], |applied|) == StatusBefore(applied, |applied|);
        assert JobFits(s.consumer.job, t.updates.applied, |applied|);
      }
    }
  }

  lemma StepKeepsLaunch(s: State, e: Event)
    requires StatusIsLastApplied(s) && LaunchInv(s)
    ensures LaunchInv(Step(s, e))
  {
    match e {
      case Check(caller, spec) =>
      case Send(caller) =>
      case Start(o) => StartsKeepRest(s, o);
      case Consume(ok) => ConsumeKeepsLaunch(s, ok);
    }
  }

  lemma {:induction false} RunKeepsLaunch(events: seq<Event>)
    ensures LaunchInv(Run(events))
  {
    if events != [] {
      RunKeepsStatus(events[..|events| - 1]);
      RunKeepsLaunch(events[..|events| - 1]);
      StepKeepsLaunch(Run(events[..|events| - 1]), events[|events| - 1]);
    }
  }

  /** Every job belongs to an accepted update of its own, later jobs to later updates, and is exactly
      what that update asks for, given the status that the update applied before it has left. */
  lemma {:induction false} JobsBelongToUpdates(events: seq<Event>, g: nat)
    requires g < |Run(events).starts.jobs|
    ensures var s := Run(events); var u, p := s.updates, s.launchedFor;
            && |p| == |s.starts.jobs| && Increasing(p, |u.applied|) && Embeds(u.applied, u.accepted, u.appliedAt)
            && s.starts.jobs[g] == JobOf(u.accepted[u.appliedAt[p[g]]], StatusBefore(u.applied, p[g]))
            && HandsOver(s.starts.jobs[g], u.accepted[u.appliedAt[p[g]]], StatusBefore(u.applied, p[g]))
  {
    RunKeepsLaunch(events);
    RunKeepsQueue(events);
    var u, p := Run(events).updates, Run(events).launchedFor;
    assert JobFits(Run(events).starts.jobs[g], u.applied, p[g]);
    JobHandsOver(u.applied[p[g]], StatusBefore(u.applied, p[g]));
  }

  // ----- A goroutine that never reports back -------------------------------------------

  /** The goroutine has returned without waitGroup.Done(): waiting for an init unit was cancelled,
      or the unit failed under the policy Never. */
  ghost predicate Stuck(x: Starts) {
    x.starter.Idle? && x.waitGroup == 1
  }

  /** Running `more` events from the state `s`. */
  function Continue(s: State, more: seq<Event>): State {
    if more == [] then s else Step(Continue(s, more[..|more| - 1]), more[|more| - 1])
  }

  /** After such a return no container is ever started again, whatever happens; and an update that
      has come to wait for the goroutine waits forever, so that no later update is applied. */
  lemma {:induction false} StuckForever(s: State, more: seq<Event>)
    requires Stuck(s.starts)
    ensures Stuck(Continue(s, more).starts) && Continue(s, more).starts.log == s.starts.log
    ensures s.consumer.Launching? ==>
              Continue(s, more).consumer == s.consumer && Continue(s, more).podStatus == s.podStatus
  {
    if more != [] {
      StuckForever(s, more[..|more| - 1]);
    }
  }

  /** The wait for an init unit returns false. */
  predicate GivesUpWaiting(x: Starts, e: Event) {
    && x.starter.Awaiting? && e.Start?
    && ((e.outcome == SeesCancel && x.cancelled)
        || (e.outcome.Exited? && e.outcome.code != 0 && x.starter.job.policy == Never))
  }

  lemma WhenStuck(s: State, e: Event)
    requires StartsInv(s.starts) && !Stuck(s.starts)
    ensures Stuck(Step(s, e).starts) <==> GivesUpWaiting(s.starts, e)
  {
  }

  ghost predicate GaveUpAt(events: seq<Event>, k: nat) {
    k < |events| && GivesUpWaiting(Run(events[..k]).starts, events[k])
  }

  lemma GaveUpEarlier(events: seq<Event>, k: nat)
    requires events != []
    ensures GaveUpAt(events, k) <==>
            GaveUpAt(events[..|events| - 1], k)
            || (k == |events| - 1 && GivesUpWaiting(Run(events[..|events| - 1]).starts, events[k]))
  {
    if k < |events| - 1 {
      assert events[..|events| - 1][..k] == events[..k];
    }
  }

  /** Over whole runs: the goroutine is gone without reporting back if and only if at some point the
      wait for an init unit was cancelled, or saw a non-zero exit under the policy Never. */
  lemma {:induction false} StuckExactlyWhen(events: seq<Event>)
    ensures Stuck(Run(events).starts) <==> exists k :: GaveUpAt(events, k)
  {
    if events != [] {
      var before, e := events[..|events| - 1], events[|events| - 1];
      StuckExactlyWhen(before);
      forall k: nat
        ensures GaveUpAt(events, k) <==>
                GaveUpAt(before, k) || (k == |before| && GivesUpWaiting(Run(before).starts, e))
      {
        GaveUpEarlier(events, k);
      }
      if Stuck(Run(before).starts) {
        StuckStep(Run(before), e);
        var k :| GaveUpAt(before, k);
        assert GaveUpAt(events, k);
      } else {
        RunKeepsStarts(before);
        WhenStuck(Run(before), e);
        if GivesUpWaiting(Run(before).starts, e) {
          assert GaveUpAt(events, |before|);
        }
      }
    }
  }

  lemma StuckStep(s: State, e: Event)
    requires Stuck(s.starts)
    ensures Stuck(Step(s, e).starts)
  {
    assert [e][..0] == [];
    StuckForever(s, [e]);
  }

  // ----- Runs that go wrong ------------------------------------------------------------

  lemma RunOneMore(events: seq<Event>, e: Event)
    ensures Run(events + [e]) == Step(Run(events), e)
  {
    assert (events + [e])[..|events|] == events;
  }

  lemma {:induction false} RunContinues(events: seq<Event>, more: seq<Event>)
    ensures Run(events + more) == Continue(Run(events), more)
  {
    if more == [] {
      assert events + more == events;
    } else {
      var n := |more| - 1;
      RunContinues(events, more[..n]);
      assert events + more == events + more[..n] + [more[n]];
      RunOneMore(events + more[..n], more[n]);
    }
  }

  /** A caller sends an update and the idle loop takes it up. */
  function Offering(spec: PodSpec): seq<Event> {
    [Check(0, spec), Send(0), Consume(true), Consume(true)]
  }

  ghost predicate AtRest(s: State) {
    s.consumer == Looping && s.updates.queue == [] && s.updates.pending == map[]
  }

  lemma OfferingIsTakenUp(s: State, spec: PodSpec)
    requires AtRest(s)
    ensures var t := Continue(s, Offering(spec));
            && t.consumer == Syncing(spec, Script(spec, s.podStatus))
            && t.pod == s.pod.(phase := StartPhase(spec, s.podStatus)) && t.podStatus == s.podStatus
            && t.starts == s.starts && t.updates.queue == [] && t.updates.pending == map[]
            && t.updates.applied == s.updates.applied && t.fates == s.fates
  {
    var o := Offering(spec);
    var s1 := Step(s, o[0]);
    var s2 := Step(s1, o[1]);
    var s3 := Step(s2, o[2]);
    assert s2.updates.queue == [spec];
    assert o[..4] == o && o[..3] == o[..4][..3] && o[..2] == o[..3][..2] && o[..1] == o[..2][..1] && o[..1][..0] == [];
    assert Continue(s, o[..1]) == s1;
    assert Continue(s, o[..2]) == s2;
    assert Continue(s, o[..3]) == s3;
  }

  lemma CallSucceeds(s: State)
    requires s.consumer.Syncing? && s.consumer.rest != []
    ensures var t := Step(s, Consume(true));
            && t.consumer == Syncing(s.consumer.spec, s.consumer.rest[1..])
            && t.starts == s.starts && t.podStatus == s.podStatus
  {
  }

  lemma Launches(s: State)
    requires s.consumer.Syncing? && s.consumer.rest == [] && s.starts.waitGroup == 0
    requires ChangeType(s.consumer.spec, s.podStatus) != NoChanges
    ensures var x := Step(Step(s, Consume(true)), Consume(true)).starts;
            x.starter == Starting(JobOf(s.consumer.spec, s.podStatus), 0) && x.waitGroup == 1
  {
  }

  lemma InitFails(s: State)
    requires s.starts.starter.Starting? && s.starts.starter.i == 0 && s.starts.waitGroup == 1
    requires s.starts.starter.job.inits != [] && s.starts.starter.job.policy == Never
    ensures Stuck(Step(Step(s, Start(StartOk)), Start(Exited(1))).starts)
  {
  }

  lemma ContinueTwice(s: State, e: Event, f: Event)
    ensures Continue(s, [e, f]) == Step(Step(s, e), f)
  {
    assert [e, f][..1] == [e] && [e][..0] == [];
    assert Continue(s, [e]) == Step(s, e);
  }

  /** A whole run: an init unit exits with 1 under the policy Never, and the goroutine is gone. */
  lemma InitFailureIsFatal(u: Unit)
    ensures var spec, c := PodSpec(PodRunning, Never, [], [u]), Consume(true);
            Stuck(Run(Offering(spec) + [c] + [c, c] + [c, c] + [Start(StartOk), Start(Exited(1))]).starts)
  {
    var spec, c := PodSpec(PodRunning, Never, [], [u]), Consume(true);
    var o := Offering(spec);
    assert !SameUnits(spec.initUnits, NO_SPEC.initUnits) && ChangeType(spec, NO_SPEC) == PodRestart;
    assert Script(spec, NO_SPEC) == [StopSandbox, DeleteVolumes, MountVolumes];
    RunContinues([], o);
    assert [] + o == o;
    OfferingIsTakenUp(Init(), spec);
    RunOneMore(o, c);
    CallSucceeds(Run(o));
    SyncedAndStuck(o + [c], spec);
  }

  lemma SyncedAndStuck(run: seq<Event>, spec: PodSpec)
    requires Run(run).consumer == Syncing(spec, [DeleteVolumes, MountVolumes]) && Run(run).starts.waitGroup == 0
    requires ChangeType(spec, Run(run).podStatus) == PodRestart && spec.initUnits != [] && spec.restartPolicy == Never
    ensures var c := Consume(true); Stuck(Run(run + [c, c] + [c, c] + [Start(StartOk), Start(Exited(1))]).starts)
  {
    var c := Consume(true);
    RunContinues(run, [c, c]);
    ContinueTwice(Run(run), c, c);
    CallSucceeds(Run(run));
    CallSucceeds(Step(Run(run), c));
    var s := Run(run + [c, c]);
    RunContinues(run + [c, c], [c, c]);
    ContinueTwice(s, c, c);
    Launches(s);
    var t := Run(run + [c, c] + [c, c]);
    RunContinues(run + [c, c] + [c, c], [Start(StartOk), Start(Exited(1))]);
    ContinueTwice(t, Start(StartOk), Start(Exited(1)));
    InitFails(t);
  }

  // ----- Remembered failures -----------------------------------------------------------

  ghost predicate FailureOf(f: Fate, n: string) {
    f == CreateFailed(n) || f == StartFailed(n)
  }

  /** Some creation or start of `n` failed and no regular unit of that name has started since. */
  ghost predicate Remembered(fates: seq<Fate>, n: string) {
    exists i :: 0 <= i < |fates| && FailureOf(fates[i], n) && forall j :: i < j < |fates| ==> fates[j] != UnitStarted(n)
  }

  lemma RememberedAppend(fates: seq<Fate>, f: Fate, n: string)
    ensures Remembered(fates + [f], n) <==> FailureOf(f, n) || (Remembered(fates, n) && f != UnitStarted(n))
  {
    var all := fates + [f];
    if FailureOf(f, n) {
      assert FailureOf(all[|fates|], n);
    } else if Remembered(fates, n) && f != UnitStarted(n) {
      var i :| 0 <= i < |fates| && FailureOf(fates[i], n) && forall j :: i < j < |fates| ==> fates[j] != UnitStarted(n);
      assert FailureOf(all[i], n);
    }
    if Remembered(all, n) && !FailureOf(f, n) {
      var i :| 0 <= i < |all| && FailureOf(all[i], n) && forall j :: i < j < |all| ==> all[j] != UnitStarted(n);
      assert all[|fates|] == f && fates[i] == all[i];
      assert forall j :: i < j < |fates| ==> fates[j] == all[j];
    }
  }

  /** Errors and fates change together, by one fate at a time. */
  ghost predicate FateTold(s: State, t: State) {
    || (t.fates == s.fates && t.pod.errors == s.pod.errors)
    || exists f :: t.fates == s.fates + [f] && Told(s.pod.errors, f, t.pod.errors)
  }

  ghost predicate Told(before: map<string, Unit>, f: Fate, after: map<string, Unit>) {
    match f
    case UnitStarted(n) => after == before - {n}
    case CreateFailed(n) => n in after && after == before[n := after[n]]
    case StartFailed(n) => n in after && after == before[n := after[n]]
  }

  lemma ConsumeTells(s: State, ok: bool)
    ensures FateTold(s, ConsumeStep(s, ok))
  {
    if s.consumer.Syncing? && s.consumer.rest != [] && s.consumer.rest[0].Create? && !ok {
      var u := s.consumer.rest[0].unit;
      assert Told(s.pod.errors, CreateFailed(u.name), s.pod.errors[u.name := u]);
    }
  }

  lemma StartTells(s: State, o: Outcome)
    ensures FateTold(s, StartStep(s, o))
  {
    var t := StartStep(s, o);
    if t.fates != s.fates {
      var u := Work(s.starts.starter.job)[s.starts.starter.i];
      if o == StartError {
        assert Told(s.pod.errors, StartFailed(u.name), s.pod.errors[u.name := u]);
      } else {
        assert Told(s.pod.errors, UnitStarted(u.name), t.pod.errors);
      }
    }
  }

  lemma TellingKeepsErrors(s: State, t: State, n: string)
    requires FateTold(s, t) && (n in s.pod.errors <==> Remembered(s.fates, n))
    ensures n in t.pod.errors <==> Remembered(t.fates, n)
  {
    if t.fates != s.fates {
      RememberedAppend(s.fates, t.fates[|s.fates|], n);
    }
  }

  lemma StepKeepsErrors(s: State, e: Event, n: string)
    requires n in s.pod.errors <==> Remembered(s.fates, n)
    ensures n in Step(s, e).pod.errors <==> Remembered(Step(s, e).fates, n)
  {
    match e {
      case Check(_, _) =>
      case Send(_) =>
      case Consume(ok) => ConsumeTells(s, ok);
      case Start(o) => StartTells(s, o);
    }
    TellingKeepsErrors(s, Step(s, e), n);
  }

  /** In every reachable state a name has a remembered error exactly when some creation or start of
      it failed and no regular unit of that name has been started since. */
  lemma {:induction false} ErrorsAreRemembered(events: seq<Event>, n: string)
    ensures n in Run(events).pod.errors <==> Remembered(Run(events).fates, n)
  {
    if events != [] {
      ErrorsAreRemembered(events[..|events| - 1], n);
      StepKeepsErrors(Run(events[..|events| - 1]), events[|events| - 1], n);
    }
  }

  // ----- What a failed update leaves behind --------------------------------------------

  predicate Resends(again: PodSpec, last: PodSpec) {
    && SameUnits(again.units, last.units) && SameUnits(again.initUnits, last.initUnits)
    && (again.units != [] || again.initUnits != [])
  }

  /** An update that is taken up makes no call exactly when it has the units of the status and is not
      empty. */
  lemma NothingToDoExactlyWhen(s: State)
    requires s.consumer == Taking && s.updates.queue != []
    ensures var again := s.updates.queue[0];
            ConsumeStep(s, true).consumer == Syncing(again, []) <==> Resends(again, s.podStatus)
  {
    WhatChangeTypesMean(s.updates.queue[0], s.podStatus);
    ScriptIsEmptyExactlyWhen(s.updates.queue[0], s.podStatus);
  }

  /** A failed call ends its update, and its spec becomes the status all the same. */
  lemma FailureBecomesStatus(s: State)
    requires s.consumer.Syncing? && s.consumer.rest != []
    ensures var t := ConsumeStep(s, false); var spec := s.consumer.spec;
            && t.consumer == Looping && t.podStatus == spec.(phase := t.pod.phase)
            && t.updates == Applied(s.updates, spec)
  {
  }

  /** In every run: an update makes no call if and only if it repeats the units of the one applied
      before it - which may have failed at any of its calls - and is not empty. */
  lemma {:induction false} ResendDoesNothing(events: seq<Event>)
    requires Run(events).consumer == Taking && Run(events).updates.queue != [] && Run(events).updates.applied != []
    ensures var s := Run(events); var applied := s.updates.applied;
            ConsumeStep(s, true).consumer == Syncing(s.updates.queue[0], [])
            <==> Resends(s.updates.queue[0], applied[|applied| - 1])
  {
    RunKeepsStatus(events);
    NothingToDoExactlyWhen(Run(events));
  }

  /** From any state at rest: taking up an update with the units of the status, however it came
      about, is over after one step and changes nothing but the phase. */
  lemma ResendAtRest(s: State, again: PodSpec)
    requires AtRest(s) && Resends(again, s.podStatus)
    ensures var t := Step(Continue(s, Offering(again)), Consume(true));
            && AtRest(t) && t.pod == s.pod.(phase := again.phase) && t.starts == s.starts
            && t.updates.applied == s.updates.applied + [again]
  {
    OfferingIsTakenUp(s, again);
    WhatChangeTypesMean(again, s.podStatus);
  }

  lemma FirstCallFails(s: State, spec: PodSpec)
    requires AtRest(s) && ChangeType(spec, s.podStatus) != NoChanges
    ensures var t := Step(Continue(s, Offering(spec)), Consume(false));
            && AtRest(t) && t.pod.calls == s.pod.calls + [Script(spec, s.podStatus)[0]]
            && t.pod.containers == s.pod.containers && t.starts == s.starts
            && t.updates.applied == s.updates.applied + [spec] && t.podStatus == spec.(phase := t.podStatus.phase)
  {
    OfferingIsTakenUp(s, spec);
    ScriptIsEmptyExactlyWhen(spec, s.podStatus);
  }

  /** A whole run, for any spec with a unit: the first call of a first update fails and the update is
      sent again. No further call is made, and the containers do not match the spec. */
  lemma FailedUpdateIsNotRetried(spec: PodSpec)
    requires spec.units != []
    ensures var s := Run(Offering(spec) + [Consume(false)] + Offering(spec) + [Consume(true)]);
            && AtRest(s) && s.updates.applied == [spec, spec]
            && s.pod.calls == [Script(spec, NO_SPEC)[0]] && s.starts.jobs == []
            && s.pod.containers == map[] && !Reconciled(s.pod.containers, spec.units)
  {
    var o := Offering(spec);
    assert [] + o == o;
    RunContinues([], o);
    RunOneMore(o, Consume(false));
    WhatChangeTypesMean(spec, NO_SPEC);
    FirstCallFails(Init(), spec);
    var run := o + [Consume(false)];
    RunContinues(run, o);
    RunOneMore(run + o, Consume(true));
    ResendAtRest(Run(run), spec);
    assert spec.units[0] in spec.units;
  }

  // ----- The update loop runs the synchronisation code ---------------------------------

  /** The update loop moving on its own through the runtime calls of an update. */
  function FinishCalls(s: State, ok: nat -> bool): State
    decreases if s.consumer.Syncing? then |s.consumer.rest| else 0
  {
    if s.consumer.Syncing? && s.consumer.rest != [] then FinishCalls(ConsumeStep(s, ok(|s.pod.calls|)), ok) else s
  }

  /** Step by step the update loop makes the calls of an update, up to the first that fails. */
  lemma {:induction false} StepsRunTheScript(s: State, ok: nat -> bool)
    requires s.consumer.Syncing?
    ensures var t := FinishCalls(s, ok); var spec, rest := s.consumer.spec, s.consumer.rest;
            && t.pod == Exec(s.pod, rest, ok) && t.starts == s.starts
            && if Completes(s.pod, rest, ok)
               then t.consumer == Syncing(spec, []) && t.podStatus == s.podStatus && t.updates == s.updates
               else t.consumer == Looping && t.podStatus == spec.(phase := t.pod.phase)
                    && t.updates == Applied(s.updates, spec)
    decreases |s.consumer.rest|
  {
    if s.consumer.rest != [] && ok(|s.pod.calls|) {
      StepsRunTheScript(ConsumeStep(s, true), ok);
    }
  }

  /** The update loop takes up an update and moves on its own until it is through with it. */
  function UpdateAlone(s: State, ok: nat -> bool): State {
    var t := FinishCalls(ConsumeStep(s, true), ok);
    if !t.consumer.Syncing? then t
    else
      var u := ConsumeStep(t, true);
      if u.consumer.Launching? then ConsumeStep(u, true) else u
  }

  /** When no goroutine is at work, the update loop's steps leave exactly what the code of doUpdate
      leaves in one go: the pod, the status with its phase, and the job handed to a new goroutine. */
  lemma StepsDoTheUpdate(s: State, ok: nat -> bool)
    requires s.consumer == Taking && s.updates.queue != [] && s.starts.waitGroup == 0
    ensures var t := UpdateAlone(s, ok); var spec := s.updates.queue[0];
            var (pod, job) := Updated(s.pod, spec, s.podStatus, ok);
            && t.consumer == Looping && t.pod == pod && t.podStatus == spec.(phase := pod.phase)
            && t.updates == Applied(Pop(s.updates), spec)
            && t.starts.jobs == s.starts.jobs + (if job.Some? then [job.value] else [])
            && t.starts.log == s.starts.log
            && t.starts.starter == if job.Some? then Starting(job.value, 0) else s.starts.starter
  {
    var a := ConsumeStep(s, true);
    StepsRunTheScript(a, ok);
    ScriptIsEmptyExactlyWhen(s.updates.queue[0], s.podStatus);
  }
}
