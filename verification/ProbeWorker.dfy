/** The probe worker with its thresholds and its result channel (pkg/prober/worker.go,
    pkg/prober/prober.go, pkg/prober/results.go). */
module ProbeWorkers {
  import opened Basics

  datatype Result = Unknown | Success | Failure
  datatype ProbeType = Liveness | Readiness | Startup

  datatype ProbeSpec = ProbeSpec(failureThreshold: int, successThreshold: int)

  // ----- One probe, with retries -------------------------------------------------------

  const MAX_PROBE_RETRIES := 3

  datatype RawResult = RawNone | RawSuccess | RawWarning | RawFailure | RawUnknown
  datatype ProbeAttempt = Returned(result: RawResult) | Errored(result: RawResult)

  /** `attempts` are the outcomes that successive calls of runProbe would have. */
  method RunProbeWithRetries(attempts: seq<ProbeAttempt>, retries: nat)
    returns (result: RawResult, err: bool, ghost used: nat)
    requires retries <= |attempts|
    ensures used <= retries && forall i :: 0 <= i < used - 1 ==> attempts[i].Errored?
    ensures 0 < retries ==> 0 < used && result == attempts[used - 1].result && err == attempts[used - 1].Errored?
    ensures err ==> used == retries
    ensures retries == 0 ==> !err && result == RawNone
  {
    result, err, used := RawNone, false, 0;
    for i := 0 to retries
      invariant used == i && forall j :: 0 <= j < i ==> attempts[j].Errored?
      invariant 0 < i ==> err && result == attempts[i - 1].result
      invariant i == 0 ==> !err && result == RawNone
    {
      result, err, used := attempts[i].result, attempts[i].Errored?, i + 1;
      if !err {
        return;
      }
    }
  }

  /** What a tick of the worker finds: it is still in the initial delay, every retry errored, or
      the probe gave a result that counts. */
  datatype Tick = InitialDelay | Discarded | Counted(result: Result)

  /** The first attempt that did not error, if any, decides: a result counts as a success when it is
      one, if need be with a warning, and as a failure otherwise. */
  ghost predicate Judged(attempts: seq<ProbeAttempt>, result: Result) {
    exists i :: 0 <= i < |attempts| && FirstGood(attempts, i)
                && (result == Success <==> attempts[i].result == RawSuccess || attempts[i].result == RawWarning)
                && (result == Failure <==> attempts[i].result != RawSuccess && attempts[i].result != RawWarning)
  }

  ghost predicate FirstGood(attempts: seq<ProbeAttempt>, i: nat) {
    i < |attempts| && attempts[i].Returned? && forall j :: 0 <= j < i ==> attempts[j].Errored?
  }

  /** probe: a result is thrown away exactly when all three attempts errored. */
  method Probe(attempts: seq<ProbeAttempt>) returns (result: Result, err: bool)
    requires |attempts| == MAX_PROBE_RETRIES
    ensures err <==> forall i :: 0 <= i < 3 ==> attempts[i].Errored?
    ensures err ==> result == Failure
    ensures !err ==> Judged(attempts, result)
  {
    var raw, e, used := RunProbeWithRetries(attempts, MAX_PROBE_RETRIES);
    err := e;
    assert attempts[used - 1].result == raw;
    assert !err ==> FirstGood(attempts, used - 1);
    if err || (raw != RawSuccess && raw != RawWarning) {
      return Failure, err;
    }
    return Success, false;
  }

  // ----- Threshold counting ------------------------------------------------------------

  datatype Worker = Worker(lastResult: Result, resultRun: int)

  /** The zero value of the worker's fields. */
  const NEW_WORKER := Worker(Success, 0)

  function InitialValue(t: ProbeType): Result {
    match t
    case Readiness => Failure
    case Liveness => Success
    case Startup => Unknown
  }

  function Count(w: Worker, r: Result): Worker {
    if w.lastResult == r then w.(resultRun := w.resultRun + 1) else Worker(r, 1)
  }

  /** The worker after a tick, and what it emits. */
  function DoProbe(w: Worker, t: ProbeType, spec: ProbeSpec, tick: Tick): (Worker, Option<Result>) {
    match tick
    case InitialDelay => (w, Some(InitialValue(t)))
    case Discarded => (w, None)
    case Counted(r) =>
      var v := Count(w, r);
      if (r == Failure && v.resultRun < spec.failureThreshold) || (r == Success && v.resultRun < spec.successThreshold)
      then (v, None) else (v, Some(r))
  }

  /** The outcomes that count, among the ticks so far. */
  function CountedOf(ticks: seq<Tick>): seq<Result> {
    if ticks == [] then []
    else
      var last := ticks[|ticks| - 1];
      CountedOf(ticks[..|ticks| - 1]) + if last.Counted? then [last.result] else []
  }

  function WorkerAfter(ticks: seq<Tick>, t: ProbeType, spec: ProbeSpec): Worker {
    if ticks == [] then NEW_WORKER
    else DoProbe(WorkerAfter(ticks[..|ticks| - 1], t, spec), t, spec, ticks[|ticks| - 1]).0
  }

  /** The last `n` outcomes are all `r`. */
  ghost predicate EndsWith(outcomes: seq<Result>, r: Result, n: int) {
    n <= |outcomes| && forall i :: |outcomes| - n <= i < |outcomes| && 0 <= i ==> outcomes[i] == r
  }

  /** `n` is the length of the longest run of equal outcomes at the end. */
  ghost predicate TrailingRun(outcomes: seq<Result>, n: int) {
    if outcomes == [] then n == 0
    else
      var last := outcomes[|outcomes| - 1];
      && 0 < n && EndsWith(outcomes, last, n)
      && (n < |outcomes| ==> outcomes[|outcomes| - n - 1] != last)
  }

  /** The worker's fields agree with the outcomes counted so far. */
  ghost predicate Tracks(w: Worker, outcomes: seq<Result>) {
    && TrailingRun(outcomes, w.resultRun)
    && w.lastResult == if outcomes == [] then Success else outcomes[|outcomes| - 1]
  }

  lemma CountTracks(w: Worker, outcomes: seq<Result>, r: Result)
    requires Tracks(w, outcomes)
    ensures Tracks(Count(w, r), outcomes + [r])
  {
    var all, n := outcomes + [r], Count(w, r).resultRun;
    assert EndsWith(all, r, n);
  }

  /** Reaching a threshold is seen in the outcomes alone. */
  lemma RunReaches(outcomes: seq<Result>, n: int, k: int)
    requires outcomes != [] && TrailingRun(outcomes, n)
    ensures k <= n <==> EndsWith(outcomes, outcomes[|outcomes| - 1], k)
  {
    var last := outcomes[|outcomes| - 1];
    if n < k <= |outcomes| {
      assert |outcomes| - k <= |outcomes| - n - 1;
      assert outcomes[|outcomes| - n - 1] != last;
    }
  }

  /** Over any sequence of ticks the worker's counter is the length of the trailing run of equal
      counted outcomes; ticks in the initial delay and discarded probes neither extend nor break it. */
  lemma {:induction false} CounterIsTrailingRun(ticks: seq<Tick>, t: ProbeType, spec: ProbeSpec)
    ensures Tracks(WorkerAfter(ticks, t, spec), CountedOf(ticks))
  {
    if ticks != [] {
      var before, last := ticks[..|ticks| - 1], ticks[|ticks| - 1];
      CounterIsTrailingRun(before, t, spec);
      if last.Counted? {
        CountTracks(WorkerAfter(before, t, spec), CountedOf(before), last.result);
      } else {
        assert CountedOf(ticks) == CountedOf(before);
      }
    }
  }

  /** A tick reports a failure exactly when the outcomes then end with as many failures as the failure
      threshold asks for, and a success likewise; in the initial delay it reports the initial value,
      and a discarded probe reports nothing. */
  lemma ReportsExactlyAtThreshold(ticks: seq<Tick>, t: ProbeType, spec: ProbeSpec, tick: Tick)
    ensures var emitted := DoProbe(WorkerAfter(ticks, t, spec), t, spec, tick).1;
            match tick
            case InitialDelay =>
              emitted == Some(match t case Readiness => Failure case Liveness => Success case Startup => Unknown)
            case Discarded => emitted == None
            case Counted(Failure) =>
              var met := EndsWith(CountedOf(ticks) + [Failure], Failure, spec.failureThreshold);
              emitted == if met then Some(Failure) else None
            case Counted(Success) =>
              var met := EndsWith(CountedOf(ticks) + [Success], Success, spec.successThreshold);
              emitted == if met then Some(Success) else None
            case Counted(Unknown) => true
  {
    if tick.Counted? && tick.result != Unknown {
      CounterIsTrailingRun(ticks, t, spec);
      var w, outcomes := WorkerAfter(ticks, t, spec), CountedOf(ticks);
      CountTracks(w, outcomes, tick.result);
      var threshold := if tick.result == Failure then spec.failureThreshold else spec.successThreshold;
      RunReaches(outcomes + [tick.result], Count(w, tick.result).resultRun, threshold);
    }
  }

  // ----- The worker object -------------------------------------------------------------

  const RESULTS_CAPACITY := 2

  /** A non-blocking send: what finds the channel full is dropped. */
  function Offer<T>(channel: seq<T>, x: T): seq<T> {
    if |channel| < RESULTS_CAPACITY then channel + [x] else channel
  }

  class ProbeWorker {
    const probeType: ProbeType
    const spec: ProbeSpec
    const initialDelaySeconds: int
    const initialValue: Result
    var lastResult: Result
    var resultRun: int
    var results: seq<Result>   // the buffered channel

    function State(): Worker
      reads this`lastResult, this`resultRun
    {
      Worker(lastResult, resultRun)
    }

    constructor (probeType: ProbeType, spec: ProbeSpec, initialDelaySeconds: int)
      ensures this.probeType == probeType && this.spec == spec && this.initialDelaySeconds == initialDelaySeconds
      ensures initialValue == InitialValue(probeType) && State() == NEW_WORKER && results == []
    {
      this.probeType, this.spec, this.initialDelaySeconds := probeType, spec, initialDelaySeconds;
      initialValue := InitialValue(probeType);
      lastResult, resultRun, results := Success, 0, [];
    }

    /** `elapsed` are the seconds since the start, `attempts` the outcomes the probe's retries have. */
    method Do(elapsed: int, attempts: seq<ProbeAttempt>) returns (hasResult: bool, result: Result, ghost tick: Tick)
      requires |attempts| == MAX_PROBE_RETRIES && initialValue == InitialValue(probeType)
      modifies this`lastResult, this`resultRun
      ensures tick.InitialDelay? <==> elapsed < initialDelaySeconds
      ensures tick.Discarded? <==>
                elapsed >= initialDelaySeconds && forall i :: 0 <= i < |attempts| ==> attempts[i].Errored?
      ensures tick.Counted? ==> Judged(attempts, tick.result)
      ensures State() == DoProbe(old(State()), probeType, spec, tick).0
      ensures (if hasResult then Some(result) else None) == DoProbe(old(State()), probeType, spec, tick).1
    {
      tick := InitialDelay;
      if elapsed < initialDelaySeconds {
        return true, initialValue, tick;
      }
      var err;
      result, err := Probe(attempts);
      if err {
        return false, result, Discarded;
      }
      tick := Counted(result);
      if lastResult == result {
        resultRun := resultRun + 1;
      } else {
        lastResult := result;
        resultRun := 1;
      }
      if (result == Failure && resultRun < spec.failureThreshold) ||
         (result == Success && resultRun < spec.successThreshold) {
        return false, result, tick;
      }
      return true, result, tick;
    }

    method Emit(result: Result)
      modifies this`results
      ensures |old(results)| < 2 ==> results == old(results) + [result]
      ensures |old(results)| >= 2 ==> results == old(results)
    {
      if |results| < RESULTS_CAPACITY {
        results := results + [result];
      }
    }

    /** One turn of the worker's loop. */
    method Turn(elapsed: int, attempts: seq<ProbeAttempt>) returns (ghost tick: Tick)
      requires |attempts| == MAX_PROBE_RETRIES && initialValue == InitialValue(probeType)
      modifies this`lastResult, this`resultRun, this`results
      ensures tick.InitialDelay? <==> elapsed < initialDelaySeconds
      ensures tick.Discarded? <==>
                elapsed >= initialDelaySeconds && forall i :: 0 <= i < |attempts| ==> attempts[i].Errored?
      ensures tick.Counted? ==> Judged(attempts, tick.result)
      ensures State() == DoProbe(old(State()), probeType, spec, tick).0
      ensures results == Emitted(old(results), DoProbe(old(State()), probeType, spec, tick).1)
    {
      var hasResult, result;
      hasResult, result, tick := Do(elapsed, attempts);
      if hasResult {
        Emit(result);
      }
    }
  }

  /** The channel when the worker has sent what a tick emitted, if anything. */
  function Emitted(channel: seq<Result>, emitted: Option<Result>): seq<Result> {
    if emitted.None? then channel else Offer(channel, emitted.value)
  }
}
