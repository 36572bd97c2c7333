/** The ring buffer that holds a unit's log (pkg/logbuf/logbuf.go). */
module LogBuffers {
  import opened Basics

  datatype LogSource = Stdout | Stderr | Helper
  datatype LogEntry = LogEntry(timestamp: string, source: LogSource, line: string)

  /** The first entry at or after `i` that is still retained. */
  function ResumeAt(length: nat, cap: nat, i: int): int {
    Max(i, length - cap)
  }

  /** What the complete log answers to ReadSince(i): everything from `i` on that is retained. */
  function EntriesSince(history: seq<LogEntry>, cap: nat, i: int): seq<LogEntry>
    requires 0 <= i || cap <= |history|
  {
    var start := ResumeAt(|history|, cap, i);
    if start < |history| then history[start..] else []
  }

  /** The array index of the i-th entry ever written. */
  function Slot(i: nat, cap: nat): (slot: nat)
    requires 0 < cap
    ensures slot < cap
  {
    i % cap
  }

  /** Fewer than `cap` consecutive entries occupy different slots. */
  lemma SlotsDiffer(a: nat, b: nat, cap: nat)
    requires 0 < cap && b < a < b + cap
    ensures Slot(a, cap) != Slot(b, cap)
  {
    var q := a / cap - b / cap;
    MultipleIsNotBetween(q, cap);
    assert a - b == q * cap + (a % cap - b % cap);
  }

  lemma MultipleIsNotBetween(q: int, m: int)
    requires 0 < m
    ensures q * m <= 0 || m <= q * m
  {
    if 0 < q {
      assert q * m == (q - 1) * m + m;
    }
  }

  class LogBuffer {
    var buf: array<LogEntry>
    const capacity: nat
    var offset: int           // the number of entries ever written
    ghost var history: seq<LogEntry>

    ghost predicate Valid()
      reads this, buf
    {
      && buf.Length == capacity
      && offset == |history|
      && (forall i: nat {:trigger Slot(i, capacity)} :: i < offset && offset - capacity <= i && 0 < capacity ==>
            buf[Slot(i, capacity)] == history[i])
    }

    constructor (capacity: nat)
      ensures Valid() && fresh(buf) && this.capacity == capacity && history == []
    {
      this.capacity := capacity;
      buf := new LogEntry[capacity](_ => LogEntry("", Stdout, ""));
      offset := 0;
      history := [];
    }

    method GetOffset() returns (r: int)
      requires Valid()
      ensures r == |history|
    {
      r := offset;
    }

    method Write(e: LogEntry)
      requires Valid()
      requires capacity > 0   // offset % capacity panics on an empty buffer
      modifies this`offset, this`history, buf
      ensures Valid() && history == old(history) + [e]
    {
      var bufLoc := Slot(offset, capacity);
      forall i: nat | i < offset && offset - capacity < i
        ensures Slot(i, capacity) != bufLoc
      {
        SlotsDiffer(offset, i, capacity);
      }
      buf[bufLoc] := e;
      offset := offset + 1;
      history := history + [e];
    }

    method Length() returns (n: int)
      requires Valid()
      ensures n == Min(capacity, |history|)
    {
      n := Min(capacity, offset);
    }

    method Read(nn: int) returns (entries: seq<LogEntry>)
      requires Valid()
      ensures nn < 0 ==> entries == []
      ensures 0 < nn <= Min(capacity, |history|) ==> entries == history[|history| - nn..]
      ensures nn == 0 || nn > Min(capacity, |history|) ==> entries == history[|history| - Min(capacity, |history|)..]
    {
      var n := nn;
      if n > capacity || n > offset {
        n := 0;
      }
      if n < 0 {
        return [];
      }
      if n == 0 {
        n := Min(capacity, offset);
      }
      entries := CopyLast(n);
    }

    /** The loop of Read: fills the result from its last element down. */
    method CopyLast(n: nat) returns (entries: seq<LogEntry>)
      requires Valid() && n <= Min(capacity, offset)
      ensures entries == history[offset - n..]
    {
      var out := new LogEntry[n](_ => LogEntry("", Stdout, ""));
      var i, j := 1, n - 1;
      while i <= n
        invariant 1 <= i <= n + 1 && j == n - i
        invariant forall k :: j < k < n ==> out[k] == history[offset - n + k]
        decreases n - i
      {
        var bufLoc := Slot(offset - i, capacity);
        out[j] := buf[bufLoc];
        i, j := i + 1, j - 1;
      }
      entries := out[..];
    }

    method ReadSince(since: int) returns (entries: seq<LogEntry>, next: int)
      requires Valid()
      requires 0 <= since || capacity <= |history|   // otherwise a negative index is read
      ensures since >= |history| ==> entries == []
      ensures since < |history| ==> entries == history[Max(since, |history| - capacity)..]
      ensures next == |history|
    {
      entries := [];
      if since >= offset {
        return entries, offset;
      }
      var i := since;
      if i + capacity < offset {
        i := offset - capacity;
      }
      ghost var start := i;
      while i < offset
        invariant start <= i <= offset
        invariant entries == history[start..i]
      {
        var bufLoc := Slot(i, capacity);
        entries := entries + [buf[bufLoc]];
        i := i + 1;
      }
      next := offset;
    }
  }
}
