/** Reading the end of a file (pkg/util/file.go). */
module TailFiles {
  import opened Basics

  newtype Byte = x: int | 0 <= x < 256

  const NEWLINE: Byte := 10
  const CHUNK_SIZE := 8196
  const MAX_BUFFER_SIZE := 1024 * 1024 * 10

  /** The size of `k` chunks. */
  function Span(k: nat): nat {
    8196 * k
  }

  // ----- Splitting and joining on newlines ---------------------------------------------

  /** bytes.Count(s, "\n") */
  function Newlines(s: seq<Byte>): nat {
    if s == [] then 0 else (if s[0] == NEWLINE then 1 else 0) + Newlines(s[1..])
  }

  /** bytes.Split(s, "\n") */
  function Split(s: seq<Byte>): (parts: seq<seq<Byte>>)
    ensures |parts| == Newlines(s) + 1
  {
    if s == [] then [[]]
    else
      var rest := Split(s[1..]);
      if s[0] == NEWLINE then [[]] + rest else [[s[0]] + rest[0]] + rest[1..]
  }

  /** bytes.Join(parts, "\n") */
  function Join(parts: seq<seq<Byte>>): seq<Byte> {
    if parts == [] then []
    else if |parts| == 1 then parts[0]
    else parts[0] + [NEWLINE] + Join(parts[1..])
  }

  lemma {:induction false} NewlinesJoin(a: seq<Byte>, b: seq<Byte>)
    ensures Newlines(a + b) == Newlines(a) + Newlines(b)
  {
    if a == [] {
      assert a + b == b;
    } else {
      NewlinesJoin(a[1..], b);
      assert (a + b)[1..] == a[1..] + b;
    }
  }

  /** The position just behind the k-th newline of `s`; 0 for k = 0. */
  function After(s: seq<Byte>, k: nat): nat
    requires k <= Newlines(s)
  {
    if k == 0 then 0 else 1 + After(s[1..], if s[0] == NEWLINE then k - 1 else k)
  }

  lemma {:induction false} AfterNewlines(s: seq<Byte>, k: nat)
    requires k <= Newlines(s)
    ensures var i := After(s, k);
            && i <= |s| && Newlines(s[i..]) == Newlines(s) - k
            && (0 < k ==> 0 < i && s[i - 1] == NEWLINE)
  {
    if k == 0 {
      assert s[0..] == s;
    } else {
      var rest := if s[0] == NEWLINE then k - 1 else k;
      AfterNewlines(s[1..], rest);
      assert s[1..][After(s[1..], rest)..] == s[1 + After(s[1..], rest)..];
    }
  }

  lemma JoinHead(x: Byte, parts: seq<seq<Byte>>)
    requires parts != []
    ensures Join([[x] + parts[0]] + parts[1..]) == [x] + Join(parts)
  {
    var longer := [[x] + parts[0]] + parts[1..];
    assert longer[1..] == parts[1..];
    if |parts| > 1 {
      assert [x] + parts[0] + [NEWLINE] + Join(parts[1..]) == [x] + (parts[0] + [NEWLINE] + Join(parts[1..]));
    }
  }

  lemma {:induction false} JoinSplit(s: seq<Byte>)
    ensures Join(Split(s)) == s
  {
    if s != [] {
      var rest := Split(s[1..]);
      JoinSplit(s[1..]);
      if s[0] == NEWLINE {
        assert ([[]] + rest)[1..] == rest;
      } else {
        JoinHead(s[0], rest);
      }
    }
  }

  lemma DropCons<T>(x: T, rest: seq<T>, k: nat)
    requires 0 < k <= |rest| + 1
    ensures ([x] + rest)[k..] == rest[k - 1..]
  {
  }

  /** Dropping the first k > 0 parts, seen from the second byte on. */
  lemma SplitDrop(s: seq<Byte>, k: nat)
    requires 0 < k <= Newlines(s)
    ensures Split(s)[k..] == Split(s[1..])[if s[0] == NEWLINE then k - 1 else k..]
  {
    var rest := Split(s[1..]);
    if s[0] == NEWLINE {
      DropCons([], rest, k);
    } else {
      DropCons([s[0]] + rest[0], rest[1..], k);
      assert rest[1..][k - 1..] == rest[k..];
    }
  }

  /** Joining all parts but the first k gives back what follows the k-th newline. */
  lemma {:induction false} JoinDropsLines(s: seq<Byte>, k: nat)
    requires k <= Newlines(s)
    ensures After(s, k) <= |s| && Join(Split(s)[k..]) == s[After(s, k)..]
  {
    if k == 0 {
      JoinSplit(s);
      assert Split(s)[0..] == Split(s) && s[0..] == s;
    } else {
      var rest := if s[0] == NEWLINE then k - 1 else k;
      SplitDrop(s, k);
      JoinDropsLines(s[1..], rest);
      var i := After(s[1..], rest);
      assert s[1..][i..] == s[1 + i..];
    }
  }

  // ----- What the tail of a text is ----------------------------------------------------

  /** The number of newlines from position `i` of `w` on. */
  function LinesFrom(w: seq<Byte>, i: nat): nat
    requires i <= |w|
  {
    Newlines(w[i..])
  }

  /** The suffix of `w` from `i` on has at most `lines` newlines, and no longer suffix has. */
  ghost predicate TailStart(w: seq<Byte>, lines: nat, i: nat) {
    && i <= |w|
    && LinesFrom(w, i) <= lines
    && forall j :: 0 <= j < i ==> lines < LinesFrom(w, j)
  }

  ghost predicate IsLongestTail(w: seq<Byte>, lines: nat, r: seq<Byte>) {
    exists i: nat :: TailStart(w, lines, i) && r == w[i..]
  }

  lemma SuffixNewlines(w: seq<Byte>, i: nat, j: nat)
    requires i <= j <= |w|
    ensures LinesFrom(w, i) == Newlines(w[i..j]) + LinesFrom(w, j)
  {
    assert w[i..] == w[i..j] + w[j..];
    NewlinesJoin(w[i..j], w[j..]);
  }

  /** A suffix that starts behind a newline and has exactly `lines` newlines is the longest tail. */
  lemma TailBehindNewline(w: seq<Byte>, lines: nat, i: nat)
    requires 0 < i <= |w| && w[i - 1] == NEWLINE && LinesFrom(w, i) == lines
    ensures TailStart(w, lines, i)
  {
    assert w[i - 1..][1..] == w[i..];
    assert LinesFrom(w, i - 1) == lines + 1;
    forall j | 0 <= j < i
      ensures lines < LinesFrom(w, j)
    {
      SuffixNewlines(w, j, i - 1);
    }
  }

  // ----- The window read from the end of the file --------------------------------------

  /** The last `k` chunks of the first `size` bytes, or all of them. */
  function Window(content: seq<Byte>, size: nat, k: nat): seq<Byte>
    requires size <= |content|
  {
    content[Max(0, size - Span(k))..size]
  }

  predicate NeedsMore(content: seq<Byte>, size: nat, lines: int, maxBytes: int, k: nat)
    requires size <= |content|
  {
    Newlines(Window(content, size, k)) < lines && Span(k) < size && Span(k) < maxBytes
  }

  /** The number of chunks read when `k` of them have been read already. */
  function ChunksRead(content: seq<Byte>, size: nat, lines: int, maxBytes: int, k: nat): nat
    requires size <= |content|
    decreases size - Span(k)
  {
    if NeedsMore(content, size, lines, maxBytes, k) then ChunksRead(content, size, lines, maxBytes, k + 1) else k
  }

  /** Reading stops at the first chunk count that suffices. */
  lemma {:induction false} ChunksReadIsLeast(content: seq<Byte>, size: nat, lines: int, maxBytes: int, k: nat)
    requires size <= |content|
    ensures var n := ChunksRead(content, size, lines, maxBytes, k);
            && k <= n
            && !NeedsMore(content, size, lines, maxBytes, n)
            && forall j: nat :: k <= j < n ==> NeedsMore(content, size, lines, maxBytes, j)
    decreases size - Span(k)
  {
    if NeedsMore(content, size, lines, maxBytes, k) {
      ChunksReadIsLeast(content, size, lines, maxBytes, k + 1);
    }
  }

  /** Nothing is read that is not needed, and everything that is: reading stops at the first number of
      chunks that hold enough newlines, or the whole file, or as much as the limit allows. */
  lemma ReadsJustEnough(content: seq<Byte>, size: nat, lines: int, maxBytes: int)
    requires size <= |content|
    ensures var k := ChunksRead(content, size, lines, maxBytes, 0);
            && (lines <= Newlines(Window(content, size, k)) || size <= 8196 * k || maxBytes <= 8196 * k)
            && forall j: nat :: j < k ==>
                 Newlines(Window(content, size, j)) < lines && 8196 * j < size && 8196 * j < maxBytes
  {
    var k := ChunksRead(content, size, lines, maxBytes, 0);
    ChunksReadIsLeast(content, size, lines, maxBytes, 0);
    forall j: nat | j < k
      ensures Newlines(Window(content, size, j)) < lines && 8196 * j < size && 8196 * j < maxBytes
    {
      assert NeedsMore(content, size, lines, maxBytes, j);
    }
  }

  /** The window ends the first `size` bytes. */
  lemma WindowIsSuffix(content: seq<Byte>, size: nat, k: nat)
    requires size <= |content|
    ensures |Window(content, size, k)| == Min(size, Span(k))
    ensures content[..size][size - |Window(content, size, k)|..] == Window(content, size, k)
  {
  }

  lemma ReadsWithinLimit(content: seq<Byte>, size: nat, lines: int, maxBytes: int)
    requires size <= |content| && 0 < maxBytes
    ensures Span(ChunksRead(content, size, lines, maxBytes, 0)) < maxBytes + CHUNK_SIZE
  {
    var k := ChunksRead(content, size, lines, maxBytes, 0);
    ChunksReadIsLeast(content, size, lines, maxBytes, 0);
    if 0 < k {
      assert NeedsMore(content, size, lines, maxBytes, k - 1);
    }
  }

  lemma TailOfWindow(content: seq<Byte>, size: nat, lines: nat, k: nat, r: seq<Byte>)
    requires size <= |content| && IsLongestTail(Window(content, size, k), lines, r)
    ensures |r| <= |Window(content, size, k)| == Min(size, 8196 * k)
    ensures r == content[..size][size - |r|..]
  {
    WindowIsSuffix(content, size, k);
    TailIsSuffix(Window(content, size, k), lines, r);
    SuffixOfSuffix(content[..size], Window(content, size, k), r);
  }

  /** The window is a whole number of chunks or the entire file, the tail is part of it, and with a
      positive limit it stays less than one chunk above the limit. */
  lemma TailIsBounded(content: seq<Byte>, size: nat, lines: nat, maxBytes: int, r: seq<Byte>)
    requires size <= |content|
    requires IsLongestTail(Window(content, size, ChunksRead(content, size, lines, maxBytes, 0)), lines, r)
    ensures |Window(content, size, ChunksRead(content, size, lines, maxBytes, 0))|
            == Min(size, 8196 * ChunksRead(content, size, lines, maxBytes, 0))
    ensures |r| <= size && r == content[..size][size - |r|..]
    ensures 0 < maxBytes ==> |r| < maxBytes + 8196
  {
    TailOfWindow(content, size, lines, ChunksRead(content, size, lines, maxBytes, 0), r);
    if 0 < maxBytes {
      ReadsWithinLimit(content, size, lines, maxBytes);
    }
  }

  lemma TailIsSuffix(w: seq<Byte>, lines: nat, r: seq<Byte>)
    requires IsLongestTail(w, lines, r)
    ensures |r| <= |w| && r == w[|w| - |r|..]
  {
  }

  lemma SuffixOfSuffix(text: seq<Byte>, w: seq<Byte>, r: seq<Byte>)
    requires |r| <= |w| <= |text| && r == w[|w| - |r|..] && w == text[|text| - |w|..]
    ensures r == text[|text| - |r|..]
  {
  }

  lemma LinesOfJoin(before: seq<Byte>, w: seq<Byte>, j: nat)
    requires j <= |before + w|
    ensures LinesFrom(before + w, j) ==
            if |before| <= j then LinesFrom(w, j - |before|) else Newlines(before[j..]) + Newlines(w)
  {
    if |before| <= j {
      assert (before + w)[j..] == w[j - |before|..];
    } else {
      assert (before + w)[j..] == before[j..] + w;
      NewlinesJoin(before[j..], w);
    }
  }

  /** The tail of a text that ends with the window `w`, given the tail of `w`. */
  lemma TailOfExtended(before: seq<Byte>, w: seq<Byte>, lines: nat, r: seq<Byte>)
    requires before != [] && IsLongestTail(w, lines, r)
    ensures IsLongestTail(before + w, lines, r) <==>
              lines < Newlines(w) || (lines == Newlines(w) && before[|before| - 1] == NEWLINE)
  {
    var text, n := before + w, |before|;
    var i: nat :| TailStart(w, lines, i) && r == w[i..];
    assert w[0..] == w && LinesFrom(w, 0) == Newlines(w);
    assert text[n + i..] == w[i..];
    forall j | 0 <= j <= |text|
      ensures LinesFrom(text, j) == if n <= j then LinesFrom(w, j - n) else Newlines(before[j..]) + Newlines(w)
    {
      LinesOfJoin(before, w, j);
    }
    if lines < Newlines(w) {
      assert TailStart(text, lines, n + i);
    } else {
      assert i == 0;
      assert before[n - 1..] == [before[n - 1]];
      assert LinesFrom(text, n - 1) == Newlines([before[n - 1]]) + Newlines(w);
      if lines == Newlines(w) && before[n - 1] == NEWLINE {
        TailBehindNewline(text, lines, n);
      } else {
        forall t: nat | TailStart(text, lines, t)
          ensures text[t..] != r
        {
          assert t < n;
        }
      }
    }
  }

  lemma TailOfText(text: seq<Byte>, from: nat, lines: nat, r: seq<Byte>)
    requires from <= |text| && IsLongestTail(text[from..], lines, r)
    ensures IsLongestTail(text, lines, r) <==>
              || from == 0
              || lines < Newlines(text[from..])
              || (lines == Newlines(text[from..]) && text[from - 1] == NEWLINE)
  {
    if from == 0 {
      assert text[0..] == text;
    } else {
      assert text == text[..from] + text[from..];
      TailOfExtended(text[..from], text[from..], lines, r);
    }
  }

  /** The result is the true tail of the whole file exactly when the window is the whole file, or
      holds more than enough newlines, or holds just enough and starts at the start of a line.
      Otherwise the size limit, or a chunk edge, has cut it short. */
  lemma TailOfWholeFile(content: seq<Byte>, size: nat, lines: nat, k: nat, r: seq<Byte>)
    requires size <= |content|
    requires IsLongestTail(Window(content, size, k), lines, r)
    ensures IsLongestTail(content[..size], lines, r) <==>
              var w := Window(content, size, k);
              || |w| == size
              || lines < Newlines(w)
              || (lines == Newlines(w) && content[size - |w| - 1] == NEWLINE)
  {
    WindowIsSuffix(content, size, k);
    TailOfText(content[..size], size - |Window(content, size, k)|, lines, r);
  }

  /** With a limit that does not matter, the file or enough newlines have been read. */
  lemma LimitDoesNotMatter(content: seq<Byte>, size: nat, lines: nat, maxBytes: int)
    requires size <= |content| && size <= maxBytes
    ensures var w := Window(content, size, ChunksRead(content, size, lines, maxBytes, 0));
            |w| <= size && (|w| == size || lines <= Newlines(w))
  {
    var k := ChunksRead(content, size, lines, maxBytes, 0);
    ReadsJustEnough(content, size, lines, maxBytes);
    WindowIsSuffix(content, size, k);
  }

  lemma TailMissed(text: seq<Byte>, w: seq<Byte>, lines: nat, r: seq<Byte>)
    requires |w| <= |text| && w == text[|text| - |w|..] && IsLongestTail(w, lines, r)
    requires |w| == |text| || lines <= Newlines(w)
    ensures IsLongestTail(text, lines, r) <==>
            !(Newlines(w) == lines && |w| < |text| && text[|text| - |w| - 1] != NEWLINE)
  {
    TailOfText(text, |text| - |w|, lines, r);
  }

  /** With a limit that does not matter, the true tail of the file is missed in one case only: exactly
      as many newlines as asked for have been read, and a chunk edge lies in the middle of a line. */
  lemma {:induction false} TailMissedExactlyWhen(content: seq<Byte>, size: nat, lines: nat, maxBytes: int, r: seq<Byte>)
    requires size <= |content| && size <= maxBytes
    requires IsLongestTail(Window(content, size, ChunksRead(content, size, lines, maxBytes, 0)), lines, r)
    ensures var w := Window(content, size, ChunksRead(content, size, lines, maxBytes, 0));
            IsLongestTail(content[..size], lines, r) <==>
            !(Newlines(w) == lines && |w| < size && content[size - |w| - 1] != NEWLINE)
  {
    var k := ChunksRead(content, size, lines, maxBytes, 0);
    LimitDoesNotMatter(content, size, lines, maxBytes);
    WindowIsSuffix(content, size, k);
    TailMissed(content[..size], Window(content, size, k), lines, r);
  }

  lemma {:induction false} NoNewlines(s: seq<Byte>)
    requires forall i :: 0 <= i < |s| ==> s[i] != NEWLINE
    ensures Newlines(s) == 0
  {
    if s != [] {
      NoNewlines(s[1..]);
    }
  }

  /** A line that is one byte longer than a chunk, newline included. */
  function LongLine(x: Byte): seq<Byte> {
    seq(CHUNK_SIZE, _ => x) + [NEWLINE]
  }

  /** Asked for one line of it, reading stops after one chunk, and the first byte is missing. */
  lemma LongLineIsCut(x: Byte)
    requires x != NEWLINE
    ensures var line := LongLine(x); var n := |line|;
            && ChunksRead(line, n, 1, MAX_BUFFER_SIZE, 0) == 1
            && IsLongestTail(Window(line, n, 1), 1, line[1..])
            && !IsLongestTail(line[..n], 1, line[1..])
  {
    var line := LongLine(x);
    var n := |line|;
    var w := Window(line, n, 1);
    assert w == line[1..n] == line[1..] == line[1..n - 1] + [NEWLINE];
    NoNewlines(line[1..n - 1]);
    NewlinesJoin(line[1..n - 1], [NEWLINE]);
    assert Newlines([NEWLINE]) == 1;
    assert w[0..] == w && LinesFrom(w, 0) == 1 && TailStart(w, 1, 0);
    assert Newlines(Window(line, n, 0)) == 0 && NeedsMore(line, n, 1, MAX_BUFFER_SIZE, 0);
    TailOfWholeFile(line, n, 1, 1, w);
  }

  // ----- The code ----------------------------------------------------------------------

  /** The parts in reverse order, as the result buffer receives them. */
  function Reassembled(parts: seq<seq<Byte>>): seq<Byte> {
    if parts == [] then [] else parts[|parts| - 1] + Reassembled(parts[..|parts| - 1])
  }

  lemma ReassembledAppend(parts: seq<seq<Byte>>, p: seq<Byte>)
    ensures Reassembled(parts + [p]) == p + Reassembled(parts)
  {
    assert (parts + [p])[..|parts|] == parts;
  }

  method WriteParts(parts: seq<seq<Byte>>) returns (buffer: seq<Byte>)
    ensures buffer == Reassembled(parts)
  {
    buffer := [];
    var i := |parts| - 1;
    assert parts[..i + 1] == parts;
    while i >= 0
      invariant -1 <= i < |parts|
      invariant buffer + Reassembled(parts[..i + 1]) == Reassembled(parts)
    {
      assert parts[..i + 1][..i] == parts[..i];
      buffer := buffer + parts[i];
      i := i - 1;
    }
  }

  /** The offset arithmetic and ReadAt: the chunk that the `curChunk`-th read puts in front of the
      window. */
  method ReadChunk(f: seq<Byte>, fileSize: nat, curChunk: nat) returns (chunkBuf: seq<Byte>)
    requires fileSize <= |f| && 0 < curChunk && Span(curChunk - 1) < fileSize
    ensures chunkBuf + Window(f, fileSize, curChunk - 1) == Window(f, fileSize, curChunk)
  {
    var chunkLen := CHUNK_SIZE;
    var offsetFromEnd := Span(curChunk);
    var offsetFromStart := fileSize - offsetFromEnd;
    if offsetFromStart < 0 {
      chunkLen := CHUNK_SIZE + offsetFromStart;
      offsetFromStart := 0;
    }
    chunkBuf := f[offsetFromStart..offsetFromStart + chunkLen];
  }

  /** What has been kept of the window `w`: all of it, or its tail once it has more newlines than
      asked for. */
  ghost predicate Collected(w: seq<Byte>, lines: nat, kept: seq<Byte>) {
    if Newlines(w) <= lines then kept == w else IsLongestTail(w, lines, kept)
  }

  /** Cutting the newest chunk behind its surplus lines leaves the longest tail of the window. */
  lemma TrimmedChunk(chunk: seq<Byte>, w: seq<Byte>, lines: nat, over: nat)
    requires Newlines(w) < lines && 0 < over == Newlines(chunk) + Newlines(w) - lines
    ensures over <= Newlines(chunk) && After(chunk, over) <= |chunk|
    ensures IsLongestTail(chunk + w, lines, chunk[After(chunk, over)..] + w)
  {
    NewlinesJoin(chunk, w);
    AfterNewlines(chunk, over);
    var cut := After(chunk, over);
    NewlinesJoin(chunk[cut..], w);
    assert (chunk + w)[cut..] == chunk[cut..] + w;
    assert LinesFrom(chunk + w, cut) == lines;
    TailBehindNewline(chunk + w, lines, cut);
  }

  /** The end of the loop body: the part of the chunk that is appended to the result parts.
      `linesSeen` already counts the newlines of the chunk. */
  method KeepPart(chunkBuf: seq<Byte>, lines: nat, linesSeen: nat, ghost w: seq<Byte>) returns (part: seq<Byte>)
    requires Newlines(w) < lines && linesSeen == Newlines(w) + Newlines(chunkBuf)
    ensures Newlines(chunkBuf + w) == linesSeen
    ensures Collected(chunkBuf + w, lines, part + w)
  {
    NewlinesJoin(chunkBuf, w);
    part := [];
    if linesSeen > lines {
      var overCount := linesSeen - lines;
      TrimmedChunk(chunkBuf, w, lines, overCount);
      var parts := Split(chunkBuf);
      if overCount < |parts| {
        JoinDropsLines(chunkBuf, overCount);
        parts := parts[overCount..];
        part := Join(parts);
      }
    } else {
      part := chunkBuf;
    }
  }

  /** `f` is the file's content when it is read, `fileSize` its size when it was last looked up. */
  method TailLines(f: seq<Byte>, lines: int, maxBytes: int, fileSize: nat) returns (r: seq<Byte>)
    requires fileSize <= |f|
    ensures lines <= 0 ==> r == []
    ensures 0 < lines ==> IsLongestTail(Window(f, fileSize, ChunksRead(f, fileSize, lines, maxBytes, 0)), lines, r)
  {
    var returnParts: seq<seq<Byte>> := [];
    var curChunk: nat, linesSeen := 0, 0;
    ghost var w := Window(f, fileSize, 0);
    while linesSeen < lines && Span(curChunk) < fileSize && Span(curChunk) < maxBytes
      invariant w == Window(f, fileSize, curChunk)
      invariant linesSeen == Newlines(w)
      invariant ChunksRead(f, fileSize, lines, maxBytes, curChunk) == ChunksRead(f, fileSize, lines, maxBytes, 0)
      invariant lines <= 0 ==> returnParts == []
      invariant 0 < lines ==> Collected(w, lines, Reassembled(returnParts))
      decreases fileSize - Span(curChunk)
    {
      curChunk := curChunk + 1;
      var chunkBuf := ReadChunk(f, fileSize, curChunk);
      linesSeen := linesSeen + Newlines(chunkBuf);
      var part := KeepPart(chunkBuf, lines, linesSeen, w);
      ReassembledAppend(returnParts, part);
      returnParts := returnParts + [part];
      w := Window(f, fileSize, curChunk);
    }
    r := WriteParts(returnParts);
    if 0 < lines && linesSeen <= lines {
      assert w == w[0..] && LinesFrom(w, 0) == linesSeen;
      assert TailStart(w, lines, 0);
    }
  }

  datatype TailResult = StatOrOpenFailed | ReadFailed | Tail(text: seq<Byte>)

  /** The last `maxBytes` bytes of the file, or all of it; `readOk` tells whether Read succeeds. */
  method TailBytes(f: seq<Byte>, maxBytes: nat, readOk: bool) returns (r: TailResult)
    ensures r.ReadFailed? <==> !readOk
    ensures readOk ==> r.Tail? && |r.text| == Min(maxBytes, |f|) && r.text == f[|f| - |r.text|..]
  {
    var n := maxBytes;
    if n > |f| {
      n := |f|;
    }
    if !readOk {
      return ReadFailed;
    }
    r := Tail(f[|f| - n..]);
  }

  /** TailFile: a limit of 0, or above 10MB, means 10MB. Reading lines ignores read errors. */
  method TailFile(file: Option<seq<Byte>>, lines: int, maxBytes: int, readOk: bool) returns (r: TailResult)
    requires 0 <= maxBytes || 0 < lines   // a negative byte count panics without a line count
    ensures r.StatOrOpenFailed? <==> file.None?
    ensures r.ReadFailed? <==> file.Some? && lines <= 0 && !readOk
    ensures r.Tail? ==>
              var limit := if maxBytes == 0 then 10485760 else Min(maxBytes, 10485760);
              if lines <= 0 then |r.text| == Min(limit, |file.value|) && r.text == file.value[|file.value| - |r.text|..]
              else
                var k := ChunksRead(file.value, |file.value|, lines, limit, 0);
                IsLongestTail(Window(file.value, |file.value|, k), lines, r.text)
  {
    if file.None? {
      return StatOrOpenFailed;
    }
    var limit := maxBytes;
    if limit == 0 || limit > MAX_BUFFER_SIZE {
      limit := MAX_BUFFER_SIZE;
    }
    if lines > 0 {
      var text := TailLines(file.value, lines, limit, |file.value|);
      r := Tail(text);
    } else {
      r := TailBytes(file.value, limit, readOk);
    }
  }
}
