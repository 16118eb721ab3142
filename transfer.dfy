/**
 * What the harness observes of the pipes, one retry-loop iteration at a time,
 * and the bookkeeping both retry loops do with it: the clamped wait passed to
 * select, the text the first `n` reads append to the reply buffer, and how
 * much of a command the first `n` partial writes have sent.
 *
 * Clock readings are integer ticks. Nothing assumes that the clock is
 * monotone, so an elapsed time may be negative.
 */
module Transfer {

  /** The timeout both loops use when the caller gives none. */
  const DEFAULT_TIMEOUT: int := 10

  /** One iteration of either retry loop as the harness observes it: the
      clock reading taken at the top of the iteration, and what the
      iteration's os.read or os.write gave. */
  datatype Tick<T> = Tick(now: int, outcome: T)

  /** What os.read gave: a chunk of text, empty at end of file, or an OSError
      such as EAGAIN. */
  datatype ReadOutcome = Data(chunk: seq<char>) | ReadError

  /** What os.write gave: the number of bytes written, or an OSError. */
  datatype WriteOutcome = Wrote(count: nat) | WriteError

  type ReadEvent = Tick<ReadOutcome>

  type WriteAttempt = Tick<WriteOutcome>

  /** The wait handed to select: what is left of the time budget, never
      negative. */
  function SelectTime(timeout: int, elapsed: int): (wait: int)
    ensures 0 <= wait
    ensures timeout - elapsed <= wait
    ensures wait == 0 || wait == timeout - elapsed
    ensures 0 <= elapsed && 0 <= timeout ==> wait <= timeout
    ensures elapsed < timeout ==> wait == timeout - elapsed
  {
    var selectTime := timeout - elapsed;
    if selectTime < 0 then 0 else selectTime
  }

  /** The waits handed to select in the first `n` iterations of a loop that
      started at clock reading `start`. */
  function Waits<T>(timeout: int, start: int, ticks: seq<Tick<T>>, n: nat): (waits: seq<int>)
    requires n <= |ticks|
    ensures |waits| == n
  {
    if n == 0 then []
    else Waits(timeout, start, ticks, n - 1) + [SelectTime(timeout, ticks[n - 1].now - start)]
  }

  /** The wait of iteration `j` is what remained of the budget at that
      iteration's clock reading. */
  lemma {:induction false} WaitsAt<T>(timeout: int, start: int, ticks: seq<Tick<T>>, n: nat, j: nat)
    requires j < n <= |ticks|
    ensures Waits(timeout, start, ticks, n)[j] == SelectTime(timeout, ticks[j].now - start)
  {
    if j < n - 1 {
      WaitsAt(timeout, start, ticks, n - 1, j);
    }
  }

  /** Each of the first `n` clock readings is still short of the deadline. */
  ghost predicate InTime<T>(timeout: int, start: int, ticks: seq<Tick<T>>, n: nat)
    requires n <= |ticks|
  {
    forall j :: 0 <= j < n ==> ticks[j].now - start < timeout
  }

  /** What one read contributes: the data of a chunk, nothing for a failed
      read. */
  function ChunkOf(e: ReadEvent): seq<char>
  {
    match e.outcome
    case Data(chunk) => chunk
    case ReadError => []
  }

  /** Everything the first `n` reads deliver, chunk after chunk in the order
      they were read. */
  function Received(events: seq<ReadEvent>, n: nat): seq<char>
    requires n <= |events|
  {
    if n == 0 then [] else Received(events, n - 1) + ChunkOf(events[n - 1])
  }

  /** The reply buffer after one read: a non-empty chunk is appended, and a
      failed or empty read leaves the buffer as it was. */
  function AfterRead(buffer: seq<char>, e: ReadEvent): seq<char>
  {
    match e.outcome
    case Data(chunk) => if chunk != [] then buffer + chunk else buffer
    case ReadError => buffer
  }

  /** The reply buffer after the first `n` reads, starting from `buffer`. */
  function Buffered(buffer: seq<char>, events: seq<ReadEvent>, n: nat): seq<char>
    requires n <= |events|
  {
    if n == 0 then buffer else AfterRead(Buffered(buffer, events, n - 1), events[n - 1])
  }

  /** A read appends exactly its chunk; in particular a failed or empty read
      appends nothing. */
  lemma AfterReadAppendsChunk(buffer: seq<char>, e: ReadEvent)
    ensures AfterRead(buffer, e) == buffer + ChunkOf(e)
    ensures e.outcome.ReadError? || ChunkOf(e) == [] ==> AfterRead(buffer, e) == buffer
  {
    if ChunkOf(e) == [] {
      assert buffer + [] == buffer;
    }
  }

  /** No chunk is dropped and none is reordered: the buffer after `n` reads
      is what it held before followed by everything received. */
  lemma {:induction false} BufferedAppendsReceived(buffer: seq<char>, events: seq<ReadEvent>, n: nat)
    requires n <= |events|
    ensures Buffered(buffer, events, n) == buffer + Received(events, n)
  {
    if n > 0 {
      BufferedAppendsReceived(buffer, events, n - 1);
      AfterReadAppendsChunk(Buffered(buffer, events, n - 1), events[n - 1]);
      assert buffer + Received(events, n - 1) + ChunkOf(events[n - 1])
          == buffer + (Received(events, n - 1) + ChunkOf(events[n - 1]));
    }
  }

  /** A newline already buffered stays buffered, whatever the reads bring. */
  lemma NewlineStaysBuffered(buffer: seq<char>, events: seq<ReadEvent>, n: nat)
    requires n <= |events| && '\n' in buffer
    ensures '\n' in Buffered(buffer, events, n)
  {
    BufferedAppendsReceived(buffer, events, n);
    var k :| 0 <= k < |buffer| && buffer[k] == '\n';
    assert (buffer + Received(events, n))[k] == '\n';
  }

  /** The text of the first `m` reads is where the text of the first `n`
      reads starts. */
  lemma {:induction false} ReceivedPrefix(events: seq<ReadEvent>, m: nat, n: nat)
    requires m <= n <= |events|
    ensures |Received(events, m)| <= |Received(events, n)|
    ensures Received(events, n)[..|Received(events, m)|] == Received(events, m)
  {
    if m < n {
      ReceivedPrefix(events, m, n - 1);
      assert Received(events, n) == Received(events, n - 1) + ChunkOf(events[n - 1]);
    }
  }

  /** The chunk of read `j` stands in the received text right after the text
      of the reads before it. */
  lemma {:induction false} ReceivedChunkInPlace(events: seq<ReadEvent>, n: nat, j: nat)
    requires j < n <= |events|
    ensures |Received(events, j)| + |ChunkOf(events[j])| <= |Received(events, n)|
    ensures Received(events, n)[|Received(events, j)|..|Received(events, j)| + |ChunkOf(events[j])|]
            == ChunkOf(events[j])
  {
    var from := |Received(events, j)|;
    var to := from + |ChunkOf(events[j])|;
    if n == j + 1 {
      assert Received(events, n) == Received(events, j) + ChunkOf(events[j]);
    } else {
      ReceivedChunkInPlace(events, n - 1, j);
      SliceOfAppend(Received(events, n - 1), ChunkOf(events[n - 1]), from, to);
    }
  }

  /** Appending leaves every slice of the front part as it was. */
  lemma SliceOfAppend<T>(front: seq<T>, back: seq<T>, from: nat, to: nat)
    requires from <= to <= |front|
    ensures (front + back)[from..to] == front[from..to]
  {
  }

  /** Moving the first `k` elements of `back` to the end of `front` leaves
      their concatenation as it was. */
  lemma Resplit<T>(front: seq<T>, back: seq<T>, k: nat)
    requires k <= |back|
    ensures (front + back[..k]) + back[k..] == front + back
  {
    assert back[..k] + back[k..] == back;
  }

  lemma FrontOfAppend<T>(front: seq<T>, back: seq<T>)
    ensures (front + back)[..|front|] == front
  {
  }

  /** How many of `left` unsent bytes one attempt takes: the count os.write
      reported, or none when it failed. The slice `command_bytes[count:]`
      keeps nothing once the count reaches the length. */
  function Accepted(left: nat, a: WriteAttempt): (n: nat)
    ensures n <= left
    ensures a.outcome.WriteError? ==> n == 0
    ensures a.outcome.Wrote? && a.outcome.count <= left ==> n == a.outcome.count
    ensures a.outcome.Wrote? && left < a.outcome.count ==> n == left
  {
    match a.outcome
    case Wrote(count) => if count <= left then count else left
    case WriteError => 0
  }

  /** How many bytes of a `len`-byte command the first `n` attempts have
      sent, each attempt taking its bytes from what the earlier ones left. */
  function SentCount(len: nat, attempts: seq<WriteAttempt>, n: nat): (sent: nat)
    requires n <= |attempts|
    ensures sent <= len
  {
    if n == 0 then 0
    else
      var before := SentCount(len, attempts, n - 1);
      before + Accepted(len - before, attempts[n - 1])
  }

  /** What the first `n` attempts put on the pipe, piece after piece: each
      attempt writes the bytes of `line` that follow those already sent. */
  function Piped(line: seq<char>, attempts: seq<WriteAttempt>, n: nat): seq<char>
    requires n <= |attempts|
  {
    if n == 0 then []
    else
      var k := SentCount(|line|, attempts, n - 1);
      Piped(line, attempts, n - 1) + line[k..k + Accepted(|line| - k, attempts[n - 1])]
  }

  /** The attempts write `line` front to back with nothing lost, repeated or
      reordered: after `n` attempts the pipe holds the first `SentCount`
      bytes of `line`. */
  lemma {:induction false} PipedIsPrefix(line: seq<char>, attempts: seq<WriteAttempt>, n: nat)
    requires n <= |attempts|
    ensures Piped(line, attempts, n) == line[..SentCount(|line|, attempts, n)]
  {
    if n > 0 {
      PipedIsPrefix(line, attempts, n - 1);
      var k := SentCount(|line|, attempts, n - 1);
      var b := Accepted(|line| - k, attempts[n - 1]);
      assert line[..k] + line[k..k + b] == line[..k + b];
    }
  }

  /** Sending never goes backwards: later attempts only add bytes. */
  lemma {:induction false} SentCountMonotone(len: nat, attempts: seq<WriteAttempt>, m: nat, n: nat)
    requires m <= n <= |attempts|
    ensures SentCount(len, attempts, m) <= SentCount(len, attempts, n)
  {
    if m < n {
      SentCountMonotone(len, attempts, m, n - 1);
    }
  }

  /** A failed write sends nothing. */
  lemma FailedWriteSendsNothing(len: nat, attempts: seq<WriteAttempt>, n: nat)
    requires n < |attempts| && attempts[n].outcome.WriteError?
    ensures SentCount(len, attempts, n + 1) == SentCount(len, attempts, n)
  {
  }
}
