# mtr-packet test harness: pipe protocol model

The mtr test suite talks to an `mtr-packet` child process over two pipes:
each command is one line written to the child's stdin, and each reply is one
line read from its stdout. `MtrPacketTest` in `test/mtrpacket.py` holds the
session. It keeps a reply buffer, and it runs two timeout-bounded retry loops:

- `read_reply` waits in `select`, reads a chunk, appends it to the buffer, and
  returns the text before the first newline. The buffer keeps everything
  after that newline, so pipelined replies survive to the next call.
- `write_command` appends a newline to the command and retries partial writes,
  keeping only the unwritten suffix each time.

Both loops hand `select` what is left of the time budget, clamped at zero. Both
check the deadline only after an attempt.

This project models those two loops and proves what they promise:

- `framing.dfy` (module `Framing`) covers line framing: finding the first
  newline, splitting a buffer into a line and the rest, and draining
  pipelined lines.
- `transfer.dfy` (module `Transfer`) covers what one loop iteration observes
  and the bookkeeping over such iterations:
  - the clamped `select` wait;
  - the reply buffer after the first `n` reads, with the text those reads
    deliver;
  - how many bytes of a command the first `n` partial writes have sent.
- `harness.dfy` (module `Harness`) holds the class `MtrPacketTest`. Its
  `replyBuffer` field is the buffer. `ReadReply` and `WriteCommand` are the two
  loops, written as `while true` loops with the source's branches.
- `scenarios.dfy` (module `Scenarios`) states and proves the outcome of whole
  conversations over fixed pipes and clocks:
  - echoing `ping` through partial writes and split reads;
  - two pipelined commands answered in order;
  - a silent child;
  - a line that arrives after the deadline;
  - a child that never drains its input.

The pipe and the clock are oracles. Each loop iteration takes one element of a
sequence passed in by the caller. The element carries the clock reading taken
at the top of the iteration, and what `os.read` or `os.write` returned: data,
a byte count, or an `OSError`. The reading taken on entry (`start_time`) is
the `start` parameter. Each method also returns:

- `waits`: the select wait of every iteration;
- `used`: the number of iterations run;
- for `WriteCommand`, `sent`: what reached the pipe.

The source's `while True` loops end only when the pipe or the clock lets them.
So each method requires that the last oracle element is one at which its loop
is bound to stop: `ReadStopsAt` and `WriteStopsAt`. Termination is proved only
under that assumption.

A command is meant to hold no newline. The code does not check this, so the
model follows the code: `WriteCommand` sends `cmd` plus a
newline whatever `cmd` holds. The echo round trip is then proved for
newline-free commands only (`Framing.TakeLineOfFramed`).

Two behaviours of the code show up in the contracts:

- A reply that is already buffered still costs one `select` wait, up to the
  whole timeout, before it is returned (`Scenarios.ReadBuffered`).
- Both deadlines are floors: a timeout is reported only after one more attempt
  at or past the deadline (`InTime` covers every iteration before the last).

## Model

| member | source | states |
|---|---|---|
| `Framing.FindNewline` | test/mtrpacket.py:132 | The index is -1 exactly when the buffer holds no newline. Otherwise it points at a newline with none before it. |
| `Framing.TakeLine` | test/mtrpacket.py:132-140 | `NoLine` exactly when there is no newline. Otherwise the returned line holds no newline, and the buffer is that line, a newline and the kept rest. |
| `Framing.FindNewlineOfFramed` | test/mtrpacket.py:132 | In a newline-free line followed by its newline, the first newline sits at the line's length, whatever follows. |
| `Framing.TakeLineOfFramed` | test/mtrpacket.py:139-140 | A newline-free line sent with its newline is read back exactly, and whatever followed stays buffered. This is the echo round trip. |
| `Framing.TakeLineExtend` | test/mtrpacket.py:132-140 | Data arriving after a complete line does not change which line is returned. It only lengthens what is kept. |
| `Framing.TakeLines` | test/mtrpacket.py:139-140 | Successive line reads take at most `n` newline-free lines. The lines, each with its newline, followed by the rest, rebuild the buffer. Fewer lines than asked means no newline is left. |
| `Framing.TakeLinesOfFramedAll` | test/mtrpacket.py:139-140 | Pipelining: lines sent back to back are returned one per read, in the order sent, with the trailing bytes kept. |
| `Transfer.SelectTime` | test/mtrpacket.py:114-116 | The select wait is `max(0, timeout - elapsed)`. It is never negative, and it is at most `timeout` when elapsed and timeout are non-negative. |
| `Transfer.Waits` | test/mtrpacket.py:110-118 | One select wait per iteration run. |
| `Transfer.WaitsAt` | test/mtrpacket.py:110-118 | The wait of iteration `j` is the clamped remainder of the budget at that iteration's clock reading. |
| `Transfer.AfterReadAppendsChunk` | test/mtrpacket.py:120-128 | One read appends exactly its chunk. A failed or empty read leaves the buffer unchanged. |
| `Transfer.BufferedAppendsReceived` | test/mtrpacket.py:120-128 | After `n` reads the buffer is its old content followed by every chunk received, in order. None is dropped. |
| `Transfer.NewlineStaysBuffered` | test/mtrpacket.py:120-134 | A newline already in the buffer stays in it whatever the reads bring, so the loop stops at the first newline check. |
| `Transfer.ReceivedPrefix` | test/mtrpacket.py:120-128 | The text of the first `m` reads is a prefix of the text of the first `n` reads when `m <= n`. |
| `Transfer.ReceivedChunkInPlace` | test/mtrpacket.py:120-128 | The chunk of read `j` stands in the received text right after the text of the reads before it. |
| `Transfer.Accepted` | test/mtrpacket.py:167-173 | One attempt takes at most what is left. An `OSError` takes nothing. A reported count within what is left is taken exactly, and a larger one takes all of it, as the slice clamps. |
| `Transfer.SentCount` | test/mtrpacket.py:167-173 | The attempts never send more than the command's length in total. |
| `Transfer.PipedIsPrefix` | test/mtrpacket.py:167-173 | The pieces the attempts write, each taken from where the earlier ones stopped, add up on the pipe to exactly the first `SentCount` bytes of the line. Nothing is lost, repeated or reordered. |
| `Transfer.SentCountMonotone` | test/mtrpacket.py:167-173 | Later attempts never reduce what has been sent. |
| `Transfer.FailedWriteSendsNothing` | test/mtrpacket.py:167-173 | A failed write counts as zero bytes, and the remainder stays as it was. |
| `Harness.MtrPacketTest.constructor` | test/mtrpacket.py:72 | A session starts with an empty reply buffer. |
| `Harness.MtrPacketTest.ReadReply` | test/mtrpacket.py:98-141 | Every iteration's select wait is the clamped remainder, and every iteration before the last was short of the deadline. The loop stops at the first iteration whose buffer holds a newline. A reply is returned exactly when the buffer after the reads holds a newline, at any elapsed time. The reply holds no newline, and the buffer equals the reply, `'\n'` and the new buffer. A timeout means no newline was buffered and `elapsed >= timeout`, and the buffer keeps every chunk read. |
| `Harness.MtrPacketTest.WriteCommand` | test/mtrpacket.py:143-178 | Every iteration's select wait is the clamped remainder, and every iteration before the last was short of the deadline. What reached the pipe is the prefix of `cmd + '\n'` as long as the bytes sent. The loop stops at the first attempt that completes the line. It returns normally exactly when all of `cmd + '\n'` was sent. A timeout means bytes remain and `elapsed >= timeout`. |
| `Scenarios.SendPing` | test/mtrpacket.py:143-178 | `ping` is sent over two partial writes around a failed one. The pipe gets exactly `"ping\n"`, and the waits are 10, 9 and 8. |
| `Scenarios.ReadPing` | test/mtrpacket.py:98-141 | An echo split across reads, with a failed read between them, is returned as `"ping"`, and nothing stays buffered. |
| `Scenarios.EchoConversation` | test/mtrpacket.py:98-178 | On a fresh session, writing `ping` and then reading returns `"ping"`. |
| `Scenarios.SendTwo` | test/mtrpacket.py:143-178 | Two commands written back to back put exactly `"a\nb\n"` on the pipe. |
| `Scenarios.ReadFirstOfTwo` | test/mtrpacket.py:98-141 | When both echoes arrive in one chunk, the first read returns `"a"` and keeps `"b\n"` buffered. |
| `Scenarios.ReadBuffered` | test/mtrpacket.py:98-141 | A reply already buffered is returned although the read fails, after one full wait. |
| `Scenarios.ReadTwo` | test/mtrpacket.py:98-141 | Two pipelined echoes are returned by two reads in the order sent, and nothing stays buffered. |
| `Scenarios.SilentChild` | test/mtrpacket.py:98-141 | With nothing arriving, the waits shrink to 5, 3 and 0, the read times out, and a partial buffer is kept. |
| `Scenarios.LateLine` | test/mtrpacket.py:132-137 | A line that arrives after the deadline is still returned. |
| `Scenarios.StuckChild` | test/mtrpacket.py:143-178 | A child that never drains its input gets no byte, and the write times out after waits of 10, 6 and 0. |

## Left out

- Process spawn, pipe redirection, closing and `kill` in `setUp`/`tearDown` (test/mtrpacket.py:67-96), and `__init__` (60-65). These are operating-system process management. Only the buffer reset at line 72 is modelled, by the constructor.
- `set_nonblocking` (42-48): a `fcntl` system call wrapper with no logic.
- `select.select`, `os.read` and `os.write` (118, 123, 169). Their results come from the oracle sequences. Readiness, blocking and the concurrency with the child are not modelled. `select` is represented only by the wait it is given.
- The 1024-byte read size (123) is not a bound on the model's chunks. The oracle may deliver a chunk of any length.
- `time.time()` floats. Clock readings are integer ticks, and the clock is not assumed to be monotone.
- UTF-8 decoding of replies (128) and encoding of commands (153). Chunks are already-decoded characters, and the command is counted in characters. The decode error when a multibyte character is split across chunks is not modelled.
- `check_running_as_root` (181-187) and the `unittest` plumbing: environment checks and framework glue. The two exception classes (30-39) are the `ReadReplyTimeout` and `WriteCommandTimeout` result variants.
- Termination of the retry loops from the source alone. Each method requires that the oracle's last element is one at which its loop must stop.
- `Harness.MtrPacketTest.ReadReply` appends chunks to a local copy of `reply_buffer` and stores the copy in the field when it returns or times out. Nothing else can observe the field during the call, so only the states at those exits are modelled.
