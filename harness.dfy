/**
 * The session a test case holds with one mtr-packet child process: the reply
 * buffer, the reply reader and the command writer. Both retry loops run one
 * iteration per element of an oracle sequence that stands for the clock and
 * the pipe: it supplies the clock reading each iteration takes and what its
 * os.read or os.write returned. The select call of each iteration is recorded
 * as the wait it was given.
 */
module Harness {
  import opened Framing
  import opened Transfer

  datatype ReadResult = Reply(line: seq<char>) | ReadReplyTimeout

  datatype WriteResult = CommandWritten | WriteCommandTimeout

  /** The reply reader leaves its loop at iteration `k` when a newline has been
      buffered by then, or when that iteration's clock reading is past the
      deadline. */
  ghost predicate ReadStopsAt(buffer: seq<char>, start: int, timeout: int, events: seq<ReadEvent>, k: nat)
    requires k < |events|
  {
    NEWLINE in Buffered(buffer, events, k + 1) || timeout <= events[k].now - start
  }

  /** The command writer leaves its loop at iteration `k` when all of
      `line` has been sent by then, or when that iteration's clock reading is
      past the deadline. */
  ghost predicate WriteStopsAt(line: seq<char>, start: int, timeout: int, attempts: seq<WriteAttempt>, k: nat)
    requires k < |attempts|
  {
    SentCount(|line|, attempts, k + 1) == |line| || timeout <= attempts[k].now - start
  }

  /** One test's session with mtr-packet. */
  class MtrPacketTest {
    /** Reply text received from mtr-packet and not yet returned as a line. */
    var replyBuffer: seq<char>

    /** A session starts with nothing buffered. */
    constructor ()
      ensures replyBuffer == []
    {
      replyBuffer := [];
    }

    /** Reads the next reply line. The clock reading taken on entry is `start`;
        iteration `j` of the loop takes the clock reading and read outcome of
        `events[j]`, and the last event is one at which the loop is bound to
        stop. `used` is the number of iterations run and `waits` the waits
        handed to select. */
    method ReadReply(timeout: int, start: int, events: seq<ReadEvent>)
      returns (r: ReadResult, used: nat, waits: seq<int>)
      requires events != [] && ReadStopsAt(replyBuffer, start, timeout, events, |events| - 1)
      modifies this
      ensures 1 <= used <= |events|
      ensures waits == Waits(timeout, start, events, used)
      ensures InTime(timeout, start, events, used - 1)
      ensures 1 < used ==> NEWLINE !in Buffered(old(replyBuffer), events, used - 1)
      ensures r.Reply? <==> NEWLINE in Buffered(old(replyBuffer), events, used)
      ensures r.Reply? ==>
                && NEWLINE !in r.line
                && Buffered(old(replyBuffer), events, used) == Framed(r.line) + replyBuffer
                && TakeLine(Buffered(old(replyBuffer), events, used)) == Line(r.line, replyBuffer)
      ensures r.ReadReplyTimeout? ==>
                && timeout <= events[used - 1].now - start
                && replyBuffer == Buffered(old(replyBuffer), events, used)
    {
      var buffer := replyBuffer;
      ghost var buffer0 := buffer;
      waits := [];
      var i: nat := 0;
      var newlineIx := -1;
      while true
        invariant i < |events|
        invariant waits == Waits(timeout, start, events, i)
        invariant InTime(timeout, start, events, i)
        invariant 0 < i ==> NEWLINE !in buffer
        invariant buffer == Buffered(buffer0, events, i)
        decreases |events| - i
      {
        var e := events[i];
        var elapsed := e.now - start;
        var selectTime := SelectTime(timeout, elapsed);
        waits := waits + [selectTime];
        buffer := AfterRead(buffer, e);
        newlineIx := FindNewline(buffer);
        if newlineIx != -1 {
          used := i + 1;
          assert used - 1 == i;
          assert buffer == Buffered(buffer0, events, used);
          break;
        }
        if elapsed >= timeout {
          used := i + 1;
          assert used - 1 == i;
          assert buffer == Buffered(buffer0, events, used);
          replyBuffer := buffer;
          r := ReadReplyTimeout;
          return;
        }
        i := i + 1;
      }
      var reply := buffer[..newlineIx];
      TakeLineAt(buffer, newlineIx);
      replyBuffer := buffer[newlineIx + 1..];
      r := Reply(reply);
    }

    /** Sends `cmd` followed by a newline. The clock reading taken on entry is
        `start`; iteration `j` of the loop takes the clock reading and write
        outcome of `attempts[j]`, and the last attempt is one at which the loop
        is bound to stop. `sent` is what reached the pipe, `used` the number of
        iterations run and `waits` the waits handed to select. */
    method WriteCommand(cmd: seq<char>, timeout: int, start: int, attempts: seq<WriteAttempt>)
      returns (r: WriteResult, sent: seq<char>, used: nat, waits: seq<int>)
      requires attempts != [] && WriteStopsAt(Framed(cmd), start, timeout, attempts, |attempts| - 1)
      ensures 1 <= used <= |attempts|
      ensures waits == Waits(timeout, start, attempts, used)
      ensures InTime(timeout, start, attempts, used - 1)
      ensures 1 < used ==> SentCount(|Framed(cmd)|, attempts, used - 1) < |Framed(cmd)|
      ensures sent == Framed(cmd)[..SentCount(|Framed(cmd)|, attempts, used)]
      ensures r.CommandWritten? <==> sent == Framed(cmd)
      ensures r.WriteCommandTimeout? ==> timeout <= attempts[used - 1].now - start
    {
      var commandBytes := Framed(cmd);
      ghost var line := commandBytes;
      sent := [];
      waits := [];
      var i: nat := 0;
      while true
        invariant i < |attempts|
        invariant waits == Waits(timeout, start, attempts, i)
        invariant InTime(timeout, start, attempts, i)
        invariant sent + commandBytes == line
        invariant |sent| == SentCount(|line|, attempts, i)
        invariant 0 < i ==> commandBytes != []
        decreases |attempts| - i
      {
        var a := attempts[i];
        var elapsed := a.now - start;
        var selectTime := SelectTime(timeout, elapsed);
        waits := waits + [selectTime];
        var bytesWritten := Accepted(|commandBytes|, a);
        Resplit(sent, commandBytes, bytesWritten);
        sent := sent + commandBytes[..bytesWritten];
        commandBytes := commandBytes[bytesWritten..];
        assert |sent| == SentCount(|line|, attempts, i + 1);
        if |commandBytes| == 0 {
          r := CommandWritten;
          break;
        }
        if elapsed >= timeout {
          r := WriteCommandTimeout;
          break;
        }
        i := i + 1;
      }
      used := i + 1;
      assert used - 1 == i;
      assert |sent| == SentCount(|line|, attempts, used);
      FrontOfAppend(sent, commandBytes);
    }
  }
}
