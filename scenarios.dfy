/**
 * The proved outcomes of whole conversations with a child process, each
 * over a fixed pipe and clock: an echo child answering "ping" through partial writes and split
 * reads, two pipelined commands answered in order, a silent child that lets
 * the read time out, and a child that never drains its input.
 */
module Scenarios {
  import opened Framing
  import opened Transfer
  import opened Harness

  /** "ping" goes out in two partial writes around a failed one; each wait
      is what is left of the ten-tick budget. */
  method SendPing(test: MtrPacketTest) returns (written: WriteResult, sent: seq<char>, waits: seq<int>)
    ensures written == CommandWritten && sent == "ping\n"
    ensures waits == [10, 9, 8]
  {
    var attempts := [Tick(0, Wrote(2)), Tick(1, WriteError), Tick(2, Wrote(3))];
    assert Framed("ping") == "ping\n";
    assert SentCount(5, attempts, 1) == 2;
    assert SentCount(5, attempts, 2) == 2;
    assert SentCount(5, attempts, 3) == 5;
    var used: nat;
    written, sent, used, waits := test.WriteCommand("ping", DEFAULT_TIMEOUT, 0, attempts);
    assert used == 3;
  }

  /** The echo comes back split over two reads around a failed one, and
      "ping" is returned with nothing left buffered. */
  method ReadPing(test: MtrPacketTest) returns (reply: ReadResult)
    requires test.replyBuffer == []
    modifies test
    ensures reply == Reply("ping") && test.replyBuffer == []
  {
    var events := [Tick(3, Data("pi")), Tick(4, ReadError), Tick(5, Data("ng\n"))];
    assert Buffered([], events, 1) == "pi";
    assert Buffered([], events, 2) == "pi";
    assert Buffered([], events, 3) == "ping\n";
    assert NEWLINE !in "pi";
    var used: nat;
    var waits: seq<int>;
    reply, used, waits := test.ReadReply(DEFAULT_TIMEOUT, 3, events);
    assert used == 3;
    assert Framed("ping") + [] == "ping\n";
    TakeLineOfFramed("ping", []);
  }

  /** The echo conversation end to end on a fresh session. */
  method EchoConversation() returns (written: WriteResult, reply: ReadResult)
    ensures written == CommandWritten && reply == Reply("ping")
  {
    var test := new MtrPacketTest();
    var sent: seq<char>;
    var waits: seq<int>;
    written, sent, waits := SendPing(test);
    reply := ReadPing(test);
  }

  /** Two commands are sent back to back before any reply is read. */
  method SendTwo(test: MtrPacketTest) returns (sentA: seq<char>, sentB: seq<char>)
    ensures sentA + sentB == "a\nb\n"
  {
    assert Framed("a") == "a\n" && Framed("b") == "b\n";
    var attemptsA := [Tick(0, Wrote(2))];
    var attemptsB := [Tick(1, Wrote(2))];
    assert SentCount(2, attemptsA, 1) == 2 && SentCount(2, attemptsB, 1) == 2;
    var written: WriteResult;
    var used: nat;
    var waits: seq<int>;
    written, sentA, used, waits := test.WriteCommand("a", DEFAULT_TIMEOUT, 0, attemptsA);
    written, sentB, used, waits := test.WriteCommand("b", DEFAULT_TIMEOUT, 1, attemptsB);
  }

  /** Both echoes arrive in one chunk: the first read returns "a" and keeps
      "b" buffered. */
  method ReadFirstOfTwo(test: MtrPacketTest) returns (reply: ReadResult)
    requires test.replyBuffer == []
    modifies test
    ensures reply == Reply("a") && test.replyBuffer == "b\n"
  {
    var chunk := [Tick(2, Data("a\nb\n"))];
    assert Buffered([], chunk, 1) == "a\nb\n";
    assert "a\nb\n" == Framed("a") + "b\n";
    TakeLineOfFramed("a", "b\n");
    var used: nat;
    var waits: seq<int>;
    reply, used, waits := test.ReadReply(DEFAULT_TIMEOUT, 2, chunk);
  }

  /** A reply already buffered is returned although the read fails, after one
      full wait. */
  method ReadBuffered(test: MtrPacketTest) returns (reply: ReadResult, waits: seq<int>)
    requires test.replyBuffer == "b\n"
    modifies test
    ensures reply == Reply("b") && test.replyBuffer == []
    ensures waits == [DEFAULT_TIMEOUT]
  {
    var idle := [Tick(3, ReadError)];
    assert Buffered("b\n", idle, 1) == "b\n";
    assert "b\n" == Framed("b") + [];
    TakeLineOfFramed("b", []);
    var used: nat;
    reply, used, waits := test.ReadReply(DEFAULT_TIMEOUT, 3, idle);
  }

  /** The two pipelined echoes are returned in the order sent. */
  method ReadTwo(test: MtrPacketTest) returns (first: ReadResult, second: ReadResult, waits: seq<int>)
    requires test.replyBuffer == []
    modifies test
    ensures first == Reply("a") && second == Reply("b") && test.replyBuffer == []
    ensures waits == [DEFAULT_TIMEOUT]
  {
    first := ReadFirstOfTwo(test);
    second, waits := ReadBuffered(test);
  }

  /** A silent child: nothing arrives in five ticks, the waits shrink to
      zero, and the read times out leaving a partial reply buffered. */
  method SilentChild(test: MtrPacketTest) returns (reply: ReadResult, waits: seq<int>)
    requires NEWLINE !in test.replyBuffer
    modifies test
    ensures reply == ReadReplyTimeout
    ensures waits == [5, 3, 0]
    ensures test.replyBuffer == old(test.replyBuffer)
  {
    var events := [Tick(0, ReadError), Tick(2, Data([])), Tick(5, ReadError)];
    ghost var buffer := test.replyBuffer;
    assert Buffered(buffer, events, 1) == buffer;
    assert Buffered(buffer, events, 2) == buffer;
    assert Buffered(buffer, events, 3) == buffer;
    var used: nat;
    reply, used, waits := test.ReadReply(5, 0, events);
    assert used == 3;
  }

  /** A line that arrives after the deadline is still returned. */
  method LateLine(test: MtrPacketTest) returns (reply: ReadResult)
    requires test.replyBuffer == []
    modifies test
    ensures reply == Reply("ok") && test.replyBuffer == []
  {
    var events := [Tick(7, Data("ok\n"))];
    assert Buffered([], events, 1) == "ok\n";
    assert "ok\n" == Framed("ok") + [];
    TakeLineOfFramed("ok", []);
    var used: nat;
    var waits: seq<int>;
    reply, used, waits := test.ReadReply(5, 0, events);
  }

  /** A child that never drains its input: no byte is taken, and the write
      times out once the budget is spent. */
  method StuckChild(test: MtrPacketTest) returns (written: WriteResult, sent: seq<char>, waits: seq<int>)
    ensures written == WriteCommandTimeout && sent == []
    ensures waits == [10, 6, 0]
  {
    var attempts := [Tick(0, Wrote(0)), Tick(4, WriteError), Tick(10, Wrote(0))];
    assert Framed("ping") == "ping\n";
    assert SentCount(5, attempts, 1) == 0;
    assert SentCount(5, attempts, 2) == 0;
    assert SentCount(5, attempts, 3) == 0;
    var used: nat;
    written, sent, used, waits := test.WriteCommand("ping", DEFAULT_TIMEOUT, 0, attempts);
    assert used == 3;
  }
}
