/**
 * Line framing on the pipes to and from mtr-packet: every message in either
 * direction is a line of text ended by a newline character. The reply reader
 * finds the first newline in its accumulated buffer, returns the text before it
 * and keeps the text after it; the command writer appends a newline to each
 * command.
 */
module Framing {

  const NEWLINE: char := '\n'

  /** The position of the first newline in `s`, or -1 when `s` holds none
      (Python's `str.find('\n')`). */
  function FindNewline(s: seq<char>): (ix: int)
    ensures -1 <= ix < |s|
    ensures ix == -1 <==> NEWLINE !in s
    ensures 0 <= ix ==> s[ix] == NEWLINE && NEWLINE !in s[..ix]
  {
    if s == [] then -1
    else if s[0] == NEWLINE then 0
    else
      var tail := FindNewline(s[1..]);
      if tail == -1 then -1
      else
        assert s[..tail + 1] == [s[0]] + s[1..][..tail];
        tail + 1
  }

  /** A line as it travels on a pipe: its text followed by the newline. */
  function Framed(line: seq<char>): seq<char>
  {
    line + [NEWLINE]
  }

  /** Several lines sent one after another. */
  function FramedAll(lines: seq<seq<char>>): seq<char>
  {
    if lines == [] then [] else Framed(lines[0]) + FramedAll(lines[1..])
  }

  ghost predicate NoNewlines(lines: seq<seq<char>>)
  {
    forall i :: 0 <= i < |lines| ==> NEWLINE !in lines[i]
  }

  /** The outcome of looking for one complete line in a buffer. */
  datatype Split = NoLine | Line(line: seq<char>, rest: seq<char>)

  /** Splits `buffer` at its first newline: the line before it and
      everything after it, or NoLine when the buffer holds no newline. */
  function TakeLine(buffer: seq<char>): (r: Split)
    ensures r.NoLine? <==> NEWLINE !in buffer
    ensures r.Line? ==> NEWLINE !in r.line && buffer == Framed(r.line) + r.rest
  {
    var ix := FindNewline(buffer);
    if ix == -1 then NoLine
    else
      assert buffer == buffer[..ix] + [NEWLINE] + buffer[ix + 1..];
      Line(buffer[..ix], buffer[ix + 1..])
  }

  /** Splitting at the position FindNewline reports is what TakeLine does. */
  lemma TakeLineAt(buffer: seq<char>, ix: int)
    requires ix == FindNewline(buffer) && ix != -1
    ensures TakeLine(buffer) == Line(buffer[..ix], buffer[ix + 1..])
  {
  }

  lemma {:induction false} FindNewlineOfFramed(line: seq<char>, rest: seq<char>)
    requires NEWLINE !in line
    ensures FindNewline(Framed(line) + rest) == |line|
  {
    if line != [] {
      assert (Framed(line) + rest)[1..] == Framed(line[1..]) + rest;
      FindNewlineOfFramed(line[1..], rest);
    }
  }

  /** The split is the only one possible: a newline-free line followed by its
      newline is taken back exactly, whatever follows it. */
  lemma TakeLineOfFramed(line: seq<char>, rest: seq<char>)
    requires NEWLINE !in line
    ensures TakeLine(Framed(line) + rest) == Line(line, rest)
  {
    var buffer := Framed(line) + rest;
    FindNewlineOfFramed(line, rest);
    assert buffer[..|line|] == line;
    assert buffer[|line| + 1..] == rest;
  }

  /** Data arriving after a complete line never changes which line is taken
      next: it only lengthens what is kept. */
  lemma TakeLineExtend(buffer: seq<char>, more: seq<char>)
    requires TakeLine(buffer).Line?
    ensures TakeLine(buffer + more) == Line(TakeLine(buffer).line, TakeLine(buffer).rest + more)
  {
    var s := TakeLine(buffer);
    assert buffer + more == Framed(s.line) + (s.rest + more);
    TakeLineOfFramed(s.line, s.rest + more);
  }

  /** What `n` successive line reads take from `buffer` when no data arrives
      in between: up to `n` lines, and the part of the buffer left over. */
  datatype Drained = Drained(lines: seq<seq<char>>, rest: seq<char>)

  function TakeLines(buffer: seq<char>, n: nat): (r: Drained)
    ensures |r.lines| <= n
    ensures NoNewlines(r.lines)
    ensures FramedAll(r.lines) + r.rest == buffer
    ensures |r.lines| < n ==> NEWLINE !in r.rest
  {
    if n == 0 then Drained([], buffer)
    else
      match TakeLine(buffer)
      case NoLine => Drained([], buffer)
      case Line(line, rest) =>
        var d := TakeLines(rest, n - 1);
        ConsLine(line, d.lines, d.rest);
        Drained([line] + d.lines, d.rest)
  }

  /** Putting one more newline-free line in front of newline-free lines. */
  lemma ConsLine(line: seq<char>, lines: seq<seq<char>>, tail: seq<char>)
    requires NEWLINE !in line && NoNewlines(lines)
    ensures NoNewlines([line] + lines)
    ensures FramedAll([line] + lines) + tail == Framed(line) + (FramedAll(lines) + tail)
  {
    var all := [line] + lines;
    assert all[0] == line && all[1..] == lines;
    assert forall i :: 1 <= i < |all| ==> all[i] == lines[i - 1];
    assert FramedAll(all) == Framed(line) + FramedAll(lines);
  }

  /** Pipelining: lines sent one after another are read back one per read, in
      the order they were sent, and the bytes after them stay buffered. */
  lemma {:induction false} TakeLinesOfFramedAll(lines: seq<seq<char>>, tail: seq<char>)
    requires NoNewlines(lines)
    ensures TakeLines(FramedAll(lines) + tail, |lines|) == Drained(lines, tail)
  {
    if lines != [] {
      var line, more := lines[0], lines[1..];
      assert [line] + more == lines;
      var rest := FramedAll(more) + tail;
      assert NoNewlines(more) by {
        assert forall i :: 0 <= i < |more| ==> more[i] == lines[i + 1];
      }
      ConsLine(line, more, tail);
      TakeLineOfFramed(line, rest);
      TakeLinesOfFramedAll(more, tail);
    }
  }
}
