/**
 The request loop of native/macos/AXHelper.swift: reads of any size, one byte at a time, one
 answer per line. An oversized line is answered with an error and the loop goes on after it.
 */
module HelperLines {
  import opened Bytes
  import opened BoundedLines

  const MAX_INPUT := 64 * 1024

  /** A line handed to the helper, or the error for one that is too large. */
  datatype Request = Process(line: seq<byte>) | TooLarge

  function Answer(line: seq<byte>): Request {
    if |line| > MAX_INPUT then TooLarge else Process(line)
  }

  /** The answers to a whole input: one per line, and one for an unfinished line at the end. */
  function Answers(input: seq<byte>): seq<Request> {
    if input == [] then []
    else
      var b := Boundary(input);
      [Answer(input[..b])] + if b == |input| then [] else Answers(input[b + 1..])
  }

  /** The loop's two variables, as the unfinished line stands for them. */
  ghost predicate Holds(current: seq<byte>, line: seq<byte>, discarding: bool) {
    && NEWLINE !in current
    && discarding == (|current| > MAX_INPUT)
    && line == if discarding then [] else current
  }

  lemma NoBoundary(line: seq<byte>)
    requires NEWLINE !in line
    ensures Boundary(line) == |line|
  {
  }

  lemma LineAnswered(current: seq<byte>, rest: seq<byte>)
    requires NEWLINE !in current
    ensures Answers((current + [NEWLINE]) + rest) == [Answer(current)] + Answers(rest)
  {
    var input := (current + [NEWLINE]) + rest;
    NoBoundary(current);
    BoundaryConcat(current, [NEWLINE] + rest);
    assert input == current + ([NEWLINE] + rest);
    assert input[..|current|] == current && input[|current| + 1..] == rest;
  }

  lemma LastAnswered(current: seq<byte>)
    requires NEWLINE !in current
    ensures Answers(current) == if current == [] then [] else [Answer(current)]
  {
    NoBoundary(current);
    assert current[..|current|] == current;
  }

  /** `chunks` are the reads before the end of the input; `peak` is the longest line ever held. */
  method RunLines(chunks: seq<seq<byte>>) returns (answered: seq<Request>, ghost peak: nat)
    ensures answered == Answers(Concat(chunks))
    ensures peak <= MAX_INPUT
  {
    hide Answers, Boundary;
    var line: seq<byte> := [];
    var discarding := false;
    answered, peak := [], 0;
    ghost var current: seq<byte> := [];
    assert chunks[0..] == chunks && [] + Concat(chunks) == Concat(chunks)
           && [] + Answers(Concat(chunks)) == Answers(Concat(chunks));
    for k := 0 to |chunks|
      invariant Holds(current, line, discarding) && |line| <= MAX_INPUT && peak <= MAX_INPUT
      invariant answered + Answers(current + Concat(chunks[k..])) == Answers(Concat(chunks))
    {
      var chunk := chunks[k];
      ghost var later := Concat(chunks[k + 1..]);
      assert chunks[k..][0] == chunk && chunks[k..][1..] == chunks[k + 1..];
      assert chunk[0..] == chunk;
      for i := 0 to |chunk|
        invariant Holds(current, line, discarding) && |line| <= MAX_INPUT && peak <= MAX_INPUT
        invariant answered + Answers(current + (chunk[i..] + later)) == Answers(Concat(chunks))
      {
        ghost var rest := chunk[i + 1..] + later;
        assert chunk[i..] + later == [chunk[i]] + rest;
        assert current + ([chunk[i]] + rest) == (current + [chunk[i]]) + rest;
        if chunk[i] == NEWLINE {
          LineAnswered(current, rest);
          assert [] + rest == rest;
          answered := answered + [if discarding then TooLarge else Process(line)];
          discarding, line, current := false, [], [];
        } else {
          current := current + [chunk[i]];
          if !discarding {
            if |line| >= MAX_INPUT { discarding, line := true, []; } else { line := line + [chunk[i]]; }
          }
          if |line| > peak { peak := |line|; }
        }
      }
      assert chunk[|chunk|..] + later == later;
    }
    assert chunks[|chunks|..] == [] && current + [] == current;
    LastAnswered(current);
    if discarding {
      answered := answered + [TooLarge];
    } else if line != [] {
      answered := answered + [Process(line)];
    }
  }

  /** Lines written out with their newlines are answered one for one, oversized ones included, wherever they stand. */
  lemma {:induction false} OneAnswerPerLine(lines: seq<seq<byte>>)
    requires forall l <- lines :: NEWLINE !in l
    ensures |Answers(Join(lines))| == |lines|
    ensures forall k :: 0 <= k < |lines| ==>
              Answers(Join(lines))[k] == if |lines[k]| <= 65536 then Process(lines[k]) else TooLarge
  {
    if lines != [] {
      var l, rest := lines[0], lines[1..];
      OneAnswerPerLine(rest);
      LineAnswered(l, Join(rest));
      assert Join(lines) == (l + [NEWLINE]) + Join(rest);
    }
  }
}
