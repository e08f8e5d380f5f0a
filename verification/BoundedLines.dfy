/**
 The newline framer of src/anywhere_computer/bounded_mcp_stdio.py, fed by chunks that a stream
 cuts wherever it likes.
 */
module BoundedLines {
  import opened Bytes

  const NEWLINE: byte := 10

  /** The limit that the program frames with, and the longest chunk that it asks for. */
  const FRAME_LIMIT := 8 * 1024 * 1024
  const CHUNK := 16384

  datatype Outcome = CleanEnd | InsideFrame | OverLimit | EmptyChunk
  datatype Framing = Framing(frames: seq<seq<byte>>, outcome: Outcome)

  /** The index of the first newline, or the length where there is none. */
  function Boundary(bytes: seq<byte>): (b: nat)
    ensures b <= |bytes|
    ensures forall k :: 0 <= k < b ==> bytes[k] != NEWLINE
    ensures b < |bytes| ==> bytes[b] == NEWLINE
  {
    if bytes == [] || bytes[0] == NEWLINE then 0 else 1 + Boundary(bytes[1..])
  }

  function Concat(chunks: seq<seq<byte>>): seq<byte> {
    if chunks == [] then [] else chunks[0] + Concat(chunks[1..])
  }

  function Prepend(frames: seq<seq<byte>>, later: Framing): Framing {
    Framing(frames + later.frames, later.outcome)
  }

  /** A whole stream split on newlines, up to the first overlong line. */
  function Split(bytes: seq<byte>, limit: nat): Framing {
    var b := Boundary(bytes);
    if b > limit then Framing([], OverLimit)
    else if b == |bytes| then Framing([], if bytes == [] then CleanEnd else InsideFrame)
    else Prepend([bytes[..b]], Split(bytes[b + 1..], limit))
  }

  /** The chunks before the first empty one. */
  function BeforeEmpty(chunks: seq<seq<byte>>): (before: seq<seq<byte>>)
    ensures before <= chunks && (forall c <- before :: c != [])
    ensures |before| < |chunks| ==> chunks[|before|] == []
  {
    if chunks == [] || chunks[0] == [] then []
    else
      var rest := BeforeEmpty(chunks[1..]);
      assert forall c <- [chunks[0]] + rest :: c == chunks[0] || c in rest;
      [chunks[0]] + rest
  }

  /** What the framer makes of a stream: an empty chunk ends it, if no overlong line did before. */
  function Expected(chunks: seq<seq<byte>>, limit: nat): Framing {
    var s := Split(Concat(BeforeEmpty(chunks)), limit);
    if BeforeEmpty(chunks) == chunks || s.outcome == OverLimit then s else Framing(s.frames, EmptyChunk)
  }

  function Longest(chunks: seq<seq<byte>>): (n: nat)
    ensures forall k :: 0 <= k < |chunks| ==> |chunks[k]| <= n
    ensures chunks != [] ==> exists k :: 0 <= k < |chunks| && |chunks[k]| == n
  {
    if chunks == [] then 0
    else
      var rest := Longest(chunks[1..]);
      if |chunks[0]| >= rest then |chunks[0]|
      else
        assert exists k :: 0 <= k < |chunks[1..]| && |chunks[1..][k]| == rest;
        assert forall k :: 0 <= k < |chunks[1..]| ==> chunks[1..][k] == chunks[k + 1];
        rest
  }

  lemma AtEmpty(chunks: seq<seq<byte>>, k: nat)
    requires k <= |BeforeEmpty(chunks)| && k < |chunks| && chunks[k] == []
    ensures k == |BeforeEmpty(chunks)|
  {
    var before := BeforeEmpty(chunks);
    assert forall i :: 0 <= i < |before| ==> before[i] in before && before[i] == chunks[i];
  }

  lemma {:induction false} BoundaryConcat(a: seq<byte>, b: seq<byte>)
    ensures Boundary(a + b) == if Boundary(a) < |a| then Boundary(a) else |a| + Boundary(b)
  {
    if a == [] {
      assert a + b == b;
    } else if a[0] != NEWLINE {
      BoundaryConcat(a[1..], b);
      assert (a + b)[1..] == a[1..] + b;
    }
  }

  /** The first line of a buffer that has one, whatever follows. */
  lemma SplitAtBoundary(buffer: seq<byte>, rest: seq<byte>, limit: nat)
    requires Boundary(buffer) < |buffer|
    ensures var b := Boundary(buffer);
            Split(buffer + rest, limit)
            == if b > limit then Framing([], OverLimit)
               else Prepend([buffer[..b]], Split(buffer[b + 1..] + rest, limit))
  {
    BoundaryConcat(buffer, rest);
    var b := Boundary(buffer);
    assert (buffer + rest)[..b] == buffer[..b] && (buffer + rest)[b + 1..] == buffer[b + 1..] + rest;
  }

  lemma SplitOverlong(buffer: seq<byte>, rest: seq<byte>, limit: nat)
    requires Boundary(buffer) == |buffer| > limit
    ensures Split(buffer + rest, limit) == Framing([], OverLimit)
  {
    BoundaryConcat(buffer, rest);
  }

  lemma SplitPart(buffer: seq<byte>, limit: nat)
    requires Boundary(buffer) == |buffer| <= limit
    ensures Split(buffer, limit) == Framing([], if buffer == [] then CleanEnd else InsideFrame)
  {
  }

  /** `peak` is the longest the buffer ever gets. */
  method BoundedFrames(chunks: seq<seq<byte>>, limit: nat) returns (r: Framing, ghost peak: nat)
    ensures r == Expected(chunks, limit)
    ensures peak <= limit + Longest(chunks)
  {
    hide Split, BeforeEmpty, Longest, Boundary;
    var buffer: seq<byte> := [];
    var frames: seq<seq<byte>> := [];
    peak := 0;
    ghost var whole := BeforeEmpty(chunks);
    assert [] + Concat(whole[0..]) == Concat(whole)
           && Prepend([], Split(Concat(whole), limit)) == Split(Concat(whole), limit);
    for k := 0 to |chunks|
      invariant k <= |whole|
      invariant |buffer| <= limit && Boundary(buffer) == |buffer|
      invariant Split(Concat(whole), limit) == Prepend(frames, Split(buffer + Concat(whole[k..]), limit))
      invariant peak <= limit + Longest(chunks)
    {
      var chunk := chunks[k];
      if chunk == [] {
        AtEmpty(chunks, k);
        assert whole[k..] == [] && buffer + [] == buffer;
        SplitPart(buffer, limit);
        return Framing(frames, EmptyChunk), peak;
      }
      assert k < |whole| && whole[k..][0] == chunk && whole[k..][1..] == whole[k + 1..];
      ghost var rest := Concat(whole[k + 1..]);
      assert buffer + Concat(whole[k..]) == (buffer + chunk) + rest;
      buffer := buffer + chunk;
      peak := if |buffer| > peak then |buffer| else peak;
      assert chunk in chunks;
      while Boundary(buffer) < |buffer|
        invariant Split(Concat(whole), limit) == Prepend(frames, Split(buffer + rest, limit))
        decreases |buffer|
      {
        var boundary := Boundary(buffer);
        SplitAtBoundary(buffer, rest, limit);
        if boundary > limit { return Framing(frames, OverLimit), peak; }
        frames := frames + [buffer[..boundary]];
        buffer := buffer[boundary + 1..];
      }
      if |buffer| > limit {
        SplitOverlong(buffer, rest, limit);
        return Framing(frames, OverLimit), peak;
      }
    }
    assert whole == chunks && whole[|whole|..] == [] && buffer + [] == buffer;
    SplitPart(buffer, limit);
    r := Framing(frames, if buffer == [] then CleanEnd else InsideFrame);
  }

  /** The framer as the program runs it: no more than 8 MiB and one read are ever held. */
  method Frames(chunks: seq<seq<byte>>) returns (r: Framing, ghost peak: nat)
    ensures r == Expected(chunks, FRAME_LIMIT)
    ensures (forall k :: 0 <= k < |chunks| ==> |chunks[k]| <= CHUNK) ==> peak <= FRAME_LIMIT + CHUNK
  {
    hide Expected;
    r, peak := BoundedFrames(chunks, FRAME_LIMIT);
  }

  /** However a stream is cut into nonempty chunks, the frames and the outcome are the same. */
  lemma CutsAreIrrelevant(chunks: seq<seq<byte>>, other: seq<seq<byte>>, limit: nat)
    requires forall k :: 0 <= k < |chunks| ==> chunks[k] != []
    requires forall k :: 0 <= k < |other| ==> other[k] != []
    requires Concat(chunks) == Concat(other)
    ensures Expected(chunks, limit) == Expected(other, limit) == Split(Concat(chunks), limit)
  {
    assert |BeforeEmpty(chunks)| == |chunks| && BeforeEmpty(chunks) == chunks;
    assert |BeforeEmpty(other)| == |other| && BeforeEmpty(other) == other;
  }

  // ----- what splitting means

  /** Frames written out, each with its newline. */
  function Join(frames: seq<seq<byte>>): seq<byte> {
    if frames == [] then [] else frames[0] + [NEWLINE] + Join(frames[1..])
  }

  predicate Line(frame: seq<byte>, limit: nat) {
    |frame| <= limit && NEWLINE !in frame
  }

  lemma SplitLine(f: seq<byte>, rest: seq<byte>, limit: nat)
    requires Line(f, limit)
    ensures Split(f + [NEWLINE] + rest, limit) == Prepend([f], Split(rest, limit))
  {
    var buffer := f + [NEWLINE];
    assert Boundary(buffer) == |f| by {
      assert buffer[|f|] == NEWLINE;
      assert forall k :: 0 <= k < |f| ==> buffer[k] == f[k] && f[k] in f;
    }
    SplitAtBoundary(buffer, rest, limit);
    assert buffer[..|f|] == f && buffer[|f| + 1..] + rest == rest;
  }

  /** Any lines within the limit, written out and framed again, come back whole. */
  lemma {:induction false} JoinedFramesComeBack(frames: seq<seq<byte>>, limit: nat)
    requires forall f <- frames :: Line(f, limit)
    ensures Split(Join(frames), limit) == Framing(frames, CleanEnd)
  {
    if frames != [] {
      var f, rest := frames[0], frames[1..];
      assert Line(f, limit);
      hide Split;
      JoinedFramesComeBack(rest, limit);
      SplitLine(f, Join(rest), limit);
      assert Join(frames) == f + [NEWLINE] + Join(rest);
      assert frames == [f] + rest;
    }
  }

  /**
   Every frame is a line within the limit, and the frames written out are the stream up to what
   is left: nothing at a clean end, part of a line inside a frame, and a line longer than the
   limit, finished or not, where the limit was exceeded.
   */
  ghost predicate Accounted(s: Framing, bytes: seq<byte>, left: seq<byte>, limit: nat) {
    && (forall f <- s.frames :: Line(f, limit))
    && bytes == Join(s.frames) + left
    && (s.outcome == CleanEnd <==> left == [])
    && (s.outcome == InsideFrame <==> left != [] && Line(left, limit))
    && (s.outcome == OverLimit <==> |left| > limit && NEWLINE !in left[..limit + 1])
    && s.outcome != EmptyChunk
  }

  lemma AccountedStep(first: seq<byte>, rest: seq<byte>, later: Framing, left: seq<byte>, limit: nat)
    requires Accounted(later, rest, left, limit) && Line(first, limit)
    ensures Accounted(Prepend([first], later), first + [NEWLINE] + rest, left, limit)
  {
    var frames := [first] + later.frames;
    assert frames[1..] == later.frames;
    assert Join(frames) == first + [NEWLINE] + Join(later.frames);
    assert first + [NEWLINE] + rest == Join(frames) + left;
    hide Line, Join;
    forall f <- frames ensures Line(f, limit) { assert f == first || f in later.frames; }
  }

  lemma {:induction false} SplitAccounts(bytes: seq<byte>, limit: nat) returns (left: seq<byte>)
    ensures Accounted(Split(bytes, limit), bytes, left, limit)
  {
    var b := Boundary(bytes);
    assert forall k :: 0 <= k < b ==> bytes[k] != NEWLINE;
    if b > limit || b == |bytes| {
      left := bytes;
    } else {
      left := SplitAccounts(bytes[b + 1..], limit);
      var later := Split(bytes[b + 1..], limit);
      assert Split(bytes, limit) == Prepend([bytes[..b]], later);
      AccountedStep(bytes[..b], bytes[b + 1..], later, left, limit);
      assert bytes == bytes[..b] + [NEWLINE] + bytes[b + 1..];
    }
  }
}
