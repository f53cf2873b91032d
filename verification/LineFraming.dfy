// Line framing of a byte stream that arrives in arbitrary chunks, with a bound on what is buffered
// (src/headless.ts).
module LineFraming {

  type Bytes = seq<int>

  const NEWLINE := 0x0a
  const RETURN := 0x0d

  datatype Frame = Line(content: Bytes) | TooLarge

  // Where the first newline is, or the length.
  function NewlineAt(b: Bytes): (n: int)
    ensures 0 <= n <= |b| && (n < |b| ==> b[n] == NEWLINE) && forall i :: 0 <= i < n ==> b[i] != NEWLINE
  {
    if b == [] then 0
    else if b[0] == NEWLINE then 0
    else
      var n := NewlineAt(b[1..]);
      assert forall i :: 0 < i < n + 1 ==> b[i] == b[1..][i - 1];
      n + 1
  }

  // A terminated line: too large as it stands, or without one closing carriage return.
  function TerminatedFrame(line: Bytes, max: int): Frame {
    if |line| > max then TooLarge
    else if line != [] && line[|line| - 1] == RETURN then Line(line[..|line| - 1])
    else Line(line)
  }

  // What is left at the end of the input, if anything; nothing is stripped from it.
  function TailFrames(tail: Bytes, max: int): seq<Frame> {
    if |tail| > max then [TooLarge] else if tail == [] then [] else [Line(tail)]
  }

  // The frames of the whole input, split at its newlines.
  function Frames(b: Bytes, max: int): seq<Frame>
    decreases |b|
  {
    var n := NewlineAt(b);
    if n == |b| then TailFrames(b, max) else [TerminatedFrame(b[..n], max)] + Frames(b[n + 1..], max)
  }

  function Concat(chunks: seq<Bytes>): Bytes {
    if chunks == [] then [] else chunks[0] + Concat(chunks[1..])
  }

  predicate NoNewline(b: Bytes) {
    forall i :: 0 <= i < |b| ==> b[i] != NEWLINE
  }

  lemma FirstNewline(line: Bytes, rest: Bytes)
    requires NoNewline(line)
    ensures NewlineAt(line + [NEWLINE] + rest) == |line|
  {
    var b := line + [NEWLINE] + rest;
    assert b[|line|] == NEWLINE;
    assert forall i :: 0 <= i < |line| ==> b[i] == line[i];
  }

  // A line and its newline make one frame; what follows is framed by itself.
  lemma FramesLine(line: Bytes, rest: Bytes, max: int)
    requires NoNewline(line)
    ensures Frames(line + [NEWLINE] + rest, max) == [TerminatedFrame(line, max)] + Frames(rest, max)
  {
    var b := line + [NEWLINE] + rest;
    FirstNewline(line, rest);
    assert b[..|line|] == line && b[|line| + 1..] == rest;
  }

  lemma FramesTail(tail: Bytes, max: int)
    requires NoNewline(tail)
    ensures Frames(tail, max) == TailFrames(tail, max)
  {
    var n := NewlineAt(tail);
  }

  // ----- The reader -----

  // The bytes buffered since the last newline, or that the line is being discarded.
  datatype Reader = Reader(buffered: Bytes, discarding: bool)

  // What the reader holds of a line: all of it, or only that it was too large.
  predicate Holds(r: Reader, line: Bytes, max: int) {
    if r.discarding then |line| > max && r.buffered == [] else r.buffered == line && |line| <= max
  }

  function Take(r: Reader, segment: Bytes, max: int): Reader {
    if r.discarding then r
    else if |r.buffered| + |segment| > max then Reader([], true)
    else r.(buffered := r.buffered + segment)
  }

  lemma TakeHolds(r: Reader, line: Bytes, segment: Bytes, max: int)
    requires Holds(r, line, max)
    ensures Holds(Take(r, segment, max), line + segment, max)
  {
  }

  function Ended(r: Reader): Frame {
    if r.discarding then TooLarge
    else if r.buffered != [] && r.buffered[|r.buffered| - 1] == RETURN then Line(r.buffered[..|r.buffered| - 1])
    else Line(r.buffered)
  }

  lemma EndedFrame(r: Reader, line: Bytes, max: int)
    requires Holds(r, line, max)
    ensures Ended(r) == TerminatedFrame(line, max)
  {
  }

  lemma NoNewlineConcat(a: Bytes, b: Bytes)
    requires NoNewline(a) && NoNewline(b)
    ensures NoNewline(a + b)
  {
  }

  // One chunk: its lines become frames, and the reader is left holding what follows its last newline.
  method ReadChunk(chunk: Bytes, max: int, reader: Reader, ghost line: Bytes, ghost rest: Bytes)
    returns (frames: seq<Frame>, next: Reader, ghost left: Bytes)
    requires max >= 0 && Holds(reader, line, max) && NoNewline(line)
    ensures Holds(next, left, max) && NoNewline(left) && |next.buffered| <= max
    ensures Frames(line + (chunk + rest), max) == frames + Frames(left + rest, max)
  {
    hide Frames, TerminatedFrame, Take, Ended, Holds, NoNewline;
    frames, next, left := [], reader, line;
    var start := 0;
    while start < |chunk|
      invariant 0 <= start <= |chunk|
      invariant Holds(next, left, max) && NoNewline(left)
      invariant Frames(line + (chunk + rest), max) == frames + Frames(left + (chunk[start..] + rest), max)
      decreases |chunk| - start
    {
      var n := NewlineAt(chunk[start..]);
      var segment := chunk[start..][..n];
      SegmentPlain(chunk[start..]);
      TakeHolds(next, left, segment, max);
      NoNewlineConcat(left, segment);
      next := Take(next, segment, max);
      if start + n == |chunk| {
        assert left + (chunk[start..] + rest) == left + segment + rest;
        left := left + segment;
        HeldBounded(next, left, max);
        return;
      }
      SplitAt(chunk, start, n, left, rest);
      FramesLine(left + segment, chunk[start + n + 1..] + rest, max);
      EndedFrame(next, left + segment, max);
      frames := frames + [Ended(next)];
      next := Reader([], false);
      left := [];
      assert [] + (chunk[start + n + 1..] + rest) == chunk[start + n + 1..] + rest;
      NothingHeld(max);
      start := start + n + 1;
    }
    assert left + (chunk[start..] + rest) == left + rest;
    HeldBounded(next, left, max);
  }

  lemma SegmentPlain(b: Bytes)
    ensures NoNewline(b[..NewlineAt(b)])
  {
  }

  lemma NothingHeld(max: int)
    requires max >= 0
    ensures Holds(Reader([], false), [], max) && NoNewline([])
  {
  }

  lemma HeldBounded(r: Reader, line: Bytes, max: int)
    requires max >= 0 && Holds(r, line, max)
    ensures |r.buffered| <= max
  {
  }

  lemma SplitAt(chunk: Bytes, start: int, n: int, left: Bytes, rest: Bytes)
    requires 0 <= start <= start + n < |chunk| && chunk[start + n] == NEWLINE
    ensures left + (chunk[start..] + rest) == left + chunk[start..][..n] + [NEWLINE] + (chunk[start + n + 1..] + rest)
  {
  }

  // The frames of a stream depend only on its bytes, not on how they were cut into chunks.
  method ReadBoundedLines(chunks: seq<Bytes>, max: int) returns (frames: seq<Frame>)
    requires max >= 0
    ensures frames == Frames(Concat(chunks), max)
  {
    hide Frames, Holds, NoNewline, TailFrames;
    frames := [];
    var reader := Reader([], false);
    ghost var line: Bytes := [];
    NothingHeld(max);
    var i := 0;
    assert chunks[0..] == chunks;
    assert [] + Concat(chunks) == Concat(chunks);
    while i < |chunks|
      invariant 0 <= i <= |chunks|
      invariant Holds(reader, line, max) && NoNewline(line) && |reader.buffered| <= max
      invariant Frames(Concat(chunks), max) == frames + Frames(line + Concat(chunks[i..]), max)
    {
      assert chunks[i..][1..] == chunks[i + 1..];
      var more;
      more, reader, line := ReadChunk(chunks[i], max, reader, line, Concat(chunks[i + 1..]));
      frames := frames + more;
      i := i + 1;
    }
    assert line + Concat(chunks[i..]) == line;
    FramesTail(line, max);
    TailHeld(reader, line, max);
    if reader.discarding {
      frames := frames + [TooLarge];
    } else if |reader.buffered| > 0 {
      frames := frames + [Line(reader.buffered)];
    }
  }

  lemma TailHeld(r: Reader, line: Bytes, max: int)
    requires Holds(r, line, max)
    ensures TailFrames(line, max) ==
      if r.discarding then [TooLarge] else if |r.buffered| > 0 then [Line(r.buffered)] else []
  {
  }

  // ----- What framing is for -----

  function Written(lines: seq<Bytes>): Bytes {
    if lines == [] then [] else lines[0] + [NEWLINE] + Written(lines[1..])
  }

  function AsFrames(lines: seq<Bytes>): seq<Frame> {
    if lines == [] then [] else [Line(lines[0])] + AsFrames(lines[1..])
  }

  // Lines that hold no newline, do not end in a carriage return and are within the limit come back.
  lemma {:induction false} LinesComeBack(lines: seq<Bytes>, max: int)
    requires max >= 0 && forall l :: l in lines ==> NoNewline(l) && |l| <= max && (l != [] ==> l[|l| - 1] != RETURN)
    ensures Frames(Written(lines), max) == AsFrames(lines)
  {
    hide Frames, NoNewline;
    if lines == [] {
      assert NoNewline([]) by { NothingPlain(); }
      FramesTail([], max);
      assert Written(lines) == [];
    } else {
      assert lines[0] in lines;
      LinesComeBack(lines[1..], max);
      FramesLine(lines[0], Written(lines[1..]), max);
    }
  }

  // A line as it is written: its content, and whether a carriage return stands before its newline.
  datatype Ending = Ending(content: Bytes, cr: bool)

  function Bare(l: Ending): Bytes {
    if l.cr then l.content + [RETURN] else l.content
  }

  function WrittenLines(lines: seq<Ending>): Bytes {
    if lines == [] then [] else Bare(lines[0]) + [NEWLINE] + WrittenLines(lines[1..])
  }

  function Expected(lines: seq<Ending>, max: int): seq<Frame> {
    if lines == [] then []
    else [if |Bare(lines[0])| <= max then Line(lines[0].content) else TooLarge] + Expected(lines[1..], max)
  }

  predicate Writable(l: Ending) {
    NoNewline(l.content) && (!l.cr && l.content != [] ==> l.content[|l.content| - 1] != RETURN)
  }

  // Lines ended by a newline, with or without a carriage return before it, come back without either; one over
  // the limit comes back as too large, and does not disturb the others. A last line without a newline comes
  // back as it is, carriage return and all, unless it is empty.
  lemma {:induction false} EndingsComeBack(lines: seq<Ending>, tail: Bytes, max: int)
    requires max >= 0 && NoNewline(tail) && forall l :: l in lines ==> Writable(l)
    ensures Frames(WrittenLines(lines) + tail, max) ==
      Expected(lines, max) + (if |tail| > max then [TooLarge] else if tail == [] then [] else [Line(tail)])
  {
    hide Frames, NoNewline, TerminatedFrame, Bare, Writable;
    var last := if |tail| > max then [TooLarge] else if tail == [] then [] else [Line(tail)];
    if lines == [] {
      assert WrittenLines(lines) + tail == tail && Expected(lines, max) + last == last;
      FramesTail(tail, max);
    } else {
      var l, rest := lines[0], lines[1..];
      assert l in lines && forall x :: x in rest ==> x in lines;
      EndingsComeBack(rest, tail, max);
      EndingFrame(l, max);
      FramesLine(Bare(l), WrittenLines(rest) + tail, max);
      Reassociated(Bare(l) + [NEWLINE], WrittenLines(rest), tail);
      var frame := TerminatedFrame(Bare(l), max);
      assert [frame] + (Expected(rest, max) + last) == [frame] + Expected(rest, max) + last;
    }
  }

  lemma Reassociated(a: Bytes, b: Bytes, c: Bytes)
    ensures a + b + c == a + (b + c)
  {
  }

  lemma EndingFrame(l: Ending, max: int)
    requires Writable(l)
    ensures NoNewline(Bare(l))
    ensures TerminatedFrame(Bare(l), max) == if |Bare(l)| <= max then Line(l.content) else TooLarge
  {
  }

  lemma NothingPlain()
    ensures NoNewline([])
  {
  }
}
