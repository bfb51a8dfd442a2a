// What a connection makes of its input when the sizes of its reads are known: where it waits, which
// lines it refuses, and what it decodes. Positions are counted from the end, by the bytes still unread.
module Readings {
  import opened Bytes
  import opened Commands
  import opened Tokens
  import opened Parser
  import opened Framing

  /** How many bytes one read takes: at least one, at most what the buffer can hold or what the peer sends. */
  function ReadSize(unread: nat, sizes: seq<nat>, spare: nat): (n: nat)
    ensures n <= unread && n <= spare
    ensures n == 0 <==> unread == 0 || spare == 0
  {
    var wanted := if sizes == [] || sizes[0] == 0 then 1 else sizes[0];
    Min(Min(wanted, spare), unread)
  }

  function Later(sizes: seq<nat>): seq<nat> {
    if sizes == [] then [] else sizes[1..]
  }

  // A stream to be interpreted, how much of it has not been read yet, and the sizes of the reads to come.
  datatype Source = Source(stream: bytes, unread: nat, sizes: seq<nat>)

  /** When nothing is left to interpret the sizes do not matter. */
  function SourceAt(stream: bytes, unread: nat, sizes: seq<nat>): Source {
    if stream == [] then Source([], 0, []) else Source(stream, unread, sizes)
  }

  // A wait for the next bytes, in the middle of an overlong line or not.
  datatype Stop = Stop(unread: nat, skipping: bool)

  // The positions of some reads, and where they leave the input.
  datatype Reads = Reads(at: seq<Stop>, left: nat, sizes: seq<nat>) {
    function Then(next: Reads): Reads {
      Reads(at + next.at, next.left, next.sizes)
    }
  }

  /**
   * Reading until at most `goal` bytes are left; an exact reader takes no byte beyond that. Once no
   * more than `limit` bytes are left, an overlong line is being skipped.
   */
  function Pull(left: nat, sizes: seq<nat>, goal: nat, exact: bool, limit: int): (r: Reads)
    ensures forall i :: 0 <= i < |r.at| ==>
              goal < r.at[i].unread <= left && (r.at[i].skipping <==> r.at[i].unread <= limit)
    ensures left > goal ==> r.at != []
    decreases left
  {
    if left <= goal then Reads([], left, sizes)
    else
      var n := ReadSize(left, sizes, if exact then left - goal else left);
      var r := Pull(left - n, Later(sizes), goal, exact, limit);
      Reads([Stop(left, left <= limit)] + r.at, r.left, r.sizes)
  }

  const NO_LIMIT := -1

  function Monus(a: nat, b: nat): nat {
    if a >= b then a - b else 0
  }

  // ---- One frame ----

  /** The reads for the first line of a stream, through its newline. */
  function LineReads(x: Source): Reads {
    Pull(x.unread, x.sizes, |AfterLine(x.stream)|, false, |x.stream| - MAX_LINE_LEN)
  }

  /** The reads for a data block at the head of `size` bytes, and for its terminator. */
  function BlockReads(size: nat, len: nat, left: nat, sizes: seq<nat>): Reads {
    var data := Pull(left, sizes, Monus(size, len), true, NO_LIMIT);
    data.Then(Pull(data.left, data.sizes, Monus(size, len + 2), false, NO_LIMIT))
  }

  /** The reads for what belongs to a line that `size` bytes follow. */
  function TailReads(line: bytes, size: nat, left: nat, sizes: seq<nat>): Reads {
    match Header(Fields(line))
    case Err(e) =>
      if e.discard.Some? then Pull(left, sizes, Monus(size, e.discard.value), true, NO_LIMIT)
      else Reads([], left, sizes)
    case Ok(Pending(p)) => BlockReads(size, p.len, left, sizes)
    case _ => Reads([], left, sizes)
  }

  /** All that belongs to a line is there. */
  predicate TailFinished(line: bytes, size: nat) {
    match Header(Fields(line))
    case Err(e) => e.discard.Some? ==> e.discard.value <= size
    case Ok(Pending(p)) => p.len + 2 <= size
    case _ => true
  }

  function FirstText(s: bytes): bytes {
    TrimEnd(Take(s, Find(s, '\n') + 1))
  }

  function Take(s: bytes, n: nat): bytes {
    s[..Min(n, |s|)]
  }

  /** The line is refused: 8192 bytes of it are buffered before its newline is. */
  predicate Refused(x: Source) {
    if Find(x.stream, '\n') == |x.stream| then |x.stream| >= MAX_LINE_LEN
    else LineReads(x).at != [] && LineReads(x).at[|LineReads(x).at| - 1].skipping
  }

  /** The first frame as it is taken. */
  function Taken(x: Source): (f: Frame)
    ensures |f.rest| <= |x.stream|
    ensures f.Reply? || f.Run? ==> |f.rest| < |x.stream|
  {
    if Refused(x) then RefusedFrame(x.stream) else NextFrame(x.stream)
  }

  /** The first frame is there to its end, and not merely cut short by the end of the stream. */
  predicate Finished(x: Source) {
    && Find(x.stream, '\n') < |x.stream|
    && (Refused(x) || TailFinished(FirstText(x.stream), |AfterLine(x.stream)|))
  }

  function FrameReads(x: Source): Reads {
    var line := LineReads(x);
    if Refused(x) then line
    else line.Then(TailReads(FirstText(x.stream), |AfterLine(x.stream)|, line.left, line.sizes))
  }

  /** What is left after the first frame. */
  function Past(x: Source): Source {
    SourceAt(Taken(x).rest, FrameReads(x).left, FrameReads(x).sizes)
  }

  lemma FrameStops(x: Source)
    ensures forall i :: 0 <= i < |FrameReads(x).at| ==> FrameReads(x).at[i].unread > 0
  {
    hide Header, Fields, TrimEnd;
  }

  /** A frame with something behind it is there to its end. */
  lemma MoreMeansFinished(x: Source)
    requires (Taken(x).Reply? && Taken(x).rest != []) || Taken(x).Run? || Taken(x).Left?
    ensures Finished(x)
  {
    hide Header, Fields, TrimEnd;
    var s, p := x.stream, Find(x.stream, '\n');
    if p < |s| {
      assert Take(s, p + 1) == s[..p + 1];
      assert AfterLine(s) == s[p + 1..];
    }
  }

  /** What is taken is one of the frames the stream can yield. */
  lemma TakenYields(x: Source)
    ensures CanYield(x.stream, Taken(x))
  {
    hide NextFrame;
    var s, p := x.stream, Find(x.stream, '\n');
    if Refused(x) && p < |s| {
      var at := LineReads(x).at;
      assert at[|at| - 1].unread <= |s| - MAX_LINE_LEN;
      assert |AfterLine(s)| == |s| - p - 1;
    } else if Refused(x) {
      NoLine(s);
    }
  }

  lemma NoLine(s: bytes)
    requires Find(s, '\n') == |s| >= MAX_LINE_LEN
    ensures RefusedFrame(s) == NextFrame(s) && AfterLine(s) == []
  {
  }

  /** A short line is never refused. */
  lemma ShortIsTaken(x: Source)
    requires ShortLine(x.stream)
    ensures Taken(x) == NextFrame(x.stream)
  {
    hide NextFrame;
    var s, p, at := x.stream, Find(x.stream, '\n'), LineReads(x).at;
    assert p < |s| ==> |AfterLine(s)| == |s| - p - 1;
    if at != [] {
      assert at[|at| - 1].unread > |AfterLine(s)|;
    }
    if p == |s| >= MAX_LINE_LEN {
      NoLine(s);
    }
  }

  lemma NothingIsTaken(sizes: seq<nat>)
    ensures Taken(Source([], 0, sizes)) == Hangup([])
  {
  }

  // ---- Up to the next command ----

  /** What one call of ReadCommand decodes. */
  function Heard(x: Source): (d: Decoded)
    ensures !d.last.Reply?
    ensures d.last.Run? ==> |d.last.rest| < |x.stream|
    decreases |x.stream|
  {
    var f := Taken(x);
    if f.Reply? then Heard(Past(x)).After([f.response]) else Decoded([], f)
  }

  /** What it leaves. */
  function Beyond(x: Source): Source
    decreases |x.stream|
  {
    if Taken(x).Reply? then Beyond(Past(x)) else Past(x)
  }

  lemma {:induction false} HeardDecodes(x: Source)
    ensures Decodes(x.stream, Heard(x))
    decreases |x.stream|
  {
    hide Taken, CanYield;
    var f := Taken(x);
    TakenYields(x);
    if f.Reply? {
      HeardDecodes(Past(x));
      var d := Heard(x);
      assert d.replies[1..] == Heard(Past(x)).replies;
    }
  }

  lemma {:induction false} BeyondIsRest(x: Source)
    ensures Heard(x).last.Run? ==> Beyond(x).stream == Heard(x).last.rest
    decreases |x.stream|
  {
    hide Taken, FrameReads;
    if Taken(x).Reply? {
      BeyondIsRest(Past(x));
    }
  }

  /** The error replies due before the next command when all but the last `unread` bytes have arrived. */
  function Arrived(x: Source, unread: nat): seq<Response>
    decreases |x.stream|
  {
    var f := Taken(x);
    if f.Reply? && unread <= |f.rest| && Finished(x) then [f.response] + Arrived(Past(x), unread) else []
  }

  /** What is due at the start is what has been sent and what is due from here on. */
  ghost predicate Ahead(start: Source, x: Source, sent: seq<Response>) {
    forall unread: nat :: unread <= |x.stream| ==> Arrived(start, unread) == sent + Arrived(x, unread)
  }

  lemma AheadStart(x: Source)
    ensures Ahead(x, x, [])
  {
    hide Arrived;
    forall unread: nat ensures [] + Arrived(x, unread) == Arrived(x, unread) {
    }
  }

  lemma AheadStep(start: Source, x: Source, sent: seq<Response>)
    requires Ahead(start, x, sent) && Taken(x).Reply? && Finished(x)
    ensures Ahead(start, Past(x), sent + [Taken(x).response])
  {
    hide Taken, Finished, FrameReads;
    var f := Taken(x);
    assert Past(x).stream == f.rest;
    forall unread: nat | unread <= |f.rest|
      ensures Arrived(start, unread) == sent + [f.response] + Arrived(Past(x), unread)
    {
      assert Arrived(x, unread) == [f.response] + Arrived(Past(x), unread);
    }
  }

  lemma AheadStays(start: Source, x: Source, sent: seq<Response>, unread: nat)
    requires Ahead(start, x, sent) && unread <= |x.stream|
    requires !(Taken(x).Reply? && unread <= |Taken(x).rest| && Finished(x))
    ensures Arrived(start, unread) == sent
  {
    hide Taken, Finished;
    assert Arrived(x, unread) == [];
  }

  // ---- The whole stream ----

  /** The reads for a whole stream, up to its last frame. */
  function StreamReads(x: Source): Reads
    decreases |x.stream|
  {
    var f := Taken(x);
    Reads(FrameReads(x).at + (if f.Reply? || f.Run? then StreamReads(Past(x)).at else []), 0, [])
  }

  lemma {:induction false} StreamStops(x: Source)
    ensures forall i :: 0 <= i < |StreamReads(x).at| ==> StreamReads(x).at[i].unread > 0
    decreases |x.stream|
  {
    hide Taken, FrameReads;
    FrameStops(x);
    if Taken(x).Reply? || Taken(x).Run? {
      StreamStops(Past(x));
    }
  }

  // ---- Reads come one after the other ----

  predicate Descending(r: Reads, left: nat) {
    && r.left <= left && (forall i :: 0 <= i < |r.at| ==> r.left < r.at[i].unread <= left)
    && forall i, j | 0 <= i < j < |r.at| :: r.at[i].unread > r.at[j].unread
  }

  lemma ThenDescends(first: Reads, next: Reads, left: nat)
    requires Descending(first, left) && Descending(next, first.left)
    ensures Descending(first.Then(next), left)
  {
    var at := first.at + next.at;
    forall i, j | 0 <= i < j < |at| ensures at[i].unread > at[j].unread {
      if i < |first.at| <= j {
        assert first.left < first.at[i].unread && next.at[j - |first.at|].unread <= first.left;
      }
    }
  }

  lemma {:induction false} PullDescends(left: nat, sizes: seq<nat>, goal: nat, exact: bool, limit: int)
    ensures Descending(Pull(left, sizes, goal, exact, limit), left)
    decreases left
  {
    if left > goal {
      var n := ReadSize(left, sizes, if exact then left - goal else left);
      PullDescends(left - n, Later(sizes), goal, exact, limit);
      var r := Pull(left - n, Later(sizes), goal, exact, limit);
      var first := Reads([Stop(left, left <= limit)], left - n, Later(sizes));
      ThenDescends(first, r, left);
      assert Pull(left, sizes, goal, exact, limit) == first.Then(r);
    }
  }

  lemma TailDescends(line: bytes, size: nat, left: nat, sizes: seq<nat>)
    ensures Descending(TailReads(line, size, left, sizes), left)
  {
    hide Pull, Header, Fields, Monus;
    match Header(Fields(line))
    case Err(e) =>
      if e.discard.Some? {
        PullDescends(left, sizes, Monus(size, e.discard.value), true, NO_LIMIT);
      }
    case Ok(Pending(p)) =>
      var data := Pull(left, sizes, Monus(size, p.len), true, NO_LIMIT);
      PullDescends(left, sizes, Monus(size, p.len), true, NO_LIMIT);
      PullDescends(data.left, data.sizes, Monus(size, p.len + 2), false, NO_LIMIT);
      ThenDescends(data, Pull(data.left, data.sizes, Monus(size, p.len + 2), false, NO_LIMIT), left);
    case _ =>
  }

  lemma FrameDescends(x: Source)
    ensures Descending(FrameReads(x), x.unread)
  {
    hide Pull, Descending, Header, Fields, Refused, TailReads;
    var line := LineReads(x);
    PullDescends(x.unread, x.sizes, |AfterLine(x.stream)|, false, |x.stream| - MAX_LINE_LEN);
    TailDescends(FirstText(x.stream), |AfterLine(x.stream)|, line.left, line.sizes);
    ThenDescends(line, TailReads(FirstText(x.stream), |AfterLine(x.stream)|, line.left, line.sizes), x.unread);
  }

  /** Every read finds less to come than the one before it. */
  lemma {:induction false} ReadsDescend(x: Source)
    ensures Descending(Reads(StreamReads(x).at, 0, []), x.unread)
    decreases |x.stream|
  {
    hide FrameReads, Taken;
    var first := FrameReads(x);
    FrameDescends(x);
    StreamStops(x);
    if Taken(x).Reply? || Taken(x).Run? {
      ReadsDescend(Past(x));
      var next := Reads(StreamReads(Past(x)).at, 0, []);
      assert Past(x).unread <= first.left;
      ThenDescends(first, next, x.unread);
    }
  }
}
