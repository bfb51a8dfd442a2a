// The incremental reader and the writer of a connection (src/connection.rs).
module Connections {
  import opened Bytes
  import opened Commands
  import opened Tokens
  import opened Parser
  import opened Framing
  import opened Responses
  import opened Readings

  // The peer's side of the socket. `sizes` fixes how the network will cut the coming bytes into
  // reads; it is arbitrary, so what holds for every reader holds for every chunking.
  class Reader {
    var input: bytes
    var sizes: seq<nat>
    ghost var readCount: nat
    // A read has said that there are no more bytes.
    ghost var ended: bool

    constructor (input: bytes, sizes: seq<nat>)
      ensures this.input == input && this.sizes == sizes && readCount == 0 && !ended
    {
      this.input, this.sizes := input, sizes;
      readCount, ended := 0, false;
    }

    method ReadBuf(spare: nat) returns (chunk: bytes)
      modifies this
      ensures chunk == old(input)[..ReadSize(|old(input)|, old(sizes), spare)]
      ensures input == old(input)[|chunk|..] && sizes == Later(old(sizes)) && readCount == old(readCount) + 1
      ensures ended == (old(ended) || old(input) == [])
    {
      var n := ReadSize(|input|, sizes, spare);
      chunk := input[..n];
      readCount, ended := readCount + 1, ended || input == [];
      input, sizes := input[n..], Later(sizes);
    }
  }

  const BUF_CAPACITY := 8 * 1024

  // The buffered writer: bytes that reached the client, and bytes that wait for a flush.
  class Writer {
    var delivered: bytes
    var pending: bytes

    constructor ()
      ensures delivered == [] && pending == []
    {
      delivered, pending := [], [];
    }

    ghost function Written(): bytes
      reads this
    {
      delivered + pending
    }

    /** What fits the buffer is still in it. */
    twostate predicate KeptBack()
      reads this
    {
      |Written()| < |old(delivered)| + BUF_CAPACITY ==> delivered == old(delivered)
    }

    /** Bytes that do not fit the buffer push out what it holds; a write as large as the buffer passes it by. */
    method WriteAll(b: bytes)
      modifies this
      ensures Written() == old(Written()) + b && KeptBack()
      ensures 0 < |b| < BUF_CAPACITY ==> pending != []
    {
      if |pending| + |b| > BUF_CAPACITY {
        Flush();
      }
      if |b| >= BUF_CAPACITY {
        delivered := delivered + pending + b;
        pending := [];
      } else {
        pending := pending + b;
      }
    }

    method Flush()
      modifies this
      ensures delivered == old(Written()) && pending == [] && Written() == old(Written())
    {
      delivered, pending := delivered + pending, [];
    }
  }

  datatype LineResult = Line(line: bytes) | TooLong | Eof

  datatype PayloadResult = Data(data: bytes) | BadChunk | UnexpectedEof

  datatype Outcome = Got(command: Command) | Ended | IoError

  // A moment at which the connection waits for the peer, which has `unread` bytes still to send; it
  // waits again when it has been told before that there are no more.
  datatype Wait = Wait(written: bytes, delivered: bytes, unread: nat, skippingLine: bool, again: bool)

  /** At each wait the client had been sent everything written so far, unless an overlong line was being skipped. */
  ghost predicate Prompt(ws: seq<Wait>) {
    forall w :: w in ws && !w.skippingLine ==> w.delivered == w.written
  }

  /** The waits of one frame: nothing is written in between, and those with bytes to come lie before `target`. */
  ghost predicate WaitedFrom(ws: seq<Wait>, n: nat, written: bytes, target: int, limit: nat, again: bool) {
    forall i | n <= i < |ws| ::
      && ws[i].unread <= limit && ws[i].written == written && ws[i].again == again
      && (ws[i].unread > 0 ==> target < ws[i].unread)
  }

  /** And none of them is in an overlong line. */
  ghost predicate PlainFrom(ws: seq<Wait>, n: nat, written: bytes, target: int, limit: nat, again: bool) {
    && WaitedFrom(ws, n, written, target, limit, again)
    && forall i | n <= i < |ws| :: !ws[i].skippingLine
  }

  /** Or all of them are. */
  ghost predicate SkipFrom(ws: seq<Wait>, n: nat, written: bytes, delivered: bytes, target: int, limit: nat,
      again: bool) {
    && WaitedFrom(ws, n, written, target, limit, again)
    && forall i | n <= i < |ws| :: ws[i].skippingLine && ws[i].delivered == delivered
  }

  lemma NoWait(ws: seq<Wait>, written: bytes, delivered: bytes, target: int, limit: nat, again: bool)
    ensures PlainFrom(ws, |ws|, written, target, limit, again)
    ensures SkipFrom(ws, |ws|, written, delivered, target, limit, again)
  {
  }

  lemma OneWait(ws: seq<Wait>, w: Wait, n: nat, target: int, limit: nat)
    requires n <= |ws| && PlainFrom(ws, n, w.written, target, limit, w.again)
    requires w.unread <= limit && !w.skippingLine && (w.unread > 0 ==> target < w.unread)
    ensures PlainFrom(ws + [w], n, w.written, target, limit, w.again)
  {
  }

  lemma Nearer(ws: seq<Wait>, n: nat, written: bytes, target1: int, target: int, limit: nat, again: bool)
    requires PlainFrom(ws, n, written, target1, limit, again) && (target <= target1 || target <= 0)
    ensures PlainFrom(ws, n, written, target, limit, again)
  {
  }

  lemma OneSkip(ws: seq<Wait>, w: Wait, n: nat, target: int, limit: nat)
    requires n <= |ws| && SkipFrom(ws, n, w.written, w.delivered, target, limit, w.again)
    requires w.unread <= limit && w.skippingLine && (w.unread > 0 ==> target < w.unread)
    ensures SkipFrom(ws + [w], n, w.written, w.delivered, target, limit, w.again)
  {
  }

  lemma MoreWaits(ws: seq<Wait>, more: seq<Wait>, n: nat, written: bytes, target1: int, target2: int, target: int,
                  limit: nat, unread: nat, again: bool)
    requires n <= |ws| && ws <= more && unread <= limit && target <= target1 && target <= target2
    requires PlainFrom(ws, n, written, target1, limit, again) && PlainFrom(more, |ws|, written, target2, unread, again)
    ensures PlainFrom(more, n, written, target, limit, again)
  {
    forall i | n <= i < |more|
      ensures more[i].unread <= limit && more[i].written == written && more[i].again == again && !more[i].skippingLine
      ensures more[i].unread > 0 ==> target < more[i].unread
    {
      if i < |ws| {
        assert more[i] == ws[i];
      }
    }
  }

  // ---- Where the waits come ----

  /** The waits from the n-th on have come at the first of the positions of `total`, and `ahead` is still to come. */
  ghost predicate OnCourse(ws: seq<Wait>, n: nat, total: Reads, ahead: Reads) {
    && n <= |ws| && |total.at| == |ws| - n + |ahead.at| && total.at[|ws| - n..] == ahead.at
    && total.left == ahead.left && total.sizes == ahead.sizes
    && forall i | n <= i < |ws| :: Stop(ws[i].unread, ws[i].skippingLine) == total.at[i - n]
  }

  lemma CourseStart(ws: seq<Wait>, total: Reads)
    ensures OnCourse(ws, |ws|, total, total)
  {
  }

  lemma CourseStep(ws: seq<Wait>, w: Wait, n: nat, total: Reads, left: nat, sizes: seq<nat>, goal: nat, exact: bool,
      limit: int)
    requires OnCourse(ws, n, total, Pull(left, sizes, goal, exact, limit)) && left > goal
    requires w.unread == left && (w.skippingLine <==> left <= limit)
    ensures var taken := ReadSize(left, sizes, if exact then left - goal else left);
            OnCourse(ws + [w], n, total, Pull(left - taken, Later(sizes), goal, exact, limit))
  {
    hide Pull, ReadSize;
    var taken := ReadSize(left, sizes, if exact then left - goal else left);
    var rest := Pull(left - taken, Later(sizes), goal, exact, limit);
    PullStep(left, sizes, goal, exact, limit);
    OneLess(total.at, |ws| - n, Stop(left, left <= limit), rest.at);
    forall i | n <= i < |ws + [w]| ensures Stop((ws + [w])[i].unread, (ws + [w])[i].skippingLine) == total.at[i - n] {
      if i < |ws| {
        assert (ws + [w])[i] == ws[i];
      }
    }
  }

  lemma OneLess(at: seq<Stop>, k: nat, x: Stop, rest: seq<Stop>)
    requires k <= |at| && at[k..] == [x] + rest
    ensures k < |at| && at[k] == x && at[k + 1..] == rest && |at| == k + 1 + |rest|
  {
    assert |at[k..]| == 1 + |rest|;
    assert at[k] == at[k..][0];
    assert at[k + 1..] == at[k..][1..];
  }

  lemma PullStep(left: nat, sizes: seq<nat>, goal: nat, exact: bool, limit: int)
    requires left > goal
    ensures var taken := ReadSize(left, sizes, if exact then left - goal else left);
            var rest := Pull(left - taken, Later(sizes), goal, exact, limit);
            Pull(left, sizes, goal, exact, limit) == Reads([Stop(left, left <= limit)] + rest.at, rest.left, rest.sizes)
  {
    hide ReadSize;
  }

  lemma PullDone(left: nat, sizes: seq<nat>, goal: nat, exact: bool, limit: int)
    requires left <= goal
    ensures Pull(left, sizes, goal, exact, limit) == Reads([], left, sizes)
  {
  }

  lemma LastCourse(course: Reads)
    ensures course.Then(Reads([], course.left, course.sizes)) == course
  {
  }

  /** The first of two stretches of reads is done. */
  lemma CourseOn(ws: seq<Wait>, more: seq<Wait>, n: nat, total: Reads, first: Reads, next: Reads,
                 left: nat, sizes: seq<nat>)
    requires ws <= more && OnCourse(ws, n, total, first.Then(next))
    requires OnCourse(more, |ws|, first, Reads([], left, sizes))
    ensures OnCourse(more, n, total, next) && first.left == left && first.sizes == sizes
  {
    assert |more| - |ws| == |first.at|;
    assert total.at[|more| - n..] == total.at[|ws| - n..][|first.at|..] == next.at;
    forall i | n <= i < |more| ensures Stop(more[i].unread, more[i].skippingLine) == total.at[i - n] {
      if i < |ws| {
        assert more[i] == ws[i];
      } else {
        assert total.at[i - n] == total.at[|ws| - n..][i - |ws|] == first.at[i - |ws|];
      }
    }
  }

  lemma CourseAlong(ws: seq<Wait>, more: seq<Wait>, n: nat, course: Reads, now: Reads, ahead: Reads)
    requires ws <= more && OnCourse(ws, n, course, now) && OnCourse(more, |ws|, now, ahead)
    ensures OnCourse(more, n, course, ahead)
  {
    assert course.at[|more| - n..] == course.at[|ws| - n..][|more| - |ws|..] == ahead.at;
    forall i | n <= i < |more| ensures Stop(more[i].unread, more[i].skippingLine) == course.at[i - n] {
      if i < |ws| {
        assert more[i] == ws[i];
      } else {
        assert course.at[i - n] == course.at[|ws| - n..][i - |ws|];
      }
    }
  }

  lemma LineCourse(stream: bytes, unread: nat, sizes: seq<nat>)
    ensures stream != [] ==>
              LineReads(SourceAt(stream, unread, sizes))
                  == Pull(unread, sizes, |AfterLine(stream)|, false, |stream| - MAX_LINE_LEN)
  {
  }

  lemma BlockCourse(ws: seq<Wait>, mid: seq<Wait>, end: seq<Wait>, size: nat, len: nat,
                    left: nat, sizes: seq<nat>, left1: nat, sizes1: seq<nat>, left2: nat, sizes2: seq<nat>)
    requires ws <= mid && mid <= end && size >= len + 2
    requires OnCourse(mid, |ws|, Pull(left, sizes, Monus(size, len), true, NO_LIMIT), Reads([], left1, sizes1))
    requires OnCourse(end, |mid|, Pull(left1, sizes1, Monus(size - len, 2), false, NO_LIMIT), Reads([], left2, sizes2))
    ensures OnCourse(end, |ws|, BlockReads(size, len, left, sizes), Reads([], left2, sizes2))
  {
    hide OnCourse, Pull;
    var total := BlockReads(size, len, left, sizes);
    var first := Pull(left, sizes, Monus(size, len), true, NO_LIMIT);
    var next := Pull(first.left, first.sizes, Monus(size, len + 2), false, NO_LIMIT);
    CourseStart(ws, total);
    CourseOn(ws, mid, |ws|, total, first, next, left1, sizes1);
    LastCourse(next);
    CourseOn(mid, end, |ws|, total, next, Reads([], next.left, next.sizes), left2, sizes2);
  }

  /** The reads for a line and those for what belongs to it make up the reads for the frame. */
  lemma FrameCourse(ws: seq<Wait>, mid: seq<Wait>, end: seq<Wait>, x: Source,
                    left1: nat, sizes1: seq<nat>, left2: nat, sizes2: seq<nat>)
    requires ws <= mid && mid <= end && !Refused(x)
    requires OnCourse(mid, |ws|, LineReads(x), Reads([], left1, sizes1))
    requires OnCourse(end, |mid|, TailReads(FirstText(x.stream), |AfterLine(x.stream)|, left1, sizes1),
        Reads([], left2, sizes2))
    ensures OnCourse(end, |ws|, FrameReads(x), Reads([], left2, sizes2))
  {
    hide OnCourse, LineReads, TailReads, FirstText, Refused;
    var total, first := FrameReads(x), LineReads(x);
    var next := TailReads(FirstText(x.stream), |AfterLine(x.stream)|, first.left, first.sizes);
    CourseStart(ws, total);
    CourseOn(ws, mid, |ws|, total, first, next, left1, sizes1);
    LastCourse(next);
    CourseOn(mid, end, |ws|, total, next, Reads([], next.left, next.sizes), left2, sizes2);
  }

  /** One more frame of the stream. */
  lemma StreamCourse(ws: seq<Wait>, more: seq<Wait>, n: nat, course: Reads, x: Source, left: nat, sizes: seq<nat>)
    requires ws <= more && OnCourse(ws, n, course, StreamReads(x))
    requires OnCourse(more, |ws|, FrameReads(x), Reads([], left, sizes))
    ensures OnCourse(more, n, course, if Taken(x).Reply? || Taken(x).Run? then StreamReads(Past(x))
        else Reads([], 0, []))
  {
    hide OnCourse, FrameReads, Taken, Past;
    var next := if Taken(x).Reply? || Taken(x).Run? then StreamReads(Past(x)) else Reads([], 0, []);
    assert StreamReads(x) == FrameReads(x).Then(next);
    CourseOn(ws, more, n, course, FrameReads(x), next, left, sizes);
  }

  // ---- What has been delivered ----

  /** The last wait from the n-th on that was not in an overlong line: the last flush. */
  function LastFlush(ws: seq<Wait>, n: nat): (r: Option<Wait>)
    ensures r.Some? ==> !r.value.skippingLine
  {
    if |ws| <= n then None
    else if !ws[|ws| - 1].skippingLine then Some(ws[|ws| - 1])
    else LastFlush(ws[..|ws| - 1], n)
  }

  /** Nothing was written since the last flush, or, with none since the n-th wait, since a clean start at `base`. */
  predicate AllSent(ws: seq<Wait>, n: nat, written: bytes, base: bytes, clean: bool) {
    match LastFlush(ws, n)
    case None => clean && written == base
    case Some(w) => w.written == written
  }

  /** The writer's buffer is empty exactly when nothing was written since the last flush. */
  ghost predicate Settled(ws: seq<Wait>, n: nat, pending: bytes, written: bytes, base: bytes, clean: bool) {
    && n <= |ws| && base <= written && (LastFlush(ws, n).Some? ==> LastFlush(ws, n).value.written <= written)
    && (pending == [] <==> AllSent(ws, n, written, base, clean))
  }

  /**
   * At a wait in an overlong line the client has been sent everything exactly when nothing was written since the
   * last flush.
   */
  ghost predicate Told(ws: seq<Wait>, n: nat, base: bytes, clean: bool) {
    forall i | n <= i < |ws| ::
      && base <= ws[i].written
      && (ws[i].skippingLine ==>
            (ws[i].delivered == ws[i].written <==> AllSent(ws[..i], n, ws[i].written, base, clean)))
  }

  lemma {:induction false} LastFlushOn(ws: seq<Wait>, more: seq<Wait>, n: nat)
    requires n <= |ws| && ws <= more
    ensures LastFlush(more, n) == if LastFlush(more, |ws|).Some? then LastFlush(more, |ws|) else LastFlush(ws, n)
    decreases |more|
  {
    if |more| == |ws| {
      assert more == ws;
    } else if more[|more| - 1].skippingLine {
      LastFlushOn(ws, more[..|more| - 1], n);
    }
  }

  lemma AllSentOn(ws: seq<Wait>, more: seq<Wait>, n: nat, before: bytes, mid: bytes, written: bytes, base: bytes,
      clean: bool)
    requires ws <= more && Settled(ws, n, before, mid, base, clean) && mid <= written
    ensures AllSent(more, n, written, base, clean) <==> AllSent(more, |ws|, written, mid, before == [])
  {
    hide LastFlush;
    LastFlushOn(ws, more, n);
  }

  lemma SettledOn(ws: seq<Wait>, more: seq<Wait>, n: nat, before: bytes, pending: bytes, mid: bytes, written: bytes,
                  base: bytes, clean: bool)
    requires ws <= more && Settled(ws, n, before, mid, base, clean)
    requires Settled(more, |ws|, pending, written, mid, before == [])
    ensures Settled(more, n, pending, written, base, clean)
  {
    hide LastFlush, AllSent;
    LastFlushOn(ws, more, n);
    AllSentOn(ws, more, n, before, mid, written, base, clean);
  }

  lemma ToldOn(ws: seq<Wait>, more: seq<Wait>, n: nat, before: bytes, mid: bytes, base: bytes, clean: bool)
    requires ws <= more && Settled(ws, n, before, mid, base, clean)
    requires Told(ws, n, base, clean) && Told(more, |ws|, mid, before == [])
    ensures Told(more, n, base, clean)
  {
    hide AllSent;
    forall i | n <= i < |more|
      ensures base <= more[i].written
      ensures more[i].skippingLine ==>
                (more[i].delivered == more[i].written <==> AllSent(more[..i], n, more[i].written, base, clean))
    {
      if i < |ws| {
        assert more[i] == ws[i] && more[..i] == ws[..i];
      } else {
        assert ws <= more[..i];
        AllSentOn(ws, more[..i], n, before, mid, more[i].written, base, clean);
      }
    }
  }

  lemma SettledStart(ws: seq<Wait>, pending: bytes, written: bytes)
    ensures Settled(ws, |ws|, pending, written, written, pending == [])
    ensures Told(ws, |ws|, written, pending == [])
  {
  }

  /** A stretch of reads that are no skips, and then a reply or none. */
  lemma PlainSettles(ws: seq<Wait>, more: seq<Wait>, before: bytes, pending: bytes, written: bytes, reply: bytes,
                     target: int, limit: nat, again: bool)
    requires ws <= more && PlainFrom(more, |ws|, written, target, limit, again)
    requires if reply != [] then pending != [] else pending == if more == ws then before else []
    ensures Settled(more, |ws|, pending, written + reply, written, before == [])
    ensures Told(more, |ws|, written, before == [])
  {
    if |more| == |ws| {
      assert more == ws;
    }
    if reply != [] {
      assert |written + reply| > |written|;
    } else {
      assert written + reply == written;
    }
  }

  /** A stretch of reads for an overlong line, and the complaint. */
  lemma RefusalSettles(ws: seq<Wait>, mid: seq<Wait>, end: seq<Wait>, before: bytes, between: bytes, delivered: bytes,
                       written: bytes, pending: bytes, reply: bytes, target: int, limit: nat, unread: nat, again: bool)
    requires ws <= mid && mid <= end && unread <= limit
    requires PlainFrom(mid, |ws|, written, target, limit, again)
    requires SkipFrom(end, |mid|, written, delivered, target, unread, again)
    requires between == (if mid == ws then before else []) && delivered + between == written
    requires reply != [] && pending != []
    ensures WaitedFrom(end, |ws|, written, target, limit, again)
    ensures Settled(end, |ws|, pending, written + reply, written, before == [])
    ensures Told(end, |ws|, written, before == [])
  {
    assert |written + reply| > |written|;
    assert delivered == written <==> between == [];
    forall i | |mid| <= i <= |end| ensures LastFlush(end[..i], |ws|) == LastFlush(mid, |ws|) {
      SkipsFlushNothing(mid, end, |ws|, i);
    }
    assert end[..|end|] == end;
    if |mid| == |ws| {
      assert mid == ws;
    }
    forall i | |ws| <= i < |end|
      ensures end[i].unread <= limit && end[i].written == written && end[i].again == again
      ensures end[i].unread > 0 ==> target < end[i].unread
      ensures end[i].skippingLine ==>
                i >= |mid| && (end[i].delivered == written <==> AllSent(end[..i], |ws|, written, written, before == []))
    {
      if i < |mid| {
        assert end[i] == mid[i];
      }
    }
  }

  lemma {:induction false} SkipsFlushNothing(mid: seq<Wait>, end: seq<Wait>, n: nat, i: nat)
    requires n <= |mid| <= i <= |end| && mid <= end
    requires forall k | |mid| <= k < |end| :: end[k].skippingLine
    ensures LastFlush(end[..i], n) == LastFlush(mid, n)
  {
    if i == |mid| {
      assert end[..i] == mid;
    } else {
      SkipsFlushNothing(mid, end, n, i - 1);
      assert end[..i][..i - 1] == end[..i - 1];
    }
  }

  // ---- What was due at the waits ----

  /**
   * At each wait the replies due by then, and no others, had been written, and `all` of them when the
   * end of the stream was known; unless it was known from the outset. All lie before `floor`.
   */
  ghost predicate AnsweredFrom(ws: seq<Wait>, n: nat, base: bytes, x: Source, all: seq<Response>, limit: nat,
      floor: int, known: bool) {
    forall i | n <= i < |ws| ::
      && ws[i].unread <= limit && (!known ==> floor < ws[i].unread)
      && (!known ==> ws[i].written == base + EncodeAll(if ws[i].again then all else Arrived(x, ws[i].unread)))
  }

  ghost predicate NoneAgain(ws: seq<Wait>, n: nat) {
    forall i | n <= i < |ws| :: !ws[i].again
  }

  lemma NoWaits(ws: seq<Wait>, base: bytes, x: Source, limit: nat, floor: int, known: bool)
    ensures AnsweredFrom(ws, |ws|, base, x, [], limit, floor, known) && NoneAgain(ws, |ws|)
  {
  }

  /** Where the waits lie that come with a frame. */
  function Floor(f: Frame): int {
    if f.Run? || (f.Reply? && f.rest != []) then |f.rest| else -1
  }

  /** One more frame, before the end of the stream is known. */
  lemma AnsweredMore(ws: seq<Wait>, more: seq<Wait>, n: nat, base: bytes, start: Source, x: Source, sent: seq<Response>,
                     limit: nat, unread: nat, floor: int, known: bool)
    requires n <= |ws| && ws <= more && unread <= limit && unread <= |x.stream| && Floor(Taken(x)) <= floor
    requires !known ==> Ahead(start, x, sent)
    requires AnsweredFrom(ws, n, base, start, [], limit, floor, known) && (!known ==> NoneAgain(ws, n))
    requires WaitedFrom(more, |ws|, base + EncodeAll(sent), TargetOf(Taken(x)), unread, known)
    requires Finished(x) ==> forall i | |ws| <= i < |more| :: more[i].unread > 0
    ensures AnsweredFrom(more, n, base, start, [], limit, Floor(Taken(x)), known) && (!known ==> NoneAgain(more, n))
  {
    hide Arrived, EncodeAll, Finished, Taken, Ahead;
    forall i | n <= i < |more|
      ensures more[i].unread <= limit
      ensures !known ==> Floor(Taken(x)) < more[i].unread && !more[i].again
      ensures !known ==> more[i].written == base + EncodeAll(Arrived(start, more[i].unread))
    {
      if i < |ws| {
        assert more[i] == ws[i];
      } else if !known {
        WaitIsBefore(start, x, sent, more[i].unread);
      }
    }
  }

  lemma WaitIsBefore(start: Source, x: Source, sent: seq<Response>, unread: nat)
    requires Ahead(start, x, sent) && unread <= |x.stream|
    requires unread > 0 ==> TargetOf(Taken(x)) < unread
    requires Finished(x) ==> unread > 0
    ensures Arrived(start, unread) == sent && Floor(Taken(x)) < unread
  {
    hide Arrived, Finished, Taken, Ahead;
    if unread == 0 && Floor(Taken(x)) >= 0 {
      MoreMeansFinished(x);
    }
    AheadStays(start, x, sent, unread);
  }

  /** The bound on the waits of a frame that still have bytes to come. */
  function TargetOf(f: Frame): int {
    if f.Reply? || f.Run? then |f.rest| else 0
  }

  /** After the end of the stream is known there is one more wait, with everything sent. */
  lemma AnsweredLast(ws: seq<Wait>, more: seq<Wait>, n: nat, base: bytes, start: Source, sent: seq<Response>,
                     limit: nat, unread: nat, floor: int)
    requires n <= |ws| && ws <= more && unread <= limit
    requires AnsweredFrom(ws, n, base, start, [], limit, floor, false) && NoneAgain(ws, n)
    requires WaitedFrom(more, |ws|, base + EncodeAll(sent), 0, unread, true)
    ensures AnsweredFrom(more, n, base, start, sent, limit, -1, false)
  {
    hide Arrived, EncodeAll;
    forall i | n <= i < |more|
      ensures more[i].unread <= limit
      ensures more[i].written == base + EncodeAll(if more[i].again then sent else Arrived(start, more[i].unread))
    {
      if i < |ws| {
        assert more[i] == ws[i];
      }
    }
  }

  lemma AnsweredSame(ws: seq<Wait>, n: nat, base: bytes, start: Source, all: seq<Response>, limit: nat, floor: int,
      known: bool)
    requires AnsweredFrom(ws, n, base, start, [], limit, floor, known) && (!known ==> NoneAgain(ws, n))
    ensures AnsweredFrom(ws, n, base, start, all, limit, floor, known)
  {
  }

  /** What one call of ReadCommand reports for a decoded stretch of input. */
  function OutcomeOf(f: Frame): Outcome {
    match f
    case Run(c, _) => Got(c)
    case Truncated(_) => IoError
    case _ => Ended
  }

  class Connection {
    const reader: Reader
    const writer: Writer
    var buffer: bytes
    ghost var waits: seq<Wait>

    constructor (reader: Reader, writer: Writer)
      requires reader.readCount == 0 && !reader.ended
      ensures this.reader == reader && this.writer == writer
      ensures buffer == [] && waits == [] && Valid()
    {
      this.reader, this.writer := reader, writer;
      buffer := [];
      waits := [];
    }

    /** All bytes the connection has still to interpret, buffered or not yet read. */
    ghost function Stream(): bytes
      reads this, reader
    {
      buffer + reader.input
    }

    /** Every read so far was a wait at which the client had been sent all it was owed. */
    ghost predicate Valid()
      reads this, reader
    {
      |waits| == reader.readCount && Prompt(waits) && (reader.ended ==> reader.input == [])
    }

    /** Without a wait there is no flush: what fits the writer's buffer stays in it. */
    twostate predicate Extends()
      reads this, reader, writer
    {
      && old(waits) <= waits && (old(reader.ended) ==> reader.ended)
      && (waits == old(waits) ==> writer.KeptBack())
    }

    /** The stream with what is known of its reads to come. */
    ghost function Source(): Source
      reads this, reader
    {
      SourceAt(Stream(), |reader.input|, reader.sizes)
    }

    /** Nothing was written before the new waits, which came before the last bytes up to `target` had arrived. */
    twostate predicate Waited(target: int)
      reads this, reader, writer
    {
      WaitedFrom(waits, |old(waits)|, old(writer.Written()), target, |old(reader.input)|, old(reader.ended))
    }

    /** And none of them was in an overlong line. */
    twostate predicate WaitedPlainly(target: int)
      reads this, reader, writer
    {
      PlainFrom(waits, |old(waits)|, old(writer.Written()), target, |old(reader.input)|, old(reader.ended))
    }

    /** All of them were. */
    twostate predicate Skipped(target: int)
      reads this, reader, writer
    {
      SkipFrom(waits, |old(waits)|, old(writer.Written()), old(writer.delivered), target, |old(reader.input)|,
               old(reader.ended))
    }

    /** The new waits came at the positions of `course`. */
    twostate predicate Took(course: Reads)
      reads this, reader
    {
      OnCourse(waits, |old(waits)|, course, Reads([], |reader.input|, reader.sizes))
    }

    /** So far the new waits came at the first positions of `course`; `ahead` is to come. */
    twostate predicate Follows(course: Reads, ahead: Reads)
      reads this, reader
    {
      OnCourse(waits, |old(waits)|, course, ahead)
    }

    /** The writer's buffer is empty exactly when nothing has been written since the last flush. */
    twostate predicate Settles()
      reads this, writer
    {
      Settled(waits, |old(waits)|, writer.pending, writer.Written(), old(writer.Written()), old(writer.pending) == [])
    }

    /**
     * In an overlong line, too, the client has been sent everything exactly when nothing was written since the
     * last flush.
     */
    twostate predicate Tells()
      reads this, writer
    {
      Told(waits, |old(waits)|, old(writer.Written()), old(writer.pending) == [])
    }

    /** At each new wait the replies due by then, and no others, had been written. */
    twostate predicate Answered(x: Source, all: seq<Response>, floor: int)
      reads this, reader, writer
    {
      AnsweredFrom(waits, |old(waits)|, old(writer.Written()), x, all, |old(reader.input)|, floor, old(reader.ended))
    }

    /** Nothing was read. */
    twostate predicate Idle()
      reads this, reader
    {
      waits == old(waits) && reader.input == old(reader.input)
    }

    /** A read of the socket, recorded as a wait. */
    method Receive(spare: nat, skippingLine: bool) returns (chunk: bytes)
      requires Valid() && (skippingLine || writer.pending == [])
      modifies this`waits, reader
      ensures Valid()
      ensures waits == old(waits) + [Wait(writer.Written(), writer.delivered, |old(reader.input)|, skippingLine,
          old(reader.ended))]
      ensures reader.ended == (old(reader.ended) || old(reader.input) == [])
      ensures chunk == old(reader.input)[..ReadSize(|old(reader.input)|, old(reader.sizes), spare)]
      ensures reader.input == old(reader.input)[|chunk|..] && reader.sizes == Later(old(reader.sizes))
    {
      waits := waits + [Wait(writer.Written(), writer.delivered, |reader.input|, skippingLine, reader.ended)];
      chunk := reader.ReadBuf(spare);
    }

    method FillBuffer() returns (n: nat)
      requires Valid()
      modifies this, reader, writer
      ensures n == ReadSize(|old(reader.input)|, old(reader.sizes), |old(reader.input)|)
      ensures buffer == old(buffer) + old(reader.input)[..n]
      ensures reader.input == old(reader.input)[n..] && reader.sizes == Later(old(reader.sizes))
      ensures Stream() == old(Stream())
      ensures writer.Written() == old(writer.Written()) && writer.pending == []
      ensures waits == old(waits) + [Wait(writer.Written(), writer.Written(), |old(reader.input)|, false,
          old(reader.ended))]
      ensures reader.ended == (old(reader.ended) || old(reader.input) == [])
      ensures Valid() && Extends()
    {
      writer.Flush();
      var chunk := Receive(|reader.input|, false);
      n := |chunk|;
      buffer := buffer + chunk;
    }

    /** FillBuffer in a loop that needs more than `goal` bytes to be read, if there are any. */
    method FillMore(ghost n: nat, ghost target: int, ghost most: nat, ghost course: Reads, ghost goal: nat,
        ghost limit: int, ghost on: bool) returns (count: nat)
      requires Valid() && n <= |waits| && |reader.input| <= most && (|reader.input| > 0 ==> target < |reader.input|)
      requires PlainFrom(waits, n, writer.Written(), target, most, reader.ended)
      requires on ==> limit < |reader.input| && goal < |reader.input|
      requires on ==> OnCourse(waits, n, course, Pull(|reader.input|, reader.sizes, goal, false, limit))
      modifies this, reader, writer
      ensures count == ReadSize(|old(reader.input)|, old(reader.sizes), |old(reader.input)|)
      ensures buffer == old(buffer) + old(reader.input)[..count]
      ensures reader.input == old(reader.input)[count..] && reader.sizes == Later(old(reader.sizes))
      ensures Stream() == old(Stream())
      ensures count > 0 ==> reader.ended == old(reader.ended)
      ensures writer.Written() == old(writer.Written()) && writer.pending == []
      ensures |waits| > |old(waits)| && PlainFrom(waits, n, writer.Written(), target, most, old(reader.ended))
      ensures on ==> OnCourse(waits, n, course, Pull(|reader.input|, reader.sizes, goal, false, limit))
      ensures Valid() && Extends()
    {
      hide PlainFrom, OnCourse, Pull, Prompt, ReadSize, Later;
      ghost var w := Wait(writer.Written(), writer.Written(), |reader.input|, false, reader.ended);
      OneWait(waits, w, n, target, most);
      if on {
        CourseStep(waits, w, n, course, |reader.input|, reader.sizes, goal, false, limit);
      }
      count := FillBuffer();
    }

    method ReadLine() returns (r: LineResult)
      requires Valid()
      modifies this, reader, writer
      ensures match r
              case Line(line) =>
                var p := Find(old(Stream()), '\n');
                p < |old(Stream())| && line == TrimEnd(old(Stream())[..p + 1]) && Stream() == old(Stream())[p + 1..]
              case TooLong =>
                Stream() == old(Stream()) && |Stream()| >= MAX_LINE_LEN
                && (MayRefuse(Stream()) || Find(Stream(), '\n') == |Stream()|)
              case Eof =>
                Stream() == old(Stream()) == buffer && reader.input == []
                && Find(Stream(), '\n') == |Stream()| < MAX_LINE_LEN && writer.pending == []
      ensures Find(old(Stream()), '\n') < |old(buffer)| ==> Idle()
      ensures r.TooLong? ==> Find(old(Stream()), '\n') >= |old(buffer)|
      ensures r.Line? && Find(old(Stream()), '\n') >= |old(buffer)| ==> |Stream()| < |old(reader.input)|
      ensures r.Line? ==> Stream() == AfterLine(old(Stream()))
      ensures |reader.input| <= |old(reader.input)| && WaitedPlainly(|AfterLine(old(Stream()))|)
      ensures !r.Eof? ==> reader.ended == old(reader.ended)
      ensures r.TooLong? ==> |reader.input| + MAX_LINE_LEN <= |old(Stream())|
      ensures Find(old(Stream()), '\n') < |old(Stream())| && !r.Eof? ==>
                Follows(LineReads(old(Source())),
                        Pull(|reader.input|, reader.sizes, |AfterLine(old(Stream()))|, false,
                            |old(Stream())| - MAX_LINE_LEN))
      ensures r.Line? ==> |reader.input| <= |AfterLine(old(Stream()))|
      ensures r.TooLong? ==> Find(old(Stream()), '\n') == |old(Stream())| || |reader.input| > |AfterLine(old(Stream()))|
      ensures writer.pending == if waits == old(waits) then old(writer.pending) else []
      ensures writer.Written() == old(writer.Written())
      ensures Valid() && Extends()
    {
      hide TrimEnd, ReadSize, Prompt, Find, PlainFrom, Pull, OnCourse, AfterLine, LineReads, SourceAt, Later;
      ghost var n, goal, limit := |waits|, |AfterLine(Stream())|, |Stream()| - MAX_LINE_LEN;
      ghost var course := Pull(|reader.input|, reader.sizes, goal, false, limit);
      CourseStart(waits, course);
      LineCourse(Stream(), |reader.input|, reader.sizes);
      NoWait(waits, writer.Written(), writer.delivered, goal, |reader.input|, reader.ended);
      while true
        invariant Stream() == old(Stream())
        invariant (buffer == old(buffer) && Idle()) || Find(Stream(), '\n') >= |old(buffer)|
        invariant |reader.input| <= |old(reader.input)| && WaitedPlainly(goal)
        invariant Find(Stream(), '\n') < |Stream()| ==>
                    OnCourse(waits, n, course, Pull(|reader.input|, reader.sizes, goal, false, limit))
        invariant reader.ended == old(reader.ended)
        invariant writer.pending == if waits == old(waits) then old(writer.pending) else []
        invariant writer.Written() == old(writer.Written())
        invariant Valid() && Extends()
        decreases |reader.input|
      {
        var line := TakeLine();
        if line.Some? {
          return Line(line.value);
        }
        SkipPlain(buffer, reader.input);
        AfterShrinks(reader.input);
        if |buffer| >= MAX_LINE_LEN {
          return TooLong;
        }
        var count := FillMore(n, goal, |old(reader.input)|, course, goal, limit, Find(Stream(), '\n') < |Stream()|);
        if count == 0 {
          assert Stream() == buffer;
          return Eof;
        }
      }
    }

    /** The first line of the buffer, when it holds one. */
    method TakeLine() returns (line: Option<bytes>)
      modifies this`buffer
      ensures line == None ==> buffer == old(buffer) && Find(buffer, '\n') == |buffer|
      ensures line.Some? ==>
                var p := Find(old(Stream()), '\n');
                && p < |old(buffer)| && line.value == TrimEnd(old(Stream())[..p + 1])
                && Stream() == old(Stream())[p + 1..] == AfterLine(old(Stream())) && |reader.input| <= |Stream()|
    {
      hide TrimEnd;
      var pos := Find(buffer, '\n');
      if pos == |buffer| {
        return None;
      }
      FindInFront(buffer, reader.input);
      line := Some(TrimEnd(buffer[..pos + 1]));
      buffer := buffer[pos + 1..];
    }

    method ReadPayload(len: nat) returns (r: PayloadResult)
      requires Valid()
      modifies this, reader, writer
      ensures match r
              case Data(data) =>
                |old(Stream())| >= len + 2 && data == old(Stream())[..len]
                && old(Stream())[len..len + 2] == CRLF && Stream() == old(Stream())[len + 2..]
              case BadChunk =>
                |old(Stream())| >= len + 2 && old(Stream())[len..len + 2] != CRLF
                && Stream() == old(Stream())[len + 2..]
              case UnexpectedEof =>
                |old(Stream())| < len + 2 && Stream() == Drop(old(Stream()), len) && writer.pending == []
      ensures len + 2 <= |old(buffer)| ==> Idle()
      ensures |reader.input| <= |old(reader.input)| && WaitedPlainly(|old(Stream())| - len - 2)
      ensures !r.UnexpectedEof? ==> reader.ended == old(reader.ended)
      ensures !r.UnexpectedEof? ==> Took(BlockReads(|old(Stream())|, len, |old(reader.input)|, old(reader.sizes)))
      ensures writer.pending == if waits == old(waits) then old(writer.pending) else []
      ensures writer.Written() == old(writer.Written())
      ensures Valid() && Extends()
    {
      hide PlainFrom, Prompt, OnCourse, BlockReads;
      ghost var s := Stream();
      var data, filled := FillBlock(len);
      if !filled {
        return UnexpectedEof;
      }
      AfterBlock(s, data, buffer, reader.input);
      var crlfOk := buffer[..2] == CRLF;
      buffer := buffer[2..];
      r := if crlfOk then Data(data) else BadChunk;
    }

    /** The loops of ReadPayload: first the data is completed, then the terminator is waited for. */
    method FillBlock(len: nat) returns (data: bytes, filled: bool)
      requires Valid()
      modifies this, reader, writer
      ensures if filled then |data| == len && |buffer| >= 2 && data + Stream() == old(Stream())
              else |old(Stream())| < len + 2 && Stream() == Drop(old(Stream()), len) && writer.pending == []
      ensures len + 2 <= |old(buffer)| ==> Idle()
      ensures |reader.input| <= |old(reader.input)| && WaitedPlainly(|old(Stream())| - len - 2)
      ensures filled ==> reader.ended == old(reader.ended)
      ensures filled ==> Took(BlockReads(|old(Stream())|, len, |old(reader.input)|, old(reader.sizes)))
      ensures writer.pending == if waits == old(waits) then old(writer.pending) else []
      ensures writer.Written() == old(writer.Written())
      ensures Valid() && Extends()
    {
      hide PlainFrom, Prompt, OnCourse, Pull, BlockReads, Drop, Monus, Later, ReadSize;
      ghost var s, start, unread, sizes, again := Stream(), waits, |reader.input|, reader.sizes, reader.ended;
      var fromBuffer := Min(|buffer|, len);
      data := buffer[..fromBuffer];
      buffer := buffer[fromBuffer..];
      CutAt(old(buffer), fromBuffer, reader.input);
      hide Stream;
      data, filled := FillData(data, len);
      ghost var mid, left1, sizes1, goal := waits, |reader.input|, reader.sizes, |s| - len - 2;
      Nearer(mid, |start|, writer.Written(), |s| - len, goal, unread, again);
      if filled {
        filled := FillTerminator();
        MoreWaits(mid, waits, |start|, writer.Written(), goal, goal, goal, unread, left1, again);
        if filled {
          BlockCourse(start, mid, waits, |s|, len, unread, sizes, left1, sizes1, |reader.input|, reader.sizes);
        } else {
          NothingLeft(s, data, Stream(), len);
        }
      } else {
        NothingLeft(s, data, Stream(), len);
      }
    }

    /** The second loop of ReadPayload: the terminator comes through the buffer. */
    method FillTerminator() returns (filled: bool)
      requires Valid()
      modifies this, reader, writer
      ensures Stream() == old(Stream())
      ensures if filled then |buffer| >= 2 else |Stream()| < 2 && writer.pending == []
      ensures |old(buffer)| >= 2 ==> Idle()
      ensures |reader.input| <= |old(reader.input)| && WaitedPlainly(|old(Stream())| - 2)
      ensures filled ==> reader.ended == old(reader.ended)
      ensures filled ==> Took(Pull(|old(reader.input)|, old(reader.sizes), Monus(|old(Stream())|, 2), false, NO_LIMIT))
      ensures writer.pending == if waits == old(waits) then old(writer.pending) else []
      ensures writer.Written() == old(writer.Written())
      ensures Valid() && Extends()
    {
      hide PlainFrom, Prompt, OnCourse, Pull;
      ghost var n, goal := |waits|, Monus(|Stream()|, 2);
      ghost var course := Pull(|reader.input|, reader.sizes, goal, false, NO_LIMIT);
      CourseStart(waits, course);
      NoWait(waits, writer.Written(), writer.delivered, |Stream()| - 2, |reader.input|, reader.ended);
      while |buffer| < 2
        invariant Stream() == old(Stream())
        invariant |old(buffer)| >= 2 ==> Idle() && |buffer| >= 2
        invariant |reader.input| <= |old(reader.input)| && WaitedPlainly(|old(Stream())| - 2)
        invariant |Stream()| >= 2 ==> OnCourse(waits, n, course,
            Pull(|reader.input|, reader.sizes, goal, false, NO_LIMIT))
        invariant reader.ended == old(reader.ended)
        invariant writer.pending == if waits == old(waits) then old(writer.pending) else []
        invariant writer.Written() == old(writer.Written())
        invariant Valid() && Extends()
        decreases |reader.input|
      {
        var count := FillMore(n, |old(Stream())| - 2, |old(reader.input)|, course, goal, NO_LIMIT, |Stream()| >= 2);
        if count == 0 {
          return false;
        }
      }
      PullDone(|reader.input|, reader.sizes, goal, false, NO_LIMIT);
      filled := true;
    }

    /** The first loop of ReadPayload: the rest of the data comes straight from the reader. */
    method FillData(start: bytes, len: nat) returns (data: bytes, filled: bool)
      requires Valid() && |start| <= len && (|start| < len ==> buffer == [])
      modifies this`waits, reader, writer
      ensures data + Stream() == start + old(Stream())
      ensures |start| == len ==> filled && Idle()
      ensures if filled then |data| == len else |data| < len && Stream() == [] && writer.pending == []
      ensures |reader.input| <= |old(reader.input)| && WaitedPlainly(|start| + |old(Stream())| - len)
      ensures filled ==> reader.ended == old(reader.ended)
      ensures filled ==>
                Took(Pull(|old(reader.input)|, old(reader.sizes), Monus(|start| + |old(Stream())|, len), true,
                    NO_LIMIT))
      ensures writer.pending == if waits == old(waits) then old(writer.pending) else []
      ensures writer.Written() == old(writer.Written())
      ensures Valid() && Extends()
    {
      hide PlainFrom, Prompt, OnCourse, Pull, ReadSize;
      data := start;
      ghost var n, total, target := |waits|, |start| + |Stream()|, |start| + |Stream()| - len;
      ghost var goal := Monus(total, len);
      ghost var course := Pull(|reader.input|, reader.sizes, goal, true, NO_LIMIT);
      CourseStart(waits, course);
      NoWait(waits, writer.Written(), writer.delivered, target, |reader.input|, reader.ended);
      while |data| < len
        invariant |data| <= len && data + Stream() == start + old(Stream())
        invariant |start| == len ==> Idle()
        invariant |data| < len ==> buffer == []
        invariant |reader.input| <= |old(reader.input)| && WaitedPlainly(target)
        invariant total >= len ==> OnCourse(waits, n, course, Pull(|reader.input|, reader.sizes, goal, true, NO_LIMIT))
        invariant reader.ended == old(reader.ended)
        invariant writer.pending == if waits == old(waits) then old(writer.pending) else []
        invariant writer.Written() == old(writer.Written())
        invariant Valid() && Extends()
        decreases len - |data|
      {
        writer.Flush();
        ghost var w := Wait(writer.Written(), writer.delivered, |reader.input|, false, reader.ended);
        OneWait(waits, w, n, target, |old(reader.input)|);
        if total >= len {
          CourseStep(waits, w, n, course, |reader.input|, reader.sizes, goal, true, NO_LIMIT);
        }
        ghost var input := reader.input;
        var chunk := Receive(len - |data|, false);
        if chunk == [] {
          return data, false;
        }
        ChunkMoves(data, input, |chunk|);
        data := data + chunk;
      }
      PullDone(|reader.input|, reader.sizes, goal, true, NO_LIMIT);
      filled := true;
    }

    method DiscardExact(n: nat)
      requires Valid()
      modifies this, reader, writer
      ensures Stream() == Drop(old(Stream()), n)
      ensures n <= |old(buffer)| ==> Idle()
      ensures |reader.input| <= |old(reader.input)| && WaitedPlainly(|old(Stream())| - n)
      ensures n <= |old(Stream())| ==>
                Took(Pull(|old(reader.input)|, old(reader.sizes), Monus(|old(Stream())|, n), true, NO_LIMIT))
      ensures if n <= |old(Stream())| then reader.ended == old(reader.ended) else reader.ended
      ensures writer.pending == if waits == old(waits) then old(writer.pending) else []
      ensures writer.Written() == old(writer.Written())
      ensures Valid() && Extends()
    {
      hide PlainFrom, OnCourse, Pull, Prompt;
      var fromBuffer := Min(|buffer|, n);
      buffer := buffer[fromBuffer..];
      var left := n - fromBuffer;
      if left == 0 {
        PullDone(|reader.input|, reader.sizes, Monus(|old(Stream())|, n), true, NO_LIMIT);
        CourseStart(waits, Reads([], |reader.input|, reader.sizes));
        NoWait(waits, writer.Written(), writer.delivered, |old(Stream())| - n, |reader.input|, reader.ended);
      } else {
        writer.Flush();
        CopyToSink(left);
      }
    }

    /** Discards up to `n` bytes straight from the reader, which is sound because the buffer is empty. */
    method CopyToSink(n: nat)
      requires Valid() && buffer == [] && writer.pending == []
      modifies this`waits, reader
      ensures reader.input == Drop(old(reader.input), n)
      ensures old(waits) <= waits && WaitedPlainly(|old(reader.input)| - n)
      ensures n <= |old(reader.input)| ==>
                Took(Pull(|old(reader.input)|, old(reader.sizes), Monus(|old(reader.input)|, n), true, NO_LIMIT))
      ensures if n <= |old(reader.input)| then reader.ended == old(reader.ended) else reader.ended
      ensures Valid() && (n > 0 ==> old(waits) < waits)
    {
      hide PlainFrom, OnCourse, Pull, Prompt, ReadSize;
      var left := n;
      ghost var goal, first, target := Monus(|reader.input|, n), |waits|, |reader.input| - n;
      ghost var course := Pull(|reader.input|, reader.sizes, goal, true, NO_LIMIT);
      CourseStart(waits, course);
      NoWait(waits, writer.Written(), writer.delivered, target, |reader.input|, reader.ended);
      while left > 0
        invariant 0 <= left <= n
        invariant Drop(reader.input, left) == Drop(old(reader.input), n)
        invariant |old(reader.input)| - |reader.input| == n - left && WaitedPlainly(target)
        invariant n <= |old(reader.input)| ==>
                    OnCourse(waits, first, course, Pull(|reader.input|, reader.sizes, goal, true, NO_LIMIT))
        invariant reader.ended == old(reader.ended)
        invariant Valid() && old(waits) <= waits && (left < n ==> old(waits) < waits)
        decreases left
      {
        ghost var w := Wait(writer.Written(), writer.delivered, |reader.input|, false, reader.ended);
        OneWait(waits, w, first, target, |old(reader.input)|);
        if n <= |old(reader.input)| {
          CourseStep(waits, w, first, course, |reader.input|, reader.sizes, goal, true, NO_LIMIT);
        }
        var chunk := Receive(left, false);
        if chunk == [] {
          return;
        }
        left := left - |chunk|;
      }
      if n <= |old(reader.input)| {
        PullDone(|reader.input|, reader.sizes, goal, true, NO_LIMIT);
      }
    }

    /** No more than `limit` bytes are unread where the line became overlong. */
    method DiscardUntilNewline(ghost limit: int)
      requires Valid() && |reader.input| <= limit
      modifies this, reader
      ensures Stream() == AfterLine(old(Stream()))
      ensures |reader.input| <= |old(reader.input)| && Skipped(|AfterLine(old(Stream()))|)
      ensures if Find(old(Stream()), '\n') < |old(Stream())| then
                && Took(Pull(|old(reader.input)|, old(reader.sizes), |AfterLine(old(Stream()))|, false, limit))
                && reader.ended == old(reader.ended)
              else reader.ended
      ensures Valid() && Extends()
    {
      hide AfterLine, Find, Prompt, SkipFrom, OnCourse, Pull, ReadSize;
      ghost var target, n, goal := AfterLine(Stream()), |waits|, |AfterLine(Stream())|;
      ghost var ends := Find(Stream(), '\n') < |Stream()|;
      ghost var course := Pull(|reader.input|, reader.sizes, goal, false, limit);
      CourseStart(waits, course);
      NoWait(waits, writer.Written(), writer.delivered, goal, |reader.input|, reader.ended);
      while true
        invariant AfterLine(buffer + reader.input) == target
        invariant ends <==> Find(buffer + reader.input, '\n') < |buffer + reader.input|
        invariant |reader.input| <= |old(reader.input)| && Skipped(goal)
        invariant ends ==> OnCourse(waits, n, course, Pull(|reader.input|, reader.sizes, goal, false, limit))
        invariant reader.ended == old(reader.ended)
        invariant Valid() && Extends()
        decreases |reader.input|
      {
        var pos := Find(buffer, '\n');
        if pos < |buffer| {
          FindInFront(buffer, reader.input);
          PullDone(|reader.input|, reader.sizes, goal, false, limit);
          buffer := buffer[pos + 1..];
          return;
        }
        SkipPlain(buffer, reader.input);
        AfterShrinks(reader.input);
        buffer := [];
        ghost var input := reader.input;
        ghost var w := Wait(writer.Written(), writer.delivered, |reader.input|, true, reader.ended);
        OneSkip(waits, w, n, goal, |old(reader.input)|);
        if ends {
          CourseStep(waits, w, n, course, |reader.input|, reader.sizes, goal, false, limit);
        }
        buffer := Receive(|reader.input|, true);
        assert buffer + reader.input == input;
        if buffer == [] {
          NothingAfter();
          return;
        }
      }
    }

    method WriteResponse(resp: Response)
      modifies writer
      ensures writer.Written() == old(writer.Written()) + Encode(resp)
      ensures writer.KeptBack() && writer.pending != []
    {
      hide ReplyLine, EncodeValues, EncodeStats;
      if resp.Values? {
        WriteValues(resp.values);
        WriteLast(END);
      } else if resp.StatsReport? {
        WriteStats(resp.entries);
        WriteLast(END);
      } else {
        writer.WriteAll(ReplyLine(resp));
        WriteLast(CRLF);
      }
    }

    /** The few bytes that end a response stay in the writer's buffer. */
    method WriteLast(b: bytes)
      requires 0 < |b| < BUF_CAPACITY
      modifies writer
      ensures writer.Written() == old(writer.Written()) + b
      ensures writer.KeptBack() && writer.pending != []
    {
      writer.WriteAll(b);
    }

    method WriteValues(values: seq<Value>)
      modifies writer
      ensures writer.Written() == old(writer.Written()) + EncodeValues(values)
      ensures writer.KeptBack()
    {
      hide EncodeValue;
      for i := 0 to |values|
        invariant writer.Written() + EncodeValues(values[i..]) == old(writer.Written()) + EncodeValues(values)
        invariant writer.KeptBack()
      {
        WriteValue(values[i]);
        assert values[i..][1..] == values[i + 1..];
      }
    }

    method WriteStats(entries: seq<(bytes, bytes)>)
      modifies writer
      ensures writer.Written() == old(writer.Written()) + EncodeStats(entries)
      ensures writer.KeptBack()
    {
      hide EncodeStat;
      for i := 0 to |entries|
        invariant writer.Written() + EncodeStats(entries[i..]) == old(writer.Written()) + EncodeStats(entries)
        invariant writer.KeptBack()
      {
        WriteStat(entries[i]);
        assert entries[i..][1..] == entries[i + 1..];
      }
    }

    method WriteValue(v: Value)
      modifies writer
      ensures writer.Written() == old(writer.Written()) + EncodeValue(v)
      ensures writer.KeptBack()
    {
      var header := ValueHeader(v);
      hide Spaced, HeaderWords;
      writer.WriteAll(header);
      writer.WriteAll(v.data);
      writer.WriteAll(CRLF);
    }

    method ValueHeader(v: Value) returns (header: bytes)
      ensures header == "VALUE" + Spaced(HeaderWords(v)) + CRLF
    {
      hide Decimal, Spaced, HeaderWords;
      header := "VALUE ";
      header := header + v.key + " " + Decimal(v.flags) + " " + Decimal(|v.data|);
      if v.cas.Some? {
        header := header + " " + Decimal(v.cas.value);
      }
      ValueHeaderBytes(v);
      header := header + CRLF;
    }

    method WriteStat(entry: (bytes, bytes))
      modifies writer
      ensures writer.Written() == old(writer.Written()) + EncodeStat(entry)
      ensures writer.KeptBack()
    {
      writer.WriteAll("STAT ");
      writer.WriteAll(entry.0);
      writer.WriteAll(" ");
      writer.WriteAll(entry.1);
      writer.WriteAll(CRLF);
    }

    /** The frame, and more when it is a reply, was in the buffer before anything was read. */
    ghost predicate Buffered(f: Frame, input: bytes) {
      |f.rest| >= |input| && ((f.Reply? && f.rest != []) || f.Run? || f.Left?)
    }

    /** Reads lines until one is a command; `d` is what was decoded on the way. */
    method ReadCommand() returns (r: Outcome, ghost d: Decoded)
      requires Valid()
      modifies this, reader, writer
      ensures d == Heard(old(Source())) && Stream() == d.last.rest && r == OutcomeOf(d.last)
      ensures Decodes(old(Stream()), d) && (ShortLines(old(Stream())) ==> d == DecodeNext(old(Stream())))
      ensures d.last.Run? ==> Source() == Beyond(old(Source())) && reader.ended == old(reader.ended)
      ensures d.last.Run? || d.last.Left? ==> |Stream()| < |old(Stream())|
      ensures writer.Written() == old(writer.Written()) + EncodeAll(d.replies)
      ensures d.last.Hangup? || d.last.Truncated? ==> writer.pending == []
      ensures (d.last.Run? || d.last.Left?) && |d.last.rest| >= |old(reader.input)| ==> Idle()
      ensures |reader.input| <= |old(reader.input)| && |reader.input| <= |Stream()|
      ensures Answered(old(Source()), d.replies, if d.last.Run? then |d.last.rest| else -1)
      ensures !old(reader.ended) && (d.last.Run? || d.last.Left?) ==> NoneAgain(waits, |old(waits)|)
      ensures d.last.Run? || d.last.Left? ==>
                Follows(StreamReads(old(Source())), if d.last.Run? then StreamReads(Source()) else Reads([], 0, []))
      ensures Settles() && Tells()
      ensures Valid() && Extends()
    {
      hide Decodes, DecodeNext, ShortLines, Encode, EncodeAll, Prompt, WaitedFrom, AnsweredFrom, NoneAgain, Settled,
          Told;
      hide Hearing, Heard, Beyond, OnCourse, StreamReads, FrameReads, Taken, Finished, CanYield;
      ghost var x0, n, base, limit, known := Source(), |waits|, writer.Written(), |reader.input|, reader.ended;
      ghost var clean := writer.pending == [];
      ghost var sent: seq<Response> := [];
      HearingStart(waits, base, x0, limit, known);
      SettledStart(waits, writer.pending, base);
      NothingEncoded();
      while true
        invariant |Stream()| <= |old(Stream())|
        invariant Stream() != [] && |Stream()| >= |old(reader.input)| ==> Idle()
        invariant writer.Written() == base + EncodeAll(sent)
        invariant |reader.input| <= limit
        invariant Hearing(waits, n, base, x0, Source(), sent, limit, known, reader.ended)
        invariant Settled(waits, n, writer.pending, writer.Written(), base, clean) && Told(waits, n, base, clean)
        invariant Valid() && Extends()
        decreases |Stream()|
      {
        ghost var x, before, unread, again := Source(), waits, |reader.input|, reader.ended;
        ghost var pending, written := writer.pending, writer.Written();
        var outcome;
        ghost var frame;
        outcome, frame := ReadFrame();
        SettledOn(before, waits, n, pending, writer.pending, written, writer.Written(), base, clean);
        ToldOn(before, waits, n, pending, written, base, clean);
        assert FrameRead(before, waits, base, x, sent, again, unread, |reader.input|, reader.sizes, reader.ended);
        TakenYields(x);
        FrameShrinks(x.stream, frame);
        if outcome.Some? {
          HearingEnd(before, waits, n, base, x0, x, sent, limit, known, again, unread, |reader.input|, reader.sizes,
                     reader.ended);
          d := Decoded(sent, frame);
          HeardDecodes(x0);
          if ShortLines(old(Stream())) {
            DecodingIsUnique(old(Stream()), d);
          }
          return outcome.value, d;
        }
        HearingMore(before, waits, n, base, x0, x, Source(), sent, limit, known, again, unread, |reader.input|,
            reader.sizes, reader.ended);
        OneEncoded(frame.response);
        EncodeAllConcat(sent, [frame.response]);
        sent := sent + [frame.response];
      }
    }

    /** One turn of the loop of ReadCommand: a line, and whatever belongs to it. */
    method ReadFrame() returns (r: Option<Outcome>, ghost f: Frame)
      requires Valid()
      modifies this, reader, writer
      ensures f == Taken(old(Source())) && Stream() == f.rest
      ensures r == if f.Reply? then None else Some(OutcomeOf(f))
      ensures f.Reply? || f.Run? ==> Source() == Past(old(Source()))
      ensures writer.Written() == old(writer.Written()) + (if f.Reply? then Encode(f.response) else [])
      ensures f.Hangup? || f.Truncated? ==> writer.pending == []
      ensures Buffered(f, old(reader.input)) ==> Idle()
      ensures |reader.input| <= |old(reader.input)| && Waited(TargetOf(f))
      ensures Finished(old(Source())) ==> Took(FrameReads(old(Source()))) && reader.ended == old(reader.ended)
      ensures f.Reply? && !Finished(old(Source())) ==> reader.ended
      ensures Settles() && Tells()
      ensures Valid() && Extends()
    {
      hide TrimEnd, Encode, Prompt, WaitedFrom, PlainFrom, Find, AfterLine, OnCourse, LineReads, Pull;
      hide Settled, Told, Taken, Finished, FrameReads, SourceAt, Past;
      ghost var x, start, pending, unread, again := Source(), waits, writer.pending, |reader.input|, reader.ended;
      ghost var s, written := Stream(), writer.Written();
      var read := ReadLine();
      SourceStream(s, unread, old(reader.sizes));
      match read
      case Eof =>
        EofTakes(x, start, waits, pending, writer.pending, written, unread, again);
        return Some(Ended), Hangup(x.stream);
      case TooLong =>
        f := RefuseLine(x, start, pending, unread, again);
        return None, f;
      case Line(line) =>
        r, f := FinishLine(line, x, start, pending, unread, again);
    }

    /** The waits so far have been for the line `x` begins with, which is read as far as `goal` requires. */
    ghost predicate LineRead(x: Source, start: seq<Wait>, pending: bytes, unread: nat, again: bool)
      reads this, reader, writer
    {
      && start <= waits && |reader.input| <= unread && reader.ended == again
      && PlainFrom(waits, |start|, writer.Written(), |AfterLine(x.stream)|, unread, again)
      && (Find(x.stream, '\n') < |x.stream| ==>
            OnCourse(waits, |start|, LineReads(x),
                     Pull(|reader.input|, reader.sizes, |AfterLine(x.stream)|, false, |x.stream| - MAX_LINE_LEN)))
      && writer.pending == if waits == start then pending else []
    }

    /** A frame `f` has been taken from `x` since the waits `start`, when `written` had been written. */
    ghost predicate FrameTaken(x: Source, f: Frame, start: seq<Wait>, pending: bytes, written: bytes, unread: nat,
        again: bool)
      reads this, reader, writer
    {
      && start <= waits && f == Taken(x) && Stream() == f.rest && |reader.input| <= unread
      && (f.Reply? || f.Run? ==> Source() == Past(x))
      && writer.Written() == written + (if f.Reply? then Encode(f.response) else [])
      && WaitedFrom(waits, |start|, written, TargetOf(f), unread, again)
      && (Finished(x) ==>
            OnCourse(waits, |start|, FrameReads(x), Reads([], |reader.input|, reader.sizes)) && reader.ended == again)
      && (f.Reply? && !Finished(x) ==> reader.ended)
      && Settled(waits, |start|, writer.pending, writer.Written(), written, pending == [])
      && Told(waits, |start|, written, pending == [])
    }

    method RefuseLine(ghost x: Source, ghost start: seq<Wait>, ghost pending: bytes, ghost unread: nat,
        ghost again: bool)
      returns (ghost f: Frame)
      requires Valid() && LineRead(x, start, pending, unread, again)
      requires Stream() == x.stream && |reader.input| + MAX_LINE_LEN <= |x.stream|
      requires Find(x.stream, '\n') == |x.stream| || |reader.input| > |AfterLine(x.stream)|
      modifies this, reader, writer
      ensures f.rest == [] || |f.rest| < |old(reader.input)|
      ensures f.Reply? && FrameTaken(x, f, start, pending, old(writer.Written()), unread, again)
      ensures Valid() && Extends()
    {
      hide Encode, Prompt, WaitedFrom, PlainFrom, SkipFrom, Find, AfterLine, NextFrame, LineFrame, TrimEnd;
      hide OnCourse, LineReads, Pull, Settled, Told, Refused, Taken, Finished, FrameReads, SourceAt, Past;
      ghost var mid, left, sizes := waits, |reader.input|, reader.sizes;
      ghost var between, delivered, written := writer.pending, writer.delivered, writer.Written();
      Refuse(|x.stream| - MAX_LINE_LEN);
      f := RefusedFrame(x.stream);
      RefusalTakes(x, start, mid, waits, left, sizes, |reader.input|, reader.sizes);
      LineOrNone(x.stream);
      EncodingsAreNotEmpty(LINE_TOO_LONG);
      RefusalSettles(start, mid, waits, pending, between, delivered, written, writer.pending, Encode(LINE_TOO_LONG),
                     |AfterLine(x.stream)|, unread, left, again);
    }

    method FinishLine(line: bytes, ghost x: Source, ghost start: seq<Wait>, ghost pending: bytes, ghost unread: nat,
                      ghost again: bool) returns (r: Option<Outcome>, ghost f: Frame)
      requires Valid() && LineRead(x, start, pending, unread, again)
      requires Find(x.stream, '\n') < |x.stream| && line == TrimEnd(x.stream[..Find(x.stream, '\n') + 1])
      requires Stream() == AfterLine(x.stream) && |reader.input| <= |Stream()|
      modifies this, reader, writer
      ensures FrameTaken(x, f, start, pending, old(writer.Written()), unread, again)
      ensures r == if f.Reply? then None else Some(OutcomeOf(f))
      ensures !f.Hangup? && |f.rest| <= |old(Stream())| && (f.Truncated? ==> writer.pending == [])
      ensures Buffered(f, old(reader.input)) ==> Idle()
      ensures Valid() && Extends()
    {
      hide TrimEnd, Encode, Prompt, WaitedFrom, PlainFrom, Find, AfterLine, NextFrame, LineFrame;
      hide OnCourse, LineReads, TailReads, Pull, Settled, Told, TailFinished, Refused, Taken, Finished, FrameReads,
          SourceAt, Past;
      ghost var mid, left, sizes, written := waits, |reader.input|, reader.sizes, writer.Written();
      r, f := FinishFrame(line);
      LineTakes(x, start, mid, waits, line, f, written, unread, again, left, sizes, |reader.input|, reader.sizes);
      ghost var reply := if f.Reply? then Encode(f.response) else [];
      if f.Reply? {
        EncodingsAreNotEmpty(f.response);
      }
      PlainSettles(start, waits, pending, writer.pending, written, reply, TargetOf(f), unread, again);
    }

    /** An overlong line is dropped, and complained about. */
    method Refuse(ghost limit: int)
      requires Valid() && |reader.input| <= limit
      modifies this, reader, writer
      ensures Stream() == AfterLine(old(Stream()))
      ensures writer.Written() == old(writer.Written()) + Encode(LINE_TOO_LONG) && writer.pending != []
      ensures |reader.input| <= |old(reader.input)| && Skipped(|AfterLine(old(Stream()))|)
      ensures if Find(old(Stream()), '\n') < |old(Stream())| then
                && Took(Pull(|old(reader.input)|, old(reader.sizes), |AfterLine(old(Stream()))|, false, limit))
                && reader.ended == old(reader.ended)
              else reader.ended
      ensures Valid() && Extends()
    {
      hide Encode, Prompt, SkipFrom, AfterLine, OnCourse, Pull, Find;
      DiscardUntilNewline(limit);
      WriteResponse(LINE_TOO_LONG);
    }

    /** What belongs to a line has been read in the course of `course`, if it was there, and answered as `f` says. */
    ghost predicate TailTaken(f: Frame, course: Reads, finished: bool, start: seq<Wait>, pending: bytes, written: bytes,
                              unread: nat, again: bool)
      reads this, reader, writer
    {
      && start <= waits && Stream() == f.rest && |reader.input| <= unread
      && writer.Written() == written + (if f.Reply? then Encode(f.response) else [])
      && PlainFrom(waits, |start|, written, TargetOf(f), unread, again)
      && (finished ==>
            reader.ended == again && OnCourse(waits, |start|, course, Reads([], |reader.input|, reader.sizes)))
      && (f.Reply? && !finished ==> reader.ended)
      && (if f.Reply? then writer.pending != [] else writer.pending == if waits == start then pending else [])
    }

    /** A line that is no command: what it announces is skipped, and the error answered. */
    method Reject(error: ParseError) returns (ghost f: Frame)
      requires Valid()
      modifies this, reader, writer
      ensures f == Reply(error.Response(),
                         if error.discard.Some? then Drop(old(Stream()), error.discard.value) else old(Stream()))
      ensures TailTaken(f, if error.discard.Some?
                           then Pull(|old(reader.input)|, old(reader.sizes),
                               Monus(|old(Stream())|, error.discard.value), true, NO_LIMIT)
                           else Reads([], |old(reader.input)|, old(reader.sizes)),
                        error.discard.Some? ==> error.discard.value <= |old(Stream())|,
                        old(waits), old(writer.pending), old(writer.Written()), |old(reader.input)|, old(reader.ended))
      ensures Buffered(f, old(reader.input)) ==> Idle()
      ensures Valid() && Extends()
    {
      hide Encode, Prompt, OnCourse, Pull, PlainFrom, ParseError.Response;
      ghost var start, s, written, unread, again := waits, Stream(), writer.Written(), |reader.input|, reader.ended;
      f := Reply(error.Response(), if error.discard.Some? then Drop(s, error.discard.value) else s);
      if error.discard.Some? {
        DiscardExact(error.discard.value);
        Nearer(waits, |start|, written, |s| - error.discard.value, TargetOf(f), unread, again);
      } else {
        CourseStart(waits, Reads([], |reader.input|, reader.sizes));
        NoWait(waits, written, writer.delivered, TargetOf(f), unread, again);
      }
      WriteResponse(error.Response());
    }

    /** A storage command whose data block comes next. */
    method FinishStore(p: PendingStore) returns (r: Option<Outcome>, ghost f: Frame)
      requires Valid()
      modifies this, reader, writer
      ensures f == PayloadFrame(p, old(Stream())) && (r == if f.Reply? then None else Some(OutcomeOf(f)))
      ensures TailTaken(f, BlockReads(|old(Stream())|, p.len, |old(reader.input)|, old(reader.sizes)),
                        p.len + 2 <= |old(Stream())|,
                        old(waits), old(writer.pending), old(writer.Written()), |old(reader.input)|, old(reader.ended))
      ensures f.Truncated? ==> writer.pending == []
      ensures Buffered(f, old(reader.input)) ==> Idle()
      ensures Valid() && Extends()
    {
      hide Encode, Prompt, OnCourse, BlockReads, PlainFrom, PendingStore.IntoCommand;
      ghost var start, s, written, unread, again := waits, Stream(), writer.Written(), |reader.input|, reader.ended;
      f := PayloadFrame(p, s);
      var payload := ReadPayload(p.len);
      Nearer(waits, |start|, written, |s| - p.len - 2, TargetOf(f), unread, again);
      match payload
      case Data(data) =>
        return Some(Got(p.IntoCommand(data))), f;
      case BadChunk =>
        WriteResponse(BAD_DATA_CHUNK);
        return None, f;
      case UnexpectedEof =>
        return Some(IoError), f;
    }

    /** What follows the line of a frame. */
    method FinishFrame(line: bytes) returns (r: Option<Outcome>, ghost f: Frame)
      requires Valid()
      modifies this, reader, writer
      ensures f == LineFrame(line, old(Stream())) && (r == if f.Reply? then None else Some(OutcomeOf(f)))
      ensures TailTaken(f, TailReads(line, |old(Stream())|, |old(reader.input)|, old(reader.sizes)),
                        TailFinished(line, |old(Stream())|),
                        old(waits), old(writer.pending), old(writer.Written()), |old(reader.input)|, old(reader.ended))
      ensures f.Truncated? ==> writer.pending == []
      ensures Buffered(f, old(reader.input)) ==> Idle()
      ensures Valid() && Extends()
    {
      hide Header, Encode, Prompt, Fields, OnCourse, BlockReads, Pull, PlainFrom;
      ghost var size, written, unread, again := |Stream()|, writer.Written(), |reader.input|, reader.ended;
      f := LineFrame(line, Stream());
      CourseStart(waits, Reads([], |reader.input|, reader.sizes));
      NoWait(waits, written, writer.delivered, TargetOf(f), unread, again);
      var header := ParseCommandLine(line);
      if header.Err? {
        f := Reject(header.error);
        return None, f;
      }
      match header.value
      case Immediate(command) =>
        return Some(Got(command)), f;
      case Quit =>
        return Some(Ended), f;
      case Pending(p) =>
        r, f := FinishStore(p);
    }
  }

  // ---- What a frame is, by how its line was read ----

  lemma SourceStream(stream: bytes, unread: nat, sizes: seq<nat>)
    ensures SourceAt(stream, unread, sizes).stream == stream
  {
  }

  lemma EofTakes(x: Source, start: seq<Wait>, mid: seq<Wait>, before: bytes, pending: bytes, written: bytes,
                 unread: nat, again: bool)
    requires Find(x.stream, '\n') == |x.stream| < MAX_LINE_LEN && start <= mid
    requires PlainFrom(mid, |start|, written, |AfterLine(x.stream)|, unread, again)
    requires pending == if mid == start then before else []
    ensures Taken(x) == Hangup(x.stream) && !Finished(x)
    ensures WaitedFrom(mid, |start|, written, 0, unread, again)
    ensures Settled(mid, |start|, pending, written, written, before == []) && Told(mid, |start|, written, before == [])
  {
    hide LineFrame, TrimEnd, LineReads, Settled, Told;
    PlainSettles(start, mid, before, pending, written, [], |AfterLine(x.stream)|, unread, again);
    assert written + [] == written;
  }

  lemma RefusalTakes(x: Source, start: seq<Wait>, mid: seq<Wait>, end: seq<Wait>, left: nat, sizes: seq<nat>,
                     left1: nat, sizes1: seq<nat>)
    requires start <= mid && mid <= end && |x.stream| >= MAX_LINE_LEN && left + MAX_LINE_LEN <= |x.stream|
    requires Find(x.stream, '\n') < |x.stream| ==>
               && left > |AfterLine(x.stream)|
               && OnCourse(mid, |start|, LineReads(x),
                           Pull(left, sizes, |AfterLine(x.stream)|, false, |x.stream| - MAX_LINE_LEN))
               && OnCourse(end, |mid|, Pull(left, sizes, |AfterLine(x.stream)|, false, |x.stream| - MAX_LINE_LEN),
                           Reads([], left1, sizes1))
    ensures Taken(x) == RefusedFrame(x.stream)
    ensures Finished(x) <==> Find(x.stream, '\n') < |x.stream|
    ensures Finished(x) ==> OnCourse(end, |start|, FrameReads(x), Reads([], left1, sizes1))
    ensures SourceAt(AfterLine(x.stream), left1, sizes1) == Past(x)
  {
    hide Pull, NextFrame, AfterLine, TailReads, TailFinished;
    if Find(x.stream, '\n') < |x.stream| {
      var next := Pull(left, sizes, |AfterLine(x.stream)|, false, |x.stream| - MAX_LINE_LEN);
      LastSkips(x, mid, |start|, next);
      CourseAlong(mid, end, |start|, LineReads(x), next, Reads([], left1, sizes1));
    } else {
      LineOrNone(x.stream);
    }
  }

  lemma LastSkips(x: Source, ws: seq<Wait>, n: nat, next: Reads)
    requires OnCourse(ws, n, LineReads(x), next) && next.at != []
    requires next.at[|next.at| - 1].skipping
    ensures LineReads(x).at != [] && LineReads(x).at[|LineReads(x).at| - 1].skipping
  {
    hide LineReads;
    var at := LineReads(x).at;
    assert at[|ws| - n..][|next.at| - 1] == next.at[|next.at| - 1];
  }

  lemma NoSkips(x: Source, ws: seq<Wait>, n: nat, left: nat, sizes: seq<nat>)
    requires OnCourse(ws, n, LineReads(x), Reads([], left, sizes)) && Find(x.stream, '\n') < |x.stream|
    requires forall i | n <= i < |ws| :: !ws[i].skippingLine
    ensures !Refused(x)
  {
    hide LineReads;
    var at := LineReads(x).at;
    if at != [] {
      assert Stop(ws[|ws| - 1].unread, ws[|ws| - 1].skippingLine) == at[|at| - 1];
    }
  }

  lemma LineTakes(x: Source, start: seq<Wait>, mid: seq<Wait>, end: seq<Wait>, line: bytes, f: Frame, written: bytes,
                  unread: nat, again: bool, left: nat, sizes: seq<nat>, left1: nat, sizes1: seq<nat>)
    requires start <= mid && mid <= end && left <= unread && left <= |AfterLine(x.stream)|
    requires Find(x.stream, '\n') < |x.stream| && line == TrimEnd(x.stream[..Find(x.stream, '\n') + 1])
    requires f == LineFrame(line, AfterLine(x.stream))
    requires PlainFrom(mid, |start|, written, |AfterLine(x.stream)|, unread, again)
    requires PlainFrom(end, |mid|, written, TargetOf(f), left, again)
    requires OnCourse(mid, |start|, LineReads(x),
                      Pull(left, sizes, |AfterLine(x.stream)|, false, |x.stream| - MAX_LINE_LEN))
    requires TailFinished(line, |AfterLine(x.stream)|) ==>
               OnCourse(end, |mid|, TailReads(line, |AfterLine(x.stream)|, left, sizes), Reads([], left1, sizes1))
    ensures f == Taken(x) && (Finished(x) <==> TailFinished(line, |AfterLine(x.stream)|))
    ensures PlainFrom(end, |start|, written, TargetOf(f), unread, again)
    ensures WaitedFrom(end, |start|, written, TargetOf(f), unread, again)
    ensures Finished(x) ==> OnCourse(end, |start|, FrameReads(x), Reads([], left1, sizes1))
    ensures f.Reply? || f.Run? ==> SourceAt(f.rest, left1, sizes1) == Past(x)
  {
    var s, size := x.stream, |AfterLine(x.stream)|;
    hide LineReads, LineFrame, TrimEnd, TailReads, TailFinished, AfterLine, Pull, OnCourse, FrameReads, Refused;
    LineOrNone(s);
    assert FirstText(s) == line;
    PullDone(left, sizes, size, false, |s| - MAX_LINE_LEN);
    NoSkips(x, mid, |start|, left, sizes);
    MoreWaits(mid, end, |start|, written, size, TargetOf(f), TargetOf(f), unread, left, again);
    if Finished(x) {
      FrameCourse(start, mid, end, x, left, sizes, left1, sizes1);
      CourseLeft(end, |start|, FrameReads(x), left1, sizes1);
    } else if f.Reply? || f.Run? {
      if f.rest != [] || f.Run? {
        MoreMeansFinished(x);
      }
    }
  }

  lemma CourseLeft(ws: seq<Wait>, n: nat, total: Reads, left: nat, sizes: seq<nat>)
    requires OnCourse(ws, n, total, Reads([], left, sizes))
    ensures total.left == left && total.sizes == sizes
  {
  }

  // ---- Reading up to a command ----

  /** `sent` has been said of what there was before `x`, in step with what the stream from `start` on comes to. */
  ghost predicate Hearing(ws: seq<Wait>, n: nat, base: bytes, start: Source, x: Source, sent: seq<Response>, limit: nat,
                          known: bool, ended: bool)
  {
    && n <= |ws| && Heard(start) == Heard(x).After(sent) && Beyond(start) == Beyond(x)
    && AnsweredFrom(ws, n, base, start, [], limit, if x.stream != [] then |x.stream| else -1, known)
    && (!known ==> NoneAgain(ws, n))
    && (known ==> ended) && (!known && ended ==> x.stream == [])
    && (!known && !ended ==> Ahead(start, x, sent))
    && (x.stream != [] ==> OnCourse(ws, n, StreamReads(start), StreamReads(x)))
  }

  lemma HearingStart(ws: seq<Wait>, base: bytes, x: Source, limit: nat, known: bool)
    ensures Hearing(ws, |ws|, base, x, x, [], limit, known, known)
  {
    hide Heard, Beyond, Arrived, StreamReads;
    assert Heard(x).After([]) == Heard(x);
    AheadStart(x);
    CourseStart(ws, StreamReads(x));
  }

  /** What one call of ReadFrame leaves. */
  ghost predicate FrameRead(ws: seq<Wait>, more: seq<Wait>, base: bytes, x: Source, sent: seq<Response>, again: bool,
                            unread: nat, left1: nat, sizes1: seq<nat>, ended: bool)
  {
    && ws <= more && unread <= |x.stream| && (again ==> ended)
    && WaitedFrom(more, |ws|, base + EncodeAll(sent), TargetOf(Taken(x)), unread, again)
    && (Finished(x) ==> OnCourse(more, |ws|, FrameReads(x), Reads([], left1, sizes1)) && ended == again)
    && (Taken(x).Reply? && !Finished(x) ==> ended)
  }

  lemma StopsArePositive(ws: seq<Wait>, n: nat, x: Source, left: nat, sizes: seq<nat>)
    requires OnCourse(ws, n, FrameReads(x), Reads([], left, sizes))
    ensures forall i | n <= i < |ws| :: ws[i].unread > 0
  {
    hide FrameReads;
    FrameStops(x);
    forall i | n <= i < |ws| ensures ws[i].unread > 0 {
      assert Stop(ws[i].unread, ws[i].skippingLine) == FrameReads(x).at[i - n];
    }
  }

  lemma HearingMore(ws: seq<Wait>, more: seq<Wait>, n: nat, base: bytes, start: Source, x: Source, y: Source,
                    sent: seq<Response>, limit: nat, known: bool, again: bool, unread: nat, left1: nat,
                        sizes1: seq<nat>, ended: bool)
    requires Hearing(ws, n, base, start, x, sent, limit, known, again) && unread <= limit
    requires FrameRead(ws, more, base, x, sent, again, unread, left1, sizes1, ended)
    requires Taken(x).Reply? && y == Past(x)
    ensures Hearing(more, n, base, start, y, sent + [Taken(x).response], limit, known, ended)
  {
    hide AnsweredFrom, NoneAgain, Ahead, OnCourse, WaitedFrom, StreamReads, FrameReads, Taken, Finished, EncodeAll;
    var f := Taken(x);
    assert Heard(x) == Heard(y).After([f.response]);
    assert Heard(start) == Heard(y).After(sent + [f.response]) by {
      assert Heard(y).After([f.response]).After(sent) == Heard(y).After(sent + [f.response]);
    }
    if x.stream == [] {
      NothingTaken(x);
    }
    if Finished(x) {
      StopsArePositive(more, |ws|, x, left1, sizes1);
      StreamCourse(ws, more, n, StreamReads(start), x, left1, sizes1);
      if !known {
        AheadStep(start, x, sent);
      }
    } else if f.rest != [] {
      MoreMeansFinished(x);
    }
    AnsweredMore(ws, more, n, base, start, x, sent, limit, unread, |x.stream|, known);
  }

  lemma NothingTaken(x: Source)
    requires x.stream == []
    ensures Taken(x) == Hangup([]) && !Finished(x)
  {
    hide LineFrame, TrimEnd, TailFinished;
  }

  lemma HearingEnd(ws: seq<Wait>, more: seq<Wait>, n: nat, base: bytes, start: Source, x: Source, sent: seq<Response>,
                   limit: nat, known: bool, again: bool, unread: nat, left1: nat, sizes1: seq<nat>, ended: bool)
    requires Hearing(ws, n, base, start, x, sent, limit, known, again) && unread <= limit
    requires FrameRead(ws, more, base, x, sent, again, unread, left1, sizes1, ended)
    requires !Taken(x).Reply?
    ensures Heard(start) == Decoded(sent, Taken(x))
    ensures Taken(x).Run? ==> Beyond(start) == Past(x) && ended == known
    ensures AnsweredFrom(more, n, base, start, sent, limit, if Taken(x).Run? then |Taken(x).rest| else -1, known)
    ensures !known && (Taken(x).Run? || Taken(x).Left?) ==> NoneAgain(more, n)
    ensures Taken(x).Run? || Taken(x).Left? ==>
              OnCourse(more, n, StreamReads(start), if Taken(x).Run? then StreamReads(Past(x)) else Reads([], 0, []))
  {
    hide AnsweredFrom, NoneAgain, Ahead, OnCourse, WaitedFrom, StreamReads, FrameReads, Taken, Finished, EncodeAll;
    var f := Taken(x);
    assert Heard(x) == Decoded([], f) && Decoded([], f).After(sent) == Decoded(sent, f) by {
      assert sent + [] == sent;
    }
    if x.stream == [] {
      NothingTaken(x);
    }
    if f.Run? || f.Left? {
      MoreMeansFinished(x);
      StreamCourse(ws, more, n, StreamReads(start), x, left1, sizes1);
    }
    if Finished(x) {
      StopsArePositive(more, |ws|, x, left1, sizes1);
    }
    if !known && again {
      AnsweredLast(ws, more, n, base, start, sent, limit, unread, -1);
    } else {
      AnsweredMore(ws, more, n, base, start, x, sent, limit, unread, if x.stream != [] then |x.stream| else -1, known);
      AnsweredSame(more, n, base, start, sent, limit, Floor(f), known);
    }
  }

  /** The bytes of a stream after a block of known length are where the block ends. */
  lemma AfterBlock(s: bytes, block: bytes, buffer: bytes, input: bytes)
    requires s == block + (buffer + input) && |buffer| >= 2
    ensures var n := |block|;
            && |s| >= n + 2 && s[..n] == block && s[n..n + 2] == buffer[..2]
            && s[n + 2..] == buffer[2..] + input
  {
  }

  lemma NothingLeft(s: bytes, data: bytes, rest: bytes, len: nat)
    requires s == data + rest && (|data| == len || (|data| < len && rest == []))
    ensures rest == Drop(s, len)
  {
  }

  lemma CutAt(buffer: bytes, n: nat, input: bytes)
    requires n <= |buffer|
    ensures buffer[..n] + (buffer[n..] + input) == buffer + input
  {
  }

  lemma ChunkMoves(data: bytes, input: bytes, n: nat)
    requires n <= |input|
    ensures data + input[..n] + ([] + input[n..]) == data + ([] + input)
  {
  }

  lemma AfterShrinks(s: bytes)
    ensures s != [] ==> |AfterLine(s)| < |s|
    ensures s == [] ==> AfterLine(s) == []
  {
  }

  lemma NothingAfter()
    ensures AfterLine([]) == []
  {
  }

  /** The first frame of a stream is its first line and what belongs to it. */
  lemma LineOrNone(s: bytes)
    ensures var p := Find(s, '\n');
            if p < |s| then NextFrame(s) == LineFrame(TrimEnd(s[..p + 1]), AfterLine(s)) && AfterLine(s) == s[p + 1..]
            else AfterLine(s) == [] && NextFrame(s) == if |s| < MAX_LINE_LEN then Hangup(s) else RefusedFrame(s)
    ensures |AfterLine(s)| <= |s|
  {
    hide LineFrame, TrimEnd;
  }

  lemma FindInFront(a: bytes, b: bytes)
    requires Find(a, '\n') < |a|
    ensures var p := Find(a, '\n');
            Find(a + b, '\n') == p && (a + b)[..p + 1] == a[..p + 1] && (a + b)[p + 1..] == a[p + 1..] + b
    ensures AfterLine(a + b) == a[Find(a, '\n') + 1..] + b
  {
    assert forall i :: 0 <= i < |a| ==> (a + b)[i] == a[i];
  }

  /** Bytes without a newline can be dropped before looking for one. */
  lemma SkipPlain(a: bytes, b: bytes)
    requires Find(a, '\n') == |a|
    ensures Find(a + b, '\n') == |a| + Find(b, '\n')
    ensures AfterLine(a + b) == AfterLine(b)
  {
    var p := Find(b, '\n');
    assert forall i :: 0 <= i < |a| ==> (a + b)[i] == a[i];
    assert forall i :: 0 <= i < |b| ==> (a + b)[|a| + i] == b[i];
  }
}
