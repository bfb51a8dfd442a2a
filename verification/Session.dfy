// A whole session: read, handle, reply (src/session.rs), against an interpreter of the byte stream.
module Sessions {
  import opened Bytes
  import opened Commands
  import opened Tokens
  import opened Parser
  import opened Framing
  import opened Readings
  import opened Responses
  import opened Connections
  import opened Stores
  import opened Printer

  // Where an interpreter stands: the store, the clock, and how far the clock will move before
  // each of the coming commands.
  datatype Place = Place(store: Model, clock: nat, ticks: seq<nat>) {
    function Now(): nat {
      clock + Head(ticks)
    }

    function Then(m: Model): Place {
      Place(m, Now(), Later(ticks))
    }
  }

  function Head(ticks: seq<nat>): nat {
    if ticks == [] then 0 else ticks[0]
  }

  /** One command: the place after it, and what is sent back, which is nothing when no reply is wanted. */
  function RunOne(c: Command, p: Place): (Place, seq<Response>) {
    var (m, r) := Apply(p.store, c, p.Now());
    (p.Then(m), if c.NoReply() then [] else [r])
  }

  // What serving a stream amounts to: the responses sent, the store left behind, and how it ended.
  datatype Served = Served(replies: seq<Response>, store: Model, end: Frame) {
    function After(earlier: seq<Response>): Served {
      Served(earlier + replies, store, end)
    }
  }

  /** The interpreter: decode the next frame of the whole stream, run it, go on. */
  function Serve(s: bytes, p: Place): Served
    decreases |s|
  {
    var f := NextFrame(s);
    match f
    case Reply(r, rest) => Serve(rest, p).After([r])
    case Run(c, rest) => var (q, sent) := RunOne(c, p); Serve(rest, q).After(sent)
    case _ => Served([], p.store, f)
  }

  /** `served` is what some chunking of the stream leads to; only overlong lines leave a choice. */
  ghost predicate Serves(s: bytes, p: Place, served: Served)
    decreases |s|
  {
    exists d | Decodes(s, d) ::
      if d.last.Run? then
        var (q, sent) := RunOne(d.last.command, p);
        var first := d.replies + sent;
        && |d.last.rest| < |s| && first <= served.replies
        && Serves(d.last.rest, q, served.(replies := served.replies[|first|..]))
      else served == Served(d.replies, p.store, d.last)
  }

  /** No command line of the whole stream is long enough to be refused. */
  predicate AllShort(s: bytes)
    decreases |s|
  {
    ShortLine(s) && (NextFrame(s).Reply? || NextFrame(s).Run? ==> AllShort(NextFrame(s).rest))
  }

  lemma {:induction false} AllShortNext(s: bytes)
    requires AllShort(s)
    ensures ShortLines(s)
    ensures DecodeNext(s).last.Run? ==> AllShort(DecodeNext(s).last.rest)
    decreases |s|
  {
    hide NextFrame, ShortLine;
    if NextFrame(s).Reply? {
      AllShortNext(NextFrame(s).rest);
    }
  }

  lemma Regroup(rest: Served, a: seq<Response>, b: seq<Response>)
    ensures rest.After(b).After(a) == rest.After(a + b)
  {
  }

  /** Serving a stream is: the replies up to the next command, the command, the rest. */
  lemma {:induction false} ServeNext(s: bytes, p: Place)
    ensures var d := DecodeNext(s);
            if d.last.Run? then
              var (q, sent) := RunOne(d.last.command, p);
              Serve(s, p) == Serve(d.last.rest, q).After(d.replies + sent)
            else Serve(s, p) == Served(d.replies, p.store, d.last)
    decreases |s|
  {
    hide NextFrame, RunOne;
    var f := NextFrame(s);
    if f.Reply? {
      ServeNext(f.rest, p);
      var d := DecodeNext(f.rest);
      if d.last.Run? {
        var (q, sent) := RunOne(d.last.command, p);
        Regroup(Serve(d.last.rest, q), [f.response], d.replies + sent);
        assert [f.response] + (d.replies + sent) == [f.response] + d.replies + sent;
      }
    } else if f.Run? {
      var (q, sent) := RunOne(f.command, p);
      assert [] + sent == sent;
    }
  }

  /** Below the line limit every chunking leads to what the interpreter says. */
  lemma {:induction false} ServingIsUnique(s: bytes, p: Place, served: Served)
    requires AllShort(s) && Serves(s, p, served)
    ensures served == Serve(s, p)
    decreases |s|
  {
    hide RunOne, AllShort, ShortLines, DecodeNext, Decodes, Serve;
    AllShortNext(s);
    ServeNext(s, p);
    forall e | Decodes(s, e) ensures e == DecodeNext(s) {
      DecodingIsUnique(s, e);
    }
    var d := DecodeNext(s);
    if d.last.Run? {
      var (q, sent) := RunOne(d.last.command, p);
      var rest := served.(replies := served.replies[|d.replies + sent|..]);
      ServingIsUnique(d.last.rest, q, rest);
      assert served == rest.After(d.replies + sent);
    }
  }

  /** What the interpreter says is one way to serve the stream. */
  lemma {:induction false} ServingExists(s: bytes, p: Place)
    ensures Serves(s, p, Serve(s, p))
    decreases |s|
  {
    hide RunOne, DecodeNext, Decodes, Serve;
    var d, served := DecodeNext(s), Serve(s, p);
    DecodesNext(s);
    ServeNext(s, p);
    if d.last.Run? {
      var (q, sent) := RunOne(d.last.command, p);
      var rest := Serve(d.last.rest, q);
      ServingExists(d.last.rest, q);
      assert served.replies == d.replies + sent + rest.replies;
      assert served.(replies := served.replies[|d.replies + sent|..]) == rest;
    }
  }

  // ---- A session whose reads are known ----

  /** The session as it goes when the reads come as `x` says: for long lines, too, there is just one. */
  function Conduct(x: Source, p: Place): Served
    decreases |x.stream|
  {
    var f := Taken(x);
    match f
    case Reply(r, _) => Conduct(Past(x), p).After([r])
    case Run(c, _) => var (q, sent) := RunOne(c, p); Conduct(Past(x), q).After(sent)
    case _ => Served([], p.store, f)
  }

  lemma {:induction false} ConductNext(x: Source, p: Place)
    ensures var d := Heard(x);
            if d.last.Run? then
              var (q, sent) := RunOne(d.last.command, p);
              Conduct(x, p) == Conduct(Beyond(x), q).After(d.replies + sent)
            else Conduct(x, p) == Served(d.replies, p.store, d.last)
    decreases |x.stream|
  {
    hide Taken, RunOne, FrameReads;
    var f := Taken(x);
    if f.Reply? {
      ConductNext(Past(x), p);
      var d := Heard(Past(x));
      if d.last.Run? {
        var (q, sent) := RunOne(d.last.command, p);
        Regroup(Conduct(Beyond(x), q), [f.response], d.replies + sent);
        assert [f.response] + (d.replies + sent) == [f.response] + d.replies + sent;
      }
    } else if f.Run? {
      var (q, sent) := RunOne(f.command, p);
      assert [] + sent == sent;
    }
  }

  /** It is one of the ways to serve the stream. */
  lemma {:induction false} ConductServes(x: Source, p: Place)
    ensures Serves(x.stream, p, Conduct(x, p))
    decreases |x.stream|
  {
    hide RunOne, Heard, Beyond, Decodes, Conduct;
    var d, served := Heard(x), Conduct(x, p);
    HeardDecodes(x);
    ConductNext(x, p);
    if d.last.Run? {
      BeyondIsRest(x);
      var (q, sent) := RunOne(d.last.command, p);
      var rest := Conduct(Beyond(x), q);
      ConductServes(Beyond(x), q);
      assert served.replies == d.replies + sent + rest.replies;
      assert served.(replies := served.replies[|d.replies + sent|..]) == rest;
    }
  }

  /** And below the line limit the only one. */
  lemma ConductShort(x: Source, p: Place)
    requires AllShort(x.stream)
    ensures Conduct(x, p) == Serve(x.stream, p)
  {
    hide Conduct, Serve, Serves, AllShort;
    ConductServes(x, p);
    ServingIsUnique(x.stream, p, Conduct(x, p));
  }

  lemma ConductIsServing(x: Source, p: Place)
    ensures Serves(x.stream, p, Conduct(x, p))
    ensures AllShort(x.stream) ==> Conduct(x, p) == Serve(x.stream, p)
  {
    hide Conduct, Serve, Serves, AllShort;
    ConductServes(x, p);
    if AllShort(x.stream) {
      ConductShort(x, p);
    }
  }

  // ---- What is due while bytes are still to come ----

  /** The replies to every request that lies wholly before the last `unread` bytes of the stream. */
  function Due(x: Source, p: Place, unread: nat): seq<Response>
    decreases |x.stream|
  {
    var f := Taken(x);
    match f
    case Reply(r, rest) => if unread <= |rest| && Finished(x) then [r] + Due(Past(x), p, unread) else []
    case Run(c, rest) =>
      if unread <= |rest| then var (q, sent) := RunOne(c, p); sent + Due(Past(x), q, unread) else []
    case _ => []
  }

  lemma {:induction false} DueNext(x: Source, p: Place, unread: nat)
    ensures var d := Heard(x);
            if d.last.Run? && unread <= |d.last.rest| then
              var (q, sent) := RunOne(d.last.command, p);
              Due(x, p, unread) == d.replies + sent + Due(Beyond(x), q, unread)
            else Due(x, p, unread) == Arrived(x, unread)
    decreases |x.stream|
  {
    hide Taken, RunOne, FrameReads, Finished;
    var f := Taken(x);
    if f.Reply? {
      DueNext(Past(x), p, unread);
      var d := Heard(Past(x));
      if d.last.Run? && unread <= |d.last.rest| {
        MoreMeansFinished(x);
        var (q, sent) := RunOne(d.last.command, p);
        assert [f.response] + (d.replies + sent + Due(Beyond(x), q, unread))
            == [f.response] + d.replies + sent + Due(Beyond(x), q, unread);
      }
    } else if f.Run? {
      var (q, sent) := RunOne(f.command, p);
      assert [] + sent == sent;
    }
  }

  /**
   * At each wait exactly the replies due by then had been written, and all there are once the client
   * has been found to send no more, unless that was known from the outset.
   */
  ghost predicate Prompted(ws: seq<Wait>, n: nat, base: bytes, x: Source, p: Place, known: bool) {
    forall i | n <= i < |ws| && !known ::
      ws[i].written == base + EncodeAll(if ws[i].again then Conduct(x, p).replies else Due(x, p, ws[i].unread))
  }

  // ---- What a client that quits receives ----

  /** How many bytes come after the last request that is replied to, when there is one. */
  function LastReplied(x: Source): (r: Option<nat>)
    ensures r.Some? ==> r.value <= |Taken(x).rest|
    decreases |x.stream|
  {
    var f := Taken(x);
    if !f.Reply? && !f.Run? then None
    else
      var later := LastReplied(Past(x));
      if later.Some? then later
      else if f.Run? && f.command.NoReply() then None
      else Some(|f.rest|)
  }

  /** The last wait that is not in an overlong line. */
  function LastStop(at: seq<Stop>): Option<nat> {
    if at == [] then None
    else if !at[|at| - 1].skipping then Some(at[|at| - 1].unread)
    else LastStop(at[..|at| - 1])
  }

  /**
   * A session that ends in `quit` delivers what it has written exactly when its last read outside an
   * overlong line was not before the end of the last request that is replied to; or, without such a
   * read, when nothing is replied and nothing was left to send before.
   */
  predicate QuitDelivers(x: Source, clean: bool) {
    match LastStop(StreamReads(x).at)
    case None => clean && LastReplied(x) == None
    case Some(unread) => LastReplied(x).Some? ==> unread <= LastReplied(x).value
  }

  /** What is due comes first among the replies, and is all of them from the last replied request on. */
  lemma {:induction false} DueIsFirst(x: Source, p: Place, unread: nat)
    ensures Due(x, p, unread) <= Conduct(x, p).replies
    ensures unread > 0 ==>
              (Due(x, p, unread) == Conduct(x, p).replies <==> LastReplied(x) == None || unread <= LastReplied(x).value)
    ensures Conduct(x, p).replies == [] <==> LastReplied(x) == None
    decreases |x.stream|
  {
    hide Taken, Apply, Finished, FrameReads;
    var f := Taken(x);
    if f.Reply? {
      DueIsFirst(Past(x), p, unread);
      RepliesAfter(Conduct(Past(x), p), [f.response], Due(Past(x), p, unread));
      if f.rest != [] {
        MoreMeansFinished(x);
      }
    } else if f.Run? {
      var (q, sent) := RunOne(f.command, p);
      DueIsFirst(Past(x), q, unread);
      RepliesAfter(Conduct(Past(x), q), sent, Due(Past(x), q, unread));
    }
  }

  lemma RepliesAfter(rest: Served, first: seq<Response>, due: seq<Response>)
    ensures rest.After(first).replies == first + rest.replies
    ensures due <= rest.replies ==> first + due <= first + rest.replies
    ensures first + due == first + rest.replies <==> due == rest.replies
    ensures first + rest.replies == [] <==> first == [] && rest.replies == []
  {
    if first + due == first + rest.replies {
      assert due == (first + due)[|first|..] == (first + rest.replies)[|first|..] == rest.replies;
    }
  }

  /** Some of the replies have fewer bytes than all. */
  lemma EncodedFirst(some: seq<Response>, all: seq<Response>)
    requires some <= all
    ensures EncodeAll(some) == EncodeAll(all) <==> some == all
  {
    hide Encode;
    var more := all[|some|..];
    assert all == some + more;
    EncodeAllConcat(some, more);
    if more != [] {
      EncodingsAreNotEmpty(more[0]);
    } else {
      assert some == all;
    }
  }

  lemma {:induction false} FlushIsStop(ws: seq<Wait>, n: nat, at: seq<Stop>)
    requires n <= |ws| && |at| == |ws| - n
    requires forall i | n <= i < |ws| :: Stop(ws[i].unread, ws[i].skippingLine) == at[i - n]
    ensures LastFlush(ws, n) == None <==> LastStop(at) == None
    ensures LastFlush(ws, n).Some? ==>
              && LastStop(at) == Some(LastFlush(ws, n).value.unread)
              && exists i :: n <= i < |ws| && ws[i] == LastFlush(ws, n).value
  {
    if |ws| > n && ws[|ws| - 1].skippingLine {
      FlushIsStop(ws[..|ws| - 1], n, at[..|at| - 1]);
      if LastFlush(ws, n).Some? {
        var i :| n <= i < |ws| - 1 && ws[..|ws| - 1][i] == LastFlush(ws, n).value;
        assert ws[i] == LastFlush(ws, n).value;
      }
    }
  }

  lemma QuitOutcome(ws: seq<Wait>, n: nat, x: Source, p: Place, base: bytes, written: bytes, pending: bytes,
      clean: bool,
                    known: bool)
    requires written == base + EncodeAll(Conduct(x, p).replies) && (known ==> x.unread == 0)
    requires OnCourse(ws, n, StreamReads(x), Reads([], 0, []))
    requires Settled(ws, n, pending, written, base, clean)
    requires Prompted(ws, n, base, x, p, known) && (!known ==> NoneAgain(ws, n))
    ensures pending == [] <==> QuitDelivers(x, clean)
  {
    hide StreamReads, EncodeAll, Conduct, Due, LastReplied, LastFlush, LastStop;
    var at := StreamReads(x).at;
    FlushIsStop(ws, n, at);
    match LastFlush(ws, n)
    case None => NothingSent(x, p, base, written);
    case Some(w) =>
      var i :| n <= i < |ws| && ws[i] == w;
      ReadsDescend(x);
      assert 0 < at[i - n].unread <= x.unread;
      SentByThen(x, p, w.unread, base, w.written, written);
  }

  lemma NothingSent(x: Source, p: Place, base: bytes, written: bytes)
    requires written == base + EncodeAll(Conduct(x, p).replies)
    ensures written == base <==> LastReplied(x) == None
  {
    hide EncodeAll, Conduct, LastReplied;
    DueIsFirst(x, p, 0);
    NothingEncoded();
    EncodedFirst([], Conduct(x, p).replies);
    assert base + [] == base;
    SameAfter(base, [], EncodeAll(Conduct(x, p).replies));
  }

  lemma SentByThen(x: Source, p: Place, unread: nat, base: bytes, earlier: bytes, written: bytes)
    requires unread > 0
    requires earlier == base + EncodeAll(Due(x, p, unread)) && written == base + EncodeAll(Conduct(x, p).replies)
    ensures earlier == written <==> LastReplied(x) == None || unread <= LastReplied(x).value
  {
    hide EncodeAll, Conduct, Due, LastReplied;
    DueIsFirst(x, p, unread);
    EncodedFirst(Due(x, p, unread), Conduct(x, p).replies);
    SameAfter(base, EncodeAll(Due(x, p, unread)), EncodeAll(Conduct(x, p).replies));
  }

  lemma SameAfter(base: bytes, a: bytes, b: bytes)
    ensures base + a == base + b <==> a == b
  {
    if base + a == base + b {
      assert a == (base + a)[|base|..] == (base + b)[|base|..] == b;
    }
  }

  // ---- The session loop ----

  /** What is due from the start is what has been sent and what is due from here on. */
  ghost predicate DueAhead(x0: Source, p0: Place, x: Source, p: Place, sent: seq<Response>) {
    forall unread: nat :: unread <= |x.stream| ==> Due(x0, p0, unread) == sent + Due(x, p, unread)
  }

  /**
   * The session has come this far: what it has sent, the waits it has made, and what it has still to
   * do are as the session from the start has them.
   */
  ghost predicate InStep(ws: seq<Wait>, n: nat, base: bytes, x0: Source, p0: Place, x: Source, p: Place,
                         sent: seq<Response>, pending: bytes, written: bytes, clean: bool, known: bool)
  {
    && n <= |ws| && written == base + EncodeAll(sent)
    && Conduct(x0, p0) == Conduct(x, p).After(sent) && DueAhead(x0, p0, x, p, sent)
    && Prompted(ws, n, base, x0, p0, known) && (!known ==> NoneAgain(ws, n))
    && (x.stream != [] ==> OnCourse(ws, n, StreamReads(x0), StreamReads(x)))
    && Settled(ws, n, pending, written, base, clean) && Told(ws, n, base, clean)
  }

  lemma FirstStep(ws: seq<Wait>, x: Source, p: Place, pending: bytes, written: bytes, known: bool)
    ensures InStep(ws, |ws|, written, x, p, x, p, [], pending, written, pending == [], known)
  {
    hide Conduct, Due, StreamReads;
    assert Conduct(x, p).After([]) == Conduct(x, p);
    forall unread: nat ensures [] + Due(x, p, unread) == Due(x, p, unread) {
    }
    NothingEncoded();
    CourseStart(ws, StreamReads(x));
    SettledStart(ws, pending, written);
  }

  /** What one call of ReadCommand does to the connection, whose source is `y` afterwards. */
  ghost predicate CommandRead(before: seq<Wait>, after: seq<Wait>, x: Source, d: Decoded, y: Source, limit: nat,
                              pending: bytes, written: bytes, pending1: bytes, written1: bytes, known: bool)
  {
    && before <= after && limit <= |x.stream| && d == Heard(x) && (d.last.Run? ==> y == Beyond(x))
    && AnsweredFrom(after, |before|, written, x, d.replies, limit, if d.last.Run? then |d.last.rest| else -1, known)
    && (!known && (d.last.Run? || d.last.Left?) ==> NoneAgain(after, |before|))
    && (d.last.Run? || d.last.Left? ==>
          OnCourse(after, |before|, StreamReads(x), if d.last.Run? then StreamReads(y) else Reads([], 0, [])))
    && Settled(after, |before|, pending1, written1, written, pending == [])
        && Told(after, |before|, written, pending == [])
    && written1 == written + EncodeAll(d.replies)
  }

  lemma ReadIs(before: seq<Wait>, after: seq<Wait>, x: Source, d: Decoded, y: Source, limit: nat,
               pending: bytes, written: bytes, pending1: bytes, written1: bytes, known: bool)
    requires before <= after && limit <= |x.stream| && d == Heard(x) && (d.last.Run? ==> y == Beyond(x))
    requires AnsweredFrom(after, |before|, written, x, d.replies, limit, if d.last.Run? then |d.last.rest| else -1,
        known)
    requires !known && (d.last.Run? || d.last.Left?) ==> NoneAgain(after, |before|)
    requires d.last.Run? || d.last.Left? ==>
               OnCourse(after, |before|, StreamReads(x), if d.last.Run? then StreamReads(y) else Reads([], 0, []))
    requires Settled(after, |before|, pending1, written1, written, pending == [])
    requires Told(after, |before|, written, pending == [])
    requires written1 == written + EncodeAll(d.replies)
    ensures CommandRead(before, after, x, d, y, limit, pending, written, pending1, written1, known)
  {
  }

  /** The waits of one call of ReadCommand are among those of the session. */
  lemma StepWaits(before: seq<Wait>, after: seq<Wait>, n: nat, base: bytes, x0: Source, p0: Place, x: Source, p: Place,
                  sent: seq<Response>, d: Decoded, y: Source, limit: nat, pending: bytes, written: bytes,
                  pending1: bytes, written1: bytes, clean: bool, known: bool)
    requires InStep(before, n, base, x0, p0, x, p, sent, pending, written, clean, known)
    requires CommandRead(before, after, x, d, y, limit, pending, written, pending1, written1, known)
    ensures Prompted(after, n, base, x0, p0, known)
    ensures !known && (d.last.Run? || d.last.Left?) ==> NoneAgain(after, n)
  {
    hide Due, Conduct, Heard, Beyond, EncodeAll, Settled, Told, OnCourse, StreamReads, RunOne;
    ConductNext(x, p);
    forall i | n <= i < |after| && !known
      ensures after[i].written ==
                base + EncodeAll(if after[i].again then Conduct(x0, p0).replies else Due(x0, p0, after[i].unread))
    {
      if i < |before| {
        assert after[i] == before[i];
      } else {
        WaitIsDue(after[i], base, x0, p0, x, p, sent, d, written);
      }
    }
    if !known && (d.last.Run? || d.last.Left?) {
      forall i | n <= i < |after| ensures !after[i].again {
        if i < |before| {
          assert after[i] == before[i];
        }
      }
    }
  }

  lemma WaitIsDue(w: Wait, base: bytes, x0: Source, p0: Place, x: Source, p: Place, sent: seq<Response>, d: Decoded,
                  written: bytes)
    requires Conduct(x0, p0) == Conduct(x, p).After(sent) && DueAhead(x0, p0, x, p, sent)
    requires w.unread <= |x.stream| && d == Heard(x) && written == base + EncodeAll(sent)
    requires w.written == written + EncodeAll(if w.again then d.replies else Arrived(x, w.unread))
    requires d.last.Run? ==> |d.last.rest| < w.unread && !w.again
    ensures w.written == base + EncodeAll(if w.again then Conduct(x0, p0).replies else Due(x0, p0, w.unread))
  {
    hide Due, Conduct, Heard, Beyond, EncodeAll, RunOne, Arrived;
    ConductNext(x, p);
    DueNext(x, p, w.unread);
    EncodeAllConcat(sent, d.replies);
    EncodeAllConcat(sent, Arrived(x, w.unread));
  }

  lemma StreamOf(stream: bytes, unread: nat, sizes: seq<nat>)
    ensures SourceAt(stream, unread, sizes).stream == stream
    ensures SourceAt(stream, unread, sizes).unread <= unread
  {
  }

  lemma RunIs(c: Command, p: Place)
    ensures var (m, r) := Apply(p.store, c, p.clock + Head(p.ticks));
            RunOne(c, p) == (Place(m, p.clock + Head(p.ticks), Later(p.ticks)), if c.NoReply() then [] else [r])
    ensures p.Now() == p.clock + Head(p.ticks)
    ensures p.ticks != [] ==> p.Now() == p.clock + p.ticks[0]
  {
  }

  lemma StepOn(x0: Source, p0: Place, x: Source, p: Place, sent: seq<Response>)
    requires Conduct(x0, p0) == Conduct(x, p).After(sent) && DueAhead(x0, p0, x, p, sent) && Heard(x).last.Run?
    ensures var d := Heard(x);
            var (q, more) := RunOne(d.last.command, p);
            && Conduct(x0, p0) == Conduct(Beyond(x), q).After(sent + (d.replies + more))
            && DueAhead(x0, p0, Beyond(x), q, sent + (d.replies + more))
  {
    hide Due, Conduct, Heard, Beyond, RunOne;
    var d := Heard(x);
    var (q, more) := RunOne(d.last.command, p);
    ConductNext(x, p);
    BeyondIsRest(x);
    Regroup(Conduct(Beyond(x), q), sent, d.replies + more);
    forall unread: nat | unread <= |Beyond(x).stream|
      ensures Due(x0, p0, unread) == sent + (d.replies + more) + Due(Beyond(x), q, unread)
    {
      DueNext(x, p, unread);
    }
  }

  /** A command read, run and answered. */
  lemma StepRun(before: seq<Wait>, after: seq<Wait>, n: nat, base: bytes, x0: Source, p0: Place, x: Source, p: Place,
                sent: seq<Response>, d: Decoded, y: Source, limit: nat, pending: bytes, written: bytes,
                pending1: bytes, written1: bytes, pending2: bytes, resp: Response, clean: bool, known: bool)
    requires InStep(before, n, base, x0, p0, x, p, sent, pending, written, clean, known)
    requires CommandRead(before, after, x, d, y, limit, pending, written, pending1, written1, known)
    requires d.last.Run? && resp == Apply(p.store, d.last.command, p.Now()).1
    requires if d.last.command.NoReply() then pending2 == pending1 else pending2 != []
    ensures var (q, more) := RunOne(d.last.command, p);
            InStep(after, n, base, x0, p0, y, q, sent + (d.replies + more), pending2,
                   written1 + (if d.last.command.NoReply() then [] else Encode(resp)), clean, known)
  {
    hide Due, Conduct, Heard, Beyond, EncodeAll, Settled, Told, OnCourse, StreamReads, Encode, Apply, Prompted,
        AnsweredFrom;
    hide DueAhead, NoneAgain;
    var (q, more) := RunOne(d.last.command, p);
    StepWaits(before, after, n, base, x0, p0, x, p, sent, d, y, limit, pending, written, pending1, written1, clean,
        known);
    StepOn(x0, p0, x, p, sent);
    SomethingLeft(x);
    CourseAlong(before, after, n, StreamReads(x0), StreamReads(x), StreamReads(y));
    SettledOn(before, after, n, pending, pending1, written, written1, base, clean);
    ToldOn(before, after, n, pending, written, base, clean);
    if d.last.command.NoReply() {
      NothingEncoded();
      assert written1 + [] == written1;
    } else {
      ReplySettles(after, n, pending1, pending2, written1, resp, base, clean);
      OneEncoded(resp);
    }
    EncodeAllConcat(d.replies, more);
    EncodeAllConcat(sent, d.replies + more);
    Regrouped(base, EncodeAll(sent), EncodeAll(d.replies), EncodeAll(more));
  }

  lemma SomethingLeft(x: Source)
    requires Heard(x).last.Run? || Heard(x).last.Left?
    ensures x.stream != []
  {
    if x.stream == [] {
      NothingTaken(x);
    }
  }

  lemma ReplySettles(ws: seq<Wait>, n: nat, before: bytes, pending: bytes, written: bytes, r: Response, base: bytes,
                     clean: bool)
    requires Settled(ws, n, before, written, base, clean) && pending != []
    ensures Settled(ws, n, pending, written + Encode(r), base, clean)
  {
    hide Encode, Settled, Told;
    EncodingsAreNotEmpty(r);
    NoWait(ws, written, [], 0, 0, false);
    PlainSettles(ws, ws, before, pending, written, Encode(r), 0, 0, false);
    SettledOn(ws, ws, n, before, pending, written, written + Encode(r), base, clean);
  }

  lemma Regrouped(a: bytes, b: bytes, c: bytes, d: bytes)
    ensures a + b + c + d == a + (b + (c + d))
  {
  }

  /** The last call of ReadCommand. */
  lemma StepEnd(before: seq<Wait>, after: seq<Wait>, n: nat, base: bytes, x0: Source, p0: Place, x: Source, p: Place,
                sent: seq<Response>, d: Decoded, y: Source, limit: nat, pending: bytes, written: bytes,
                pending1: bytes, written1: bytes, clean: bool, known: bool)
    requires InStep(before, n, base, x0, p0, x, p, sent, pending, written, clean, known)
    requires CommandRead(before, after, x, d, y, limit, pending, written, pending1, written1, known)
    requires !d.last.Run? && (known ==> x0.unread == 0)
    ensures Conduct(x0, p0) == Served(sent + d.replies, p.store, d.last)
    ensures written1 == base + EncodeAll(Conduct(x0, p0).replies)
    ensures Prompted(after, n, base, x0, p0, known)
    ensures Settled(after, n, pending1, written1, base, clean) && Told(after, n, base, clean)
    ensures !known && d.last.Left? ==> NoneAgain(after, n)
    ensures d.last.Left? ==>
              && OnCourse(after, n, StreamReads(x0), Reads([], 0, []))
              && (pending1 == [] <==> QuitDelivers(x0, clean))
  {
    hide Due, Conduct, Heard, Beyond, EncodeAll, Settled, Told, OnCourse, StreamReads, QuitDelivers, Prompted,
        AnsweredFrom;
    StepWaits(before, after, n, base, x0, p0, x, p, sent, d, y, limit, pending, written, pending1, written1, clean,
        known);
    ConductNext(x, p);
    EncodeAllConcat(sent, d.replies);
    SettledOn(before, after, n, pending, pending1, written, written1, base, clean);
    ToldOn(before, after, n, pending, written, base, clean);
    if d.last.Left? {
      SomethingLeft(x);
      CourseAlong(before, after, n, StreamReads(x0), StreamReads(x), Reads([], 0, []));
      QuitOutcome(after, n, x0, p0, base, written1, pending1, clean, known);
    }
  }

  /**
   * Serves a connection until it ends. What is said, what becomes of the store, and how it ends is what
   * Conduct makes of the stream and the sizes of its reads; for short lines it is what Serve makes of the
   * stream alone. At every wait exactly the replies that were due had been written. They had been
   * delivered, too, except in the middle of an overlong line: there, exactly when nothing was written
   * since the last flush. All is delivered in the end unless the client left with `quit`: then exactly
   * when QuitDelivers says so; and when the session was in the buffer to its `quit`, replies that fit
   * the writer's buffer are still in it.
   */
  method Process(conn: Connection, store: Store, ticks: seq<nat>) returns (failed: bool, ghost served: Served)
    requires conn.Valid()
    modifies conn, conn.reader, conn.writer, store
    ensures conn.Valid()
    ensures served == Conduct(old(conn.Source()), old(Place(store.State(), store.clock, ticks)))
    ensures Serves(old(conn.Stream()), old(Place(store.State(), store.clock, ticks)), served)
    ensures AllShort(old(conn.Stream())) ==>
              served == Serve(old(conn.Stream()), old(Place(store.State(), store.clock, ticks)))
    ensures conn.writer.Written() == old(conn.writer.Written()) + EncodeAll(served.replies)
    ensures store.State() == served.store && failed == served.end.Truncated?
    ensures old(conn.waits) <= conn.waits
    ensures Prompted(conn.waits, |old(conn.waits)|, old(conn.writer.Written()), old(conn.Source()),
                     old(Place(store.State(), store.clock, ticks)), old(conn.reader.ended))
    ensures conn.Tells() && conn.Settles()
    ensures !served.end.Left? ==> conn.writer.delivered == conn.writer.Written()
    ensures served.end.Left? && !old(conn.reader.ended) ==> NoneAgain(conn.waits, |old(conn.waits)|)
    ensures served.end.Left? ==>
              && conn.Follows(StreamReads(old(conn.Source())), Reads([], 0, []))
              && (conn.writer.delivered == conn.writer.Written() <==>
                    QuitDelivers(old(conn.Source()), old(conn.writer.pending) == []))
    ensures served.end.Left? && |served.end.rest| >= |old(conn.reader.input)| ==> conn.writer.KeptBack()
  {
    hide Serves, Serve, DecodeNext, AllShort, ShortLines, Apply, Decodes, Encode, EncodeAll, Prompt, Conduct, Heard,
        Beyond;
    hide Prompted, AnsweredFrom, NoneAgain, OnCourse, StreamReads, Settled, Told, QuitDelivers, InStep, CommandRead,
        RunOne, SourceAt, Place.Now, Head, Later;
    ghost var base, n, clean := conn.writer.Written(), |conn.waits|, conn.writer.pending == [];
    ghost var x0, p0, known := conn.Source(), Place(store.State(), store.clock, ticks), conn.reader.ended;
    ghost var sent: seq<Response> := [];
    var left := ticks;
    FirstStep(conn.waits, x0, p0, conn.writer.pending, base, known);
    assert |conn.reader.input| <= |conn.Stream()|;
    hide Connection.Stream;
    StreamOf(conn.Stream(), |conn.reader.input|, conn.reader.sizes);
    while true
      invariant conn.Valid() && old(conn.waits) <= conn.waits && conn.reader.ended == known
      invariant |conn.reader.input| <= |conn.Stream()|
      invariant InStep(conn.waits, n, base, x0, p0, conn.Source(), Place(store.State(), store.clock, left), sent,
                       conn.writer.pending, conn.writer.Written(), clean, known)
      invariant conn.Stream() != [] && |conn.Stream()| >= |old(conn.reader.input)| ==>
                  conn.waits == old(conn.waits) && conn.reader.input == old(conn.reader.input) && conn.writer.KeptBack()
      decreases |conn.Stream()|
    {
      ghost var x, p := conn.Source(), Place(store.State(), store.clock, left);
      ghost var before, limit := conn.waits, |conn.reader.input|;
      ghost var pending, written := conn.writer.pending, conn.writer.Written();
      StreamOf(conn.Stream(), limit, conn.reader.sizes);
      var outcome;
      ghost var d;
      outcome, d := conn.ReadCommand();
      ghost var y, pending1, written1 := conn.Source(), conn.writer.pending, conn.writer.Written();
      ReadIs(before, conn.waits, x, d, y, limit, pending, written, pending1, written1, known);
      if !outcome.Got? {
        served := Served(sent + d.replies, p.store, d.last);
        StepEnd(before, conn.waits, n, base, x0, p0, x, p, sent, d, y, limit, pending, written, pending1, written1,
            clean, known);
        ConductIsServing(x0, p0);
        return outcome.IoError?, served;
      }
      var command := outcome.command;
      RunIs(command, p);
      store.clock := store.clock + Head(left);
      left := Later(left);
      var resp := Answer(command, conn, store);
      StepRun(before, conn.waits, n, base, x0, p0, x, p, sent, d, y, limit, pending, written, pending1, written1,
              conn.writer.pending, resp, clean, known);
      sent := sent + (d.replies + if command.NoReply() then [] else [resp]);
    }
  }

  /** One turn of the session loop, once there is a command: it is handled, and answered if a reply is wanted. */
  method Answer(command: Command, conn: Connection, store: Store) returns (resp: Response)
    modifies store, conn.writer
    ensures (store.State(), resp) == Apply(old(store.State()), command, store.clock) && store.clock == old(store.clock)
    ensures conn.writer.Written() == old(conn.writer.Written()) + (if command.NoReply() then [] else Encode(resp))
    ensures if command.NoReply() then conn.writer.pending == old(conn.writer.pending) else conn.writer.pending != []
    ensures conn.writer.KeptBack()
  {
    hide Apply, Encode;
    resp := Handle(command, store);
    if !command.NoReply() {
      conn.WriteResponse(resp);
    } else {
      assert conn.writer.Written() + [] == conn.writer.Written();
    }
  }

  // ---- What a client sees ----

  /** Running a list of commands, with no bytes involved. */
  function RunAll(cs: seq<Command>, p: Place): (Place, seq<Response>) {
    if cs == [] then (p, [])
    else
      var (q, first) := RunOne(cs[0], p);
      var (z, more) := RunAll(cs[1..], q);
      (z, first + more)
  }

  /** A printed pipeline is served as its list of commands, and what follows it from there on. */
  lemma {:induction false} PipelineServed(cs: seq<Command>, rest: bytes, p: Place)
    requires forall c :: c in cs ==> WellFormed(c)
    ensures var (q, replies) := RunAll(cs, p); Serve(PrintAll(cs) + rest, p) == Serve(rest, q).After(replies)
    ensures AllShort(rest) ==> AllShort(PrintAll(cs) + rest)
    decreases |cs|
  {
    hide NextFrame, RunOne, Print, WellFormed, ShortLine;
    if cs == [] {
      assert PrintAll(cs) + rest == rest;
      assert Serve(rest, p).After([]) == Serve(rest, p);
    } else {
      var more := PrintAll(cs[1..]) + rest;
      assert PrintAll(cs) + rest == Print(cs[0]) + more;
      CommandRoundTrip(cs[0], more);
      var (q, first) := RunOne(cs[0], p);
      PipelineServed(cs[1..], rest, q);
      var (z, later) := RunAll(cs[1..], q);
      Regroup(Serve(rest, z), first, later);
    }
  }

  const QUIT: bytes := "quit\r\n"

  lemma QuitParses()
    ensures Header(Fields("quit")) == Ok(Quit) && TrimEnd("quit" + CRLF) == "quit"
  {
    TrimTerminator("quit");
    FieldsOfToken("quit", []);
    assert Split([]) == [[]];
    assert "quit" + [] == "quit";
    assert Fields("quit") == ["quit"];
  }

  lemma QuitLeaves()
    ensures NextFrame(QUIT) == Left([]) && ShortLine(QUIT)
  {
    hide Header, Fields, TrimEnd;
    QuitParses();
    var line: bytes := "quit\r";
    assert QUIT == line + "\n" + [] && line + "\n" == "quit" + CRLF;
    FirstLine(line, []);
  }

  /**
   * A client that sends any commands and `quit` in one piece is answered in full, but receives
   * nothing when the answers fit the writer's buffer: the connection never waits, so it never flushes.
   */
  method QuitDropsReplies(cs: seq<Command>, store: Store) returns (conn: Connection)
    requires forall c :: c in cs ==> WellFormed(c)
    modifies store
    ensures conn.writer.Written() == EncodeAll(RunAll(cs, old(Place(store.State(), store.clock, []))).1)
    ensures |conn.writer.Written()| < BUF_CAPACITY ==> conn.writer.delivered == []
  {
    var input := PrintAll(cs) + QUIT;
    var reader := new Reader(input, [|input|]);
    var writer := new Writer();
    conn := new Connection(reader, writer);
    var _ := conn.FillBuffer();
    assert conn.Stream() == input;
    ghost var p := Place(store.State(), store.clock, []);
    QuitServed(cs, p);
    var _, served := Process(conn, store, []);
  }

  lemma PrintedIsTaken(c: Command, rest: bytes, x: Source)
    requires WellFormed(c) && x.stream == Print(c) + rest
    ensures Taken(x) == Run(c, rest) && Past(x).stream == rest
  {
    hide NextFrame, WellFormed, Print, ShortLine, Taken, FrameReads;
    CommandRoundTrip(c, rest);
    ShortIsTaken(x);
  }

  lemma {:induction false} RepliedBeforeQuit(cs: seq<Command>, x: Source)
    requires (forall c :: c in cs ==> WellFormed(c)) && x.stream == PrintAll(cs) + QUIT
    ensures LastReplied(x).Some? ==> |QUIT| <= LastReplied(x).value
    decreases |cs|
  {
    hide Taken, WellFormed, Print, Past;
    if cs == [] {
      QuitLeaves();
      assert PrintAll(cs) + QUIT == QUIT;
      ShortIsTaken(x);
    } else {
      var more := PrintAll(cs[1..]) + QUIT;
      assert PrintAll(cs) + QUIT == Print(cs[0]) + more;
      PrintedIsTaken(cs[0], more, x);
      RepliedBeforeQuit(cs[1..], Past(x));
    }
  }

  /** A client that sends `quit` only when the session waits for nothing else receives every reply. */
  lemma PatientClientIsAnswered(cs: seq<Command>, x: Source, clean: bool)
    requires (forall c :: c in cs ==> WellFormed(c)) && x.stream == PrintAll(cs) + QUIT
    requires Stop(|QUIT|, false) in StreamReads(x).at
    ensures QuitDelivers(x, clean)
  {
    hide StreamReads, LastReplied, PrintAll, WellFormed;
    var at := StreamReads(x).at;
    RepliedBeforeQuit(cs, x);
    ReadsDescend(x);
    var i :| 0 <= i < |at| && at[i] == Stop(|QUIT|, false);
    LastStopIsLeast(at, i);
  }

  lemma {:induction false} LastStopIsLeast(at: seq<Stop>, i: nat)
    requires i < |at| && !at[i].skipping
    requires forall j, k | 0 <= j < k < |at| :: at[j].unread > at[k].unread
    ensures LastStop(at).Some? && LastStop(at).value <= at[i].unread
  {
    if i < |at| - 1 && at[|at| - 1].skipping {
      LastStopIsLeast(at[..|at| - 1], i);
    }
  }

  lemma QuitServed(cs: seq<Command>, p: Place)
    requires forall c :: c in cs ==> WellFormed(c)
    ensures AllShort(PrintAll(cs) + QUIT)
    ensures var (q, replies) := RunAll(cs, p); Serve(PrintAll(cs) + QUIT, p) == Served(replies, q.store, Left([]))
  {
    hide NextFrame, RunOne, WellFormed, ShortLine, PrintAll;
    QuitLeaves();
    PipelineServed(cs, QUIT, p);
    var (q, replies) := RunAll(cs, p);
    assert Serve(QUIT, q) == Served([], q.store, Left([]));
    assert replies + [] == replies;
  }
}
