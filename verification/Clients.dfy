// What clients can tell from the bytes they receive.
module Clients {
  import opened Bytes
  import opened Commands
  import opened Parser
  import opened Framing
  import opened Responses
  import opened Items
  import opened Stores
  import opened Printer
  import opened Tokens
  import opened Sessions
  import opened Grammar

  /** A response that can be told apart on the wire, and does not complain about a missing token. */
  predicate Clean(r: Response) {
    Sendable(r) && r != MISSING_CAS
  }

  lemma FormatErrorsAreClean(e: ParseError)
    requires e.kind == BadFormat || e.kind == Unknown
    ensures Clean(e.Response())
  {
  }

  lemma NumberErrorsAreClean(e: ParseError)
    requires e.kind == NumericDelta || e.kind == NumericDelay
    ensures Clean(e.Response())
  {
  }

  lemma SizeErrorIsClean(e: ParseError)
    requires e.kind == TooLarge
    ensures Clean(e.Response())
  {
  }

  lemma FramingErrorsAreClean()
    ensures Clean(LINE_TOO_LONG) && Clean(BAD_DATA_CHUNK)
  {
  }

  lemma ErrorsAreClean(e: ParseError)
    ensures Clean(e.Response())
  {
    hide *;
    match e.kind
    case NumericDelta => NumberErrorsAreClean(e);
    case NumericDelay => NumberErrorsAreClean(e);
    case TooLarge => SizeErrorIsClean(e);
    case _ => FormatErrorsAreClean(e);
  }

  /** Whatever a stream can yield is a proper command or can be answered unambiguously. */
  lemma FrameIsClean(s: bytes, f: Frame)
    requires CanYield(s, f)
    ensures f.Run? ==> Proper(f.command)
    ensures f.Reply? ==> Clean(f.response)
  {
    hide Header, Fields, Find, TrimEnd, Clean, Proper, ParseError.Response;
    var p := Find(s, '\n');
    FramingErrorsAreClean();
    if p < |s| && f == NextFrame(s) {
      var tokens := Fields(TrimEnd(s[..p + 1]));
      var h := Header(tokens);
      if h.Err? {
        ErrorsAreClean(h.error);
      } else {
        AcceptedIsProper(tokens);
      }
    }
  }

  lemma {:induction false} DecodedIsClean(s: bytes, d: Decoded)
    requires Decodes(s, d)
    ensures forall r :: r in d.replies ==> Clean(r)
    ensures d.last.Run? ==> Proper(d.last.command)
    decreases |s|
  {
    hide CanYield, Clean, Proper;
    var f :| CanYield(s, f) &&
      if f.Reply? then
        |f.rest| < |s| && d.replies != [] && d.replies[0] == f.response &&
        Decodes(f.rest, Decoded(d.replies[1..], d.last))
      else d == Decoded([], f);
    FrameIsClean(s, f);
    if f.Reply? {
      DecodedIsClean(f.rest, Decoded(d.replies[1..], d.last));
      assert d.replies == [f.response] + d.replies[1..];
    }
  }

  lemma {:induction false} RetrievedKeys(m: Model, keys: seq<bytes>, op: KeyOp, withCas: bool, now: nat)
    ensures forall v :: v in Retrieve(m, keys, op, withCas, now).1 ==> v.key in keys
    decreases |keys|
  {
    hide OnKey;
    if keys != [] {
      RetrievedKeys(m, keys[..|keys| - 1], op, withCas, now);
    }
  }

  lemma NumbersAreClean(n: nat)
    ensures '\r' !in Decimal(n)
  {
    var d := Decimal(n);
    assert forall i :: 0 <= i < |d| ==> IsDigit(d[i]);
  }

  predicate CleanEntries(es: seq<(bytes, bytes)>) {
    forall e :: e in es ==> ' ' !in e.0 && '\r' !in e.0 && '\r' !in e.1
  }

  lemma CommandReportIsClean(s: Counters)
    ensures CleanEntries(CommandReport(s))
  {
    hide Decimal;
    forall n: nat ensures '\r' !in Decimal(n) {
      NumbersAreClean(n);
    }
  }

  lemma ItemReportIsClean(m: Model)
    ensures CleanEntries(ItemReport(m))
  {
    hide Decimal;
    forall n: nat ensures '\r' !in Decimal(n) {
      NumbersAreClean(n);
    }
  }

  lemma ReportIsClean(m: Model)
    ensures Sendable(StatsReport(Report(m)))
  {
    CommandReportIsClean(m.stats);
    ItemReportIsClean(m);
    assert |CommandReport(m.stats)| == 4;
    hide CommandReport, ItemReport;
  }

  lemma MessagesAreClean(op: ArithmeticOp)
    ensures Sendable(NonNumeric(op))
  {
  }

  lemma OnKeyIsClean(m: Model, key: bytes, op: KeyOp, now: nat)
    requires op.Put? && op.op == Cas ==> op.args.cas.Some?
    ensures Clean(Said(OnKey(m, key, op, now).1))
  {
    hide WithSlot, ParseNumber, Decimal, ResolveExpiry, Joined, ValidKey;
    hide Sendable;
    MessagesAreClean(Incr);
    MessagesAreClean(Decr);
    WordsAreClean();
  }

  lemma WordsAreClean()
    ensures Sendable(Values([]))
    ensures forall r: Response ::
              r.Stored? || r.NotStored? || r.Deleted? || r.NotFound? || r.Exists? || r.Touched? || r.Number? ==>
                Sendable(r)
  {
  }

  lemma AnswerIsClean(m: Model, c: Command, now: nat)
    requires Proper(c)
    ensures Clean(Apply(m, c, now).1)
  {
    hide OnKey, Retrieve, Tally, Report, ValidKey, Sendable;
    if c.Get? || c.GetAndTouch? {
      var op := if c.Get? then Fetch else FetchTouch(c.exptime);
      RetrievedKeys(m, c.keys, op, c.withCas, now);
      ValuesAreClean(Retrieve(m, c.keys, op, c.withCas, now).1, c.keys);
    } else if c.Store? {
      OnKeyIsClean(m, c.args.key, Put(c.op, c.args), now);
    } else if c.Delete? {
      OnKeyIsClean(m, c.key, Erase, now);
    } else if c.Arithmetic? {
      OnKeyIsClean(m, c.key, Adjust(c.arith, c.delta), now);
    } else if c.Touch? {
      OnKeyIsClean(m, c.key, Retouch(c.exptime), now);
    } else if c.Stats? {
      ReportIsClean(m);
    } else {
      FixedIsClean();
    }
  }

  lemma ValuesAreClean(vs: seq<Value>, keys: seq<bytes>)
    requires ValidKeys(keys) && forall v :: v in vs ==> v.key in keys
    ensures Sendable(Values(vs))
  {
    hide ValidKey;
  }

  lemma FixedIsClean()
    ensures Sendable(Okay) && Sendable(VersionIs(VERSION))
  {
  }

  /** Every reply of every session, overlong lines or not, can be told apart, and none misses a token. */
  lemma {:induction false} ServedIsClean(s: bytes, p: Place, served: Served)
    requires Serves(s, p, served)
    ensures forall r :: r in served.replies ==> Clean(r)
    decreases |s|
  {
    hide Decodes, Apply, Clean, Proper;
    var d :| Decodes(s, d) &&
      if d.last.Run? then
        var (q, sent) := RunOne(d.last.command, p);
        var first := d.replies + sent;
        && |d.last.rest| < |s| && first <= served.replies
        && Serves(d.last.rest, q, served.(replies := served.replies[|first|..]))
      else served == Served(d.replies, p.store, d.last);
    DecodedIsClean(s, d);
    if d.last.Run? {
      AnswerIsClean(p.store, d.last.command, p.Now());
      var (q, sent) := RunOne(d.last.command, p);
      var first := d.replies + sent;
      var rest := served.(replies := served.replies[|first|..]);
      ServedIsClean(d.last.rest, q, rest);
      assert served.replies == first + rest.replies;
    }
  }

  /** Two sessions that write the same bytes have given the same responses, whatever data they carried. */
  lemma ClientsCanTell(s1: bytes, p1: Place, served1: Served, s2: bytes, p2: Place, served2: Served)
    requires Serves(s1, p1, served1) && Serves(s2, p2, served2)
    requires EncodeAll(served1.replies) == EncodeAll(served2.replies)
    ensures served1.replies == served2.replies
  {
    hide Serves, Sendable, EncodeAll;
    ServedIsClean(s1, p1, served1);
    ServedIsClean(s2, p2, served2);
    UniquelyDecodable(served1.replies, served2.replies);
  }

  // ---- Asking for no reply ----

  /** A command on a line of its own is run, and answered once, unless the line says it wants no reply. */
  lemma LineIsAnswered(s: bytes, p: Place)
    requires Find(s, '\n') < |s| && NextFrame(s).Run?
    ensures var c := NextFrame(s).command;
            var tokens := Fields(TrimEnd(s[..Find(s, '\n') + 1]));
            var sent := RunOne(c, p).1;
            if !IsRetrieval(c) && EndsInNoReply(tokens) then sent == [] else |sent| == 1
  {
    hide Header, Fields, TrimEnd, Spells, Command.NoReply, Apply, Proper;
    var line := TrimEnd(s[..Find(s, '\n') + 1]);
    var rest, tokens := s[Find(s, '\n') + 1..], Fields(line);
    var h := Header(tokens);
    var data := if h.Ok? && h.value.Pending? && h.value.store.len <= |rest| then rest[..h.value.store.len] else [];
    if h.Ok? {
      AcceptedIsSpelled(tokens, data);
      NoReplyIsWritten(tokens, NextFrame(s).command);
    }
  }

  /** Serving one printed command sends nothing exactly when its last word is the wish for no reply, else one reply. */
  lemma PrintedIsAnswered(c: Command, p: Place)
    requires WellFormed(c)
    ensures |Serve(Print(c), p).replies| == if !IsRetrieval(c) && EndsInNoReply(Words(c)) then 0 else 1
  {
    hide NextFrame, WellFormed, Print, Apply, Command.NoReply, Words, Spells;
    CommandRoundTrip(c, []);
    assert Print(c) + [] == Print(c);
    assert Serve([], RunOne(c, p).0) == Served([], RunOne(c, p).0.store, Hangup([])) by {
      NothingNext();
    }
    PrintedIsSpelled(c);
    NoReplyIsWritten(Words(c), c);
  }

  lemma NothingNext()
    ensures NextFrame([]) == Hangup([])
  {
  }

  lemma PrintedIsSpelled(c: Command)
    ensures Spells(Words(c), c)
  {
    hide Denotes, Integer, NoReplyWord;
    var ts := Arguments(c);
    assert Words(c)[1..] == ts;
    forall i | 0 <= i < |ts| && NumberAt(c, i).Some? ensures Denotes(ts[i], NumberAt(c, i).value) {
      var v := NumberAt(c, i).value;
      FieldRoundTrip(v, v, v);
      FieldAccepts(Integer(v), v, v, v);
    }
  }
}
