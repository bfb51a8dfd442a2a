// Which command lines are accepted, and what the others are told (src/parser.rs).
module Grammar {
  import opened Bytes
  import opened Commands
  import opened Parser
  import opened Framing
  import opened Printer

  /** The arguments of a command that are numbers, and may be written with a sign and zeros. */
  function NumberAt(c: Command, i: nat): Option<int> {
    match c
    case GetAndTouch(_, exptime, _) => if i == 0 then Some(exptime) else None
    case Store(_, a) =>
      if i == 1 then Some(a.flags)
      else if i == 2 then Some(a.exptime)
      else if i == 3 then Some(|a.data|)
      else if i == 4 && a.cas.Some? then Some(a.cas.value)
      else None
    case Arithmetic(_, _, delta, _) => if i == 1 then Some(delta) else None
    case Touch(_, exptime, _) => if i == 1 then Some(exptime) else None
    case FlushAll(delay, _) => if i == 0 && delay.Some? then Some(delay.value) else None
    case Verbosity(level, _) => if i == 0 then Some(level) else None
    case _ => None
  }

  /** The tokens are the arguments of `c`, word by word, with the same numbers where it has numbers. */
  ghost predicate SpellsArguments(ts: seq<bytes>, c: Command) {
    && |ts| == |Arguments(c)|
    && forall i | 0 <= i < |ts| ::
         if NumberAt(c, i).Some? then Denotes(ts[i], NumberAt(c, i).value) else ts[i] == Arguments(c)[i]
  }

  /** The tokens ask for `c`. */
  ghost predicate Spells(tokens: seq<bytes>, c: Command) {
    tokens != [] && tokens[0] == Verb(c) && SpellsArguments(tokens[1..], c)
  }

  /** A number within the bounds of its type. */
  ghost predicate NumberIn(tok: bytes, lo: int, hi: int) {
    exists v :: lo <= v <= hi && Denotes(tok, v)
  }

  lemma FieldIsNumber(tok: bytes, lo: int, hi: int)
    ensures ParseField(tok, lo, hi).Some? <==> NumberIn(tok, lo, hi)
    ensures ParseField(tok, lo, hi).Some? ==> Denotes(tok, ParseField(tok, lo, hi).value)
  {
    hide ParseField, Denotes;
    forall v: int ensures ParseField(tok, lo, hi) == Some(v) <==> lo <= v <= hi && Denotes(tok, v) {
      FieldAccepts(tok, lo, hi, v);
    }
  }

  lemma WordIsNoNumber(v: int)
    ensures !Denotes("noreply", v)
  {
    hide Denotes;
    FieldAccepts("noreply", v, v, v);
    var w: bytes := "noreply";
    assert !IsDigit(w[0]);
  }

  // ---- What is spelled is accepted ----

  lemma SpelledTail(ts: seq<bytes>, k: nat, c: Command, noreply: bool)
    requires SpellsArguments(ts, c) && k <= |ts| && Arguments(c)[k..] == NoReplyWord(noreply)
    requires forall i | k <= i < |ts| :: NumberAt(c, i) == None
    ensures ts[k..] == NoReplyWord(noreply)
  {
    hide Denotes, Arguments, NumberAt;
    forall i | 0 <= i < |ts| - k ensures ts[k..][i] == NoReplyWord(noreply)[i] {
      assert ts[k + i] == Arguments(c)[k + i] == Arguments(c)[k..][i];
    }
  }

  lemma SpelledRetrieval(ts: seq<bytes>, c: Command)
    requires (c.Get? || c.GetAndTouch?) && Proper(c) && SpellsArguments(ts, c)
    ensures c.Get? ==> GetHeader(c.withCas, ts) == Ok(Immediate(c))
    ensures c.GetAndTouch? ==> GetAndTouchHeader(c.withCas, ts) == Ok(Immediate(c))
  {
    hide ParseField, ValidKey, Denotes, Integer;
    if c.Get? {
      assert ts == c.keys;
    } else {
      FieldAccepts(ts[0], I64_MIN, I64_MAX, c.exptime);
      assert ts[1..] == c.keys;
    }
  }

  lemma SpelledKeyed(ts: seq<bytes>, c: Command)
    requires (c.Delete? || c.Arithmetic? || c.Touch?) && Proper(c) && SpellsArguments(ts, c)
    ensures c.Delete? ==> DeleteHeader(ts) == Ok(Immediate(c))
    ensures c.Arithmetic? ==> ArithmeticHeader(c.arith, ts) == Ok(Immediate(c))
    ensures c.Touch? ==> TouchHeader(ts) == Ok(Immediate(c))
  {
    hide ParseField, ValidKey, Denotes, Integer;
    if c.Delete? {
      SpelledTail(ts, 1, c, c.noreply);
    } else if c.Arithmetic? {
      FieldAccepts(ts[1], 0, U64_MAX, c.delta);
      SpelledTail(ts, 2, c, c.noreply);
    } else {
      FieldAccepts(ts[1], I64_MIN, I64_MAX, c.exptime);
      SpelledTail(ts, 2, c, c.noreply);
    }
  }

  lemma SpelledAdmin(ts: seq<bytes>, c: Command)
    requires (c.FlushAll? || c.Version? || c.Verbosity? || c.Stats?) && SpellsArguments(ts, c)
    ensures c.FlushAll? ==> FlushAllHeader(ts) == Ok(Immediate(c))
    ensures c.Verbosity? ==> VerbosityHeader(ts) == Ok(Immediate(c))
    ensures c.Version? || c.Stats? ==> BareHeader(c, ts) == Ok(Immediate(c))
  {
    hide ParseField, Denotes, Integer;
    if c.Verbosity? {
      FieldAccepts(ts[0], 0, U32_MAX, c.level);
      SpelledTail(ts, 1, c, c.noreply);
    } else if c.FlushAll? && c.delay.Some? {
      FieldAccepts(ts[0], 0, U32_MAX, c.delay.value);
      WordIsNoNumber(c.delay.value);
      SpelledTail(ts, 1, c, c.noreply);
    } else if c.FlushAll? {
      SpelledTail(ts, 0, c, c.noreply);
      assert ts[0..] == ts;
    }
  }

  lemma SpelledStore(ts: seq<bytes>, c: Command)
    requires c.Store? && Proper(c) && SpellsArguments(ts, c)
    ensures StoreHeader(c.op, ts) == Ok(Pending(PendingStore(c.op, c.args.key, c.args.flags, c.args.exptime,
                                                             |c.args.data|, c.args.cas, c.args.noreply)))
  {
    hide ParseField, ValidKey, Denotes, Integer, StoreTail, StoreHeader;
    var a := c.args;
    FieldAccepts(ts[1], 0, U32_MAX, a.flags);
    FieldAccepts(ts[2], I64_MIN, I64_MAX, a.exptime);
    FieldAccepts(ts[3], 0, U64_MAX, |a.data|);
    SpelledStoreTail(ts, c);
    assert ts == [a.key, ts[1], ts[2], ts[3]] + ts[4..];
    StoreHeaderOf(c.op, a, ts[1], ts[2], ts[3], ts[4..]);
  }

  lemma SpelledStoreTail(ts: seq<bytes>, c: Command)
    requires c.Store? && Proper(c) && SpellsArguments(ts, c)
    ensures |ts| >= 4 && StoreTail(c.op, ts[4..]) == Some((c.args.cas, c.args.noreply))
  {
    hide ParseField, ValidKey, Denotes, Integer;
    if c.args.cas.Some? {
      FieldAccepts(ts[4], 0, U64_MAX, c.args.cas.value);
      SpelledTail(ts, 5, c, c.args.noreply);
      assert ts[4..][0] == ts[4] && ts[4..][1..] == ts[5..];
    } else {
      SpelledTail(ts, 4, c, c.args.noreply);
    }
  }

  lemma SpelledVerb(tokens: seq<bytes>, c: Command)
    requires tokens != [] && tokens[0] == Verb(c)
    ensures var ts := tokens[1..];
            Header(tokens) ==
            match c
            case Get(_, withCas) => GetHeader(withCas, ts)
            case GetAndTouch(_, _, withCas) => GetAndTouchHeader(withCas, ts)
            case Store(op, _) => StoreHeader(op, ts)
            case Delete(_, _) => DeleteHeader(ts)
            case Arithmetic(op, _, _, _) => ArithmeticHeader(op, ts)
            case Touch(_, _, _) => TouchHeader(ts)
            case FlushAll(_, _) => FlushAllHeader(ts)
            case Version => BareHeader(c, ts)
            case Verbosity(_, _) => VerbosityHeader(ts)
            case Stats => BareHeader(c, ts)
  {
    hide GetHeader, GetAndTouchHeader, StoreHeader, DeleteHeader, ArithmeticHeader, TouchHeader;
    hide FlushAllHeader, BareHeader, VerbosityHeader;
  }

  /** Tokens that ask for a proper command are parsed as it. */
  lemma SpelledIsAccepted(tokens: seq<bytes>, c: Command)
    requires Proper(c) && Spells(tokens, c)
    ensures HeaderOf(Header(tokens), c)
  {
    hide Header, Proper, Verb, SpellsArguments;
    hide GetHeader, GetAndTouchHeader, StoreHeader, DeleteHeader, ArithmeticHeader, TouchHeader;
    hide FlushAllHeader, BareHeader, VerbosityHeader;
    SpelledVerb(tokens, c);
    match c
    case Get(_, _) => SpelledRetrieval(tokens[1..], c);
    case GetAndTouch(_, _, _) => SpelledRetrieval(tokens[1..], c);
    case Store(_, _) => SpelledStore(tokens[1..], c);
    case Delete(_, _) => SpelledKeyed(tokens[1..], c);
    case Arithmetic(_, _, _, _) => SpelledKeyed(tokens[1..], c);
    case Touch(_, _, _) => SpelledKeyed(tokens[1..], c);
    case _ => SpelledAdmin(tokens[1..], c);
  }

  // ---- What is accepted is spelled ----

  lemma TailIsWord(ts: seq<bytes>)
    ensures NoReplyOf(ts).Ok? ==> ts == NoReplyWord(NoReplyOf(ts).value)
  {
  }

  lemma AcceptedRetrievals(withCas: bool, ts: seq<bytes>)
    ensures GetHeader(withCas, ts).Ok? ==>
              var h := GetHeader(withCas, ts).value;
              h.Immediate? && h.command.Get? && h.command.withCas == withCas && SpellsArguments(ts, h.command)
    ensures GetAndTouchHeader(withCas, ts).Ok? ==>
              var h := GetAndTouchHeader(withCas, ts).value;
              h.Immediate? && h.command.GetAndTouch? && h.command.withCas == withCas && SpellsArguments(ts, h.command)
  {
    hide ParseField, ValidKey, Denotes, Integer;
    if ts != [] {
      FieldIsNumber(ts[0], I64_MIN, I64_MAX);
      assert ts == [ts[0]] + ts[1..];
    }
  }

  lemma AcceptedKeyedCommands(op: ArithmeticOp, ts: seq<bytes>)
    ensures DeleteHeader(ts).Ok? ==>
              var h := DeleteHeader(ts).value; h.Immediate? && h.command.Delete? && SpellsArguments(ts, h.command)
    ensures ArithmeticHeader(op, ts).Ok? ==>
              var h := ArithmeticHeader(op, ts).value;
              h.Immediate? && h.command.Arithmetic? && h.command.arith == op && SpellsArguments(ts, h.command)
    ensures TouchHeader(ts).Ok? ==>
              var h := TouchHeader(ts).value; h.Immediate? && h.command.Touch? && SpellsArguments(ts, h.command)
  {
    hide ParseField, ValidKey, Denotes, Integer;
    if |ts| >= 1 {
      TailIsWord(ts[1..]);
      assert ts == [ts[0]] + ts[1..];
    }
    if |ts| >= 2 {
      TailIsWord(ts[2..]);
      FieldIsNumber(ts[1], 0, U64_MAX);
      FieldIsNumber(ts[1], I64_MIN, I64_MAX);
      assert ts == [ts[0], ts[1]] + ts[2..];
    }
  }

  lemma AcceptedAdminCommands(c: Command, ts: seq<bytes>)
    requires c.Version? || c.Stats?
    ensures FlushAllHeader(ts).Ok? ==>
              var h := FlushAllHeader(ts).value; h.Immediate? && h.command.FlushAll? && SpellsArguments(ts, h.command)
    ensures VerbosityHeader(ts).Ok? ==>
              var h := VerbosityHeader(ts).value; h.Immediate? && h.command.Verbosity? && SpellsArguments(ts, h.command)
    ensures BareHeader(c, ts).Ok? ==> BareHeader(c, ts) == Ok(Immediate(c)) && SpellsArguments(ts, c)
  {
    hide ParseField, Denotes, Integer;
    if |ts| >= 1 {
      TailIsWord(ts[1..]);
      FieldIsNumber(ts[0], 0, U32_MAX);
      assert ts == [ts[0]] + ts[1..];
    }
  }

  lemma AcceptedStorage(op: StoreOp, ts: seq<bytes>, data: bytes)
    requires StoreHeader(op, ts).Ok?
    ensures var h := StoreHeader(op, ts).value;
            h.Pending? && h.store.op == op && (|data| == h.store.len ==> SpellsArguments(ts, h.store.IntoCommand(data)))
  {
    hide ParseField, ValidKey, Denotes, Integer, StoreTail;
    FieldIsNumber(ts[1], 0, U32_MAX);
    FieldIsNumber(ts[2], I64_MIN, I64_MAX);
    FieldIsNumber(ts[3], 0, U64_MAX);
    AcceptedTail(op, ts[4..]);
    assert ts == [ts[0], ts[1], ts[2], ts[3]] + ts[4..];
  }

  lemma AcceptedTail(op: StoreOp, ts: seq<bytes>)
    ensures match StoreTail(op, ts)
            case None => true
            case Some((cas, noreply)) =>
              if cas.Some? then ts != [] && Denotes(ts[0], cas.value) && ts == [ts[0]] + NoReplyWord(noreply)
              else ts == NoReplyWord(noreply)
  {
    hide ParseField, Denotes;
    TailIsWord(ts);
    if ts != [] {
      TailIsWord(ts[1..]);
      FieldIsNumber(ts[0], 0, U64_MAX);
      assert ts == [ts[0]] + ts[1..];
    }
  }

  /** Accepted tokens ask for the proper command they are parsed as; `quit` takes no notice of what follows it. */
  lemma AcceptedIsSpelled(tokens: seq<bytes>, data: bytes)
    requires Header(tokens).Ok?
    ensures tokens != []
    ensures match Header(tokens).value
            case Immediate(c) => Proper(c) && Spells(tokens, c)
            case Pending(p) => |data| == p.len ==> Proper(p.IntoCommand(data)) && Spells(tokens, p.IntoCommand(data))
            case Quit => tokens[0] == "quit"
  {
    hide GetHeader, GetAndTouchHeader, StoreHeader, DeleteHeader, ArithmeticHeader, TouchHeader;
    hide FlushAllHeader, BareHeader, VerbosityHeader, SpellsArguments, Proper;
    AcceptedIsProper(tokens);
    var ts := tokens[1..];
    AcceptedRetrievals(true, ts);
    AcceptedRetrievals(false, ts);
    AcceptedKeyedCommands(Incr, ts);
    AcceptedKeyedCommands(Decr, ts);
    AcceptedAdminCommands(Command.Version, ts);
    AcceptedAdminCommands(Command.Stats, ts);
    if StoreOpOf(tokens[0]).Some? && StoreHeader(StoreOpOf(tokens[0]).value, ts).Ok? {
      AcceptedStorage(StoreOpOf(tokens[0]).value, ts, data);
    }
  }

  /** Exactly these token lists are accepted: those that begin with `quit`, and those that ask for a proper command. */
  lemma AcceptedExactly(tokens: seq<bytes>)
    ensures Header(tokens).Ok? <==> tokens != [] && (tokens[0] == "quit" || exists c :: Proper(c) && Spells(tokens, c))
  {
    hide Header, Proper, Spells;
    if Header(tokens).Ok? {
      var data := if Header(tokens).value.Pending? then Padding(Header(tokens).value.store.len) else [];
      AcceptedIsSpelled(tokens, data);
    }
    if tokens != [] && tokens[0] == "quit" {
      QuitIsAccepted(tokens);
    } else if c :| Proper(c) && Spells(tokens, c) {
      SpelledIsAccepted(tokens, c);
    }
  }

  function Padding(n: nat): (s: bytes)
    ensures |s| == n
  {
    seq(n, _ => 'x')
  }

  lemma QuitIsAccepted(tokens: seq<bytes>)
    requires tokens != [] && tokens[0] == "quit"
    ensures Header(tokens) == Ok(Quit)
  {
  }

  // ---- What is rejected, and how ----

  /** A key has 1 to 250 bytes, none of them a control character, a space or DEL. */
  lemma KeyIsValid(key: bytes)
    ensures ValidKey(key) <==>
              1 <= |key| <= 250 && forall i :: 0 <= i < |key| ==> key[i] as int > 0x20 && key[i] as int != 0x7F
  {
  }

  const BAD_FORMAT := ClientError("bad command line format")

  predicate IsStorageVerb(verb: bytes) {
    verb == "set" || verb == "add" || verb == "replace" || verb == "append" || verb == "prepend" || verb == "cas"
  }

  /** A storage line is told that it is incomplete, that its data would be too large, or that it is malformed. */
  ghost function StorageSays(ts: seq<bytes>): Response {
    if |ts| < 4 then Error
    else if NumberIn(ts[3], 1024 * 1024 + 1, 0xFFFF_FFFF_FFFF_FFFF) then ServerError("object too large for cache")
    else BAD_FORMAT
  }

  /** What a client is told whose line is not accepted. */
  ghost function Complaint(tokens: seq<bytes>): Response {
    if tokens == [] then Error
    else
      var verb, n := tokens[0], |tokens|;
      if IsStorageVerb(verb) then StorageSays(tokens[1..])
      else if verb == "get" || verb == "gets" || verb == "delete" || verb == "verbosity" then
        if n < 2 then Error else BAD_FORMAT
      else if verb == "gat" || verb == "gats" then
        if n < 2 then Error
        else if !NumberIn(tokens[1], -0x8000_0000_0000_0000, 0x7FFF_FFFF_FFFF_FFFF) then BAD_FORMAT
        else if n < 3 then Error
        else BAD_FORMAT
      else if verb == "incr" || verb == "decr" then
        if n < 3 then Error
        else if ValidKey(tokens[1]) && !NumberIn(tokens[2], 0, 0xFFFF_FFFF_FFFF_FFFF)
        then ClientError("invalid numeric delta")
        else BAD_FORMAT
      else if verb == "touch" then
        if n < 3 then Error else BAD_FORMAT
      else if verb == "flush_all" then
        if n >= 2 && tokens[1] != "noreply" && !NumberIn(tokens[1], 0, 0xFFFF_FFFF)
        then ClientError("invalid numeric delay")
        else BAD_FORMAT
      else if verb == "version" || verb == "stats" then BAD_FORMAT
      else Error
  }

  lemma StorageComplaint(op: StoreOp, ts: seq<bytes>)
    ensures match StoreHeader(op, ts)
            case Ok(_) => true
            case Err(e) => e.Response() == StorageSays(ts)
  {
    hide ParseField, ValidKey, NumberIn, StoreTail;
    if |ts| >= 4 {
      TooLargeIsNumber(ts[3]);
    }
  }

  lemma TooLargeIsNumber(tok: bytes)
    ensures NumberIn(tok, 1024 * 1024 + 1, U64_MAX) <==>
              ParseField(tok, 0, U64_MAX).Some? && ParseField(tok, 0, U64_MAX).value > MAX_ITEM_SIZE
  {
    hide ParseField, Denotes;
    FieldIsNumber(tok, 0, U64_MAX);
    if v :| 1024 * 1024 + 1 <= v <= U64_MAX && Denotes(tok, v) {
      OneNumber(tok, v);
    }
  }

  lemma OneNumber(tok: bytes, v: int)
    requires Denotes(tok, v)
    ensures forall w :: Denotes(tok, w) ==> w == v
  {
    hide Denotes, ParseField;
    forall w | Denotes(tok, w) ensures w == v {
      var lo, hi := if v < w then v else w, if v < w then w else v;
      FieldAccepts(tok, lo, hi, v);
      FieldAccepts(tok, lo, hi, w);
    }
  }

  lemma RetrievalComplaint(withCas: bool, ts: seq<bytes>)
    ensures match GetHeader(withCas, ts)
            case Ok(_) => true
            case Err(e) => e.Response() == if ts == [] then Error else BAD_FORMAT
    ensures match GetAndTouchHeader(withCas, ts)
            case Ok(_) => true
            case Err(e) =>
              e.Response() == if ts == [] then Error
                              else if !NumberIn(ts[0], I64_MIN, I64_MAX) then BAD_FORMAT
                              else if |ts| == 1 then Error
                              else BAD_FORMAT
  {
    hide ParseField, ValidKey, Denotes;
    if ts != [] {
      FieldIsNumber(ts[0], I64_MIN, I64_MAX);
    }
  }

  lemma KeyedComplaint(op: ArithmeticOp, ts: seq<bytes>)
    ensures match DeleteHeader(ts)
            case Ok(_) => true
            case Err(e) => e.Response() == if ts == [] then Error else BAD_FORMAT
    ensures match ArithmeticHeader(op, ts)
            case Ok(_) => true
            case Err(e) =>
              e.Response() == if |ts| < 2 then Error
                              else if ValidKey(ts[0]) && !NumberIn(ts[1], 0, U64_MAX)
                              then ClientError("invalid numeric delta")
                              else BAD_FORMAT
    ensures match TouchHeader(ts)
            case Ok(_) => true
            case Err(e) => e.Response() == if |ts| < 2 then Error else BAD_FORMAT
  {
    hide ParseField, ValidKey, Denotes;
    if |ts| >= 2 {
      FieldIsNumber(ts[1], 0, U64_MAX);
    }
  }

  lemma AdminComplaint(c: Command, ts: seq<bytes>)
    ensures match FlushAllHeader(ts)
            case Ok(_) => true
            case Err(e) =>
              e.Response() == if ts != [] && ts[0] != "noreply" && !NumberIn(ts[0], 0, U32_MAX)
                              then ClientError("invalid numeric delay")
                              else BAD_FORMAT
    ensures match VerbosityHeader(ts)
            case Ok(_) => true
            case Err(e) => e.Response() == if ts == [] then Error else BAD_FORMAT
    ensures match BareHeader(c, ts)
            case Ok(_) => true
            case Err(e) => e.Response() == BAD_FORMAT
  {
    hide ParseField, Denotes;
    if ts != [] {
      FieldIsNumber(ts[0], 0, U32_MAX);
    }
  }

  /** A rejected line is answered with the complaint its tokens call for. */
  lemma RejectedSays(tokens: seq<bytes>)
    requires Header(tokens).Err?
    ensures Header(tokens).error.Response() == Complaint(tokens)
  {
    hide GetHeader, GetAndTouchHeader, StoreHeader, DeleteHeader, ArithmeticHeader, TouchHeader;
    hide FlushAllHeader, BareHeader, VerbosityHeader, Denotes, ValidKey, StorageSays;
    if tokens != [] {
      var ts := tokens[1..];
      RetrievalComplaint(true, ts);
      RetrievalComplaint(false, ts);
      KeyedComplaint(Incr, ts);
      KeyedComplaint(Decr, ts);
      AdminComplaint(Command.Version, ts);
      AdminComplaint(Command.Stats, ts);
      if StoreOpOf(tokens[0]).Some? {
        StorageComplaint(StoreOpOf(tokens[0]).value, ts);
      }
    }
  }

  // ---- Asking for no reply ----

  predicate IsRetrieval(c: Command) {
    c.Get? || c.GetAndTouch?
  }

  /** The last word is "noreply", and is not the key of a delete. */
  predicate EndsInNoReply(tokens: seq<bytes>) {
    tokens != [] && tokens[|tokens| - 1] == "noreply" && !(tokens[0] == "delete" && |tokens| == 2)
  }

  /** A command that is no retrieval asks for no reply exactly when the client has written so. */
  lemma NoReplyIsWritten(tokens: seq<bytes>, c: Command)
    requires Spells(tokens, c)
    ensures c.NoReply() <==> !IsRetrieval(c) && EndsInNoReply(tokens)
  {
    hide Denotes, Integer, ValidKey;
    var ts, n := tokens[1..], |tokens|;
    if n > 1 {
      assert tokens[n - 1] == ts[n - 2];
      if NumberAt(c, n - 2).Some? {
        WordIsNoNumber(NumberAt(c, n - 2).value);
      }
    }
  }

  // ---- Lines and blocks ----

  predicate LineEnd(b: byte) {
    b as int == 13 || b as int == 10
  }

  /** Of a line all carriage returns and newlines at its end are removed, and nothing else. */
  lemma {:induction false} TrimsLineEnds(s: bytes)
    ensures var t := TrimEnd(s);
            && t <= s && (forall i :: |t| <= i < |s| ==> LineEnd(s[i]))
            && (t != [] ==> !LineEnd(t[|t| - 1]))
  {
    if s != [] && (s[|s| - 1] == '\n' || s[|s| - 1] == '\r') {
      TrimsLineEnds(s[..|s| - 1]);
    }
  }

  /** A data block is taken with its bytes when CR LF follows it, and complained about otherwise. */
  lemma BlockIsTaken(p: PendingStore, s: bytes)
    requires |s| >= p.len + 2
    ensures PayloadFrame(p, s) ==
            if s[p.len] as int == 13 && s[p.len + 1] as int == 10
            then Run(Command.Store(p.op, StoreArgs(p.key, p.flags, p.exptime, s[..p.len], p.noreply, p.cas)),
                     s[p.len + 2..])
            else Reply(ClientError("bad data chunk"), s[p.len + 2..])
  {
    assert s[p.len..p.len + 2] == [s[p.len], s[p.len + 1]];
  }

  /** A line is complained about when 8192 bytes of it come without an end. */
  lemma TooLongIsSaid(s: bytes)
    requires Find(s, '\n') == |s|
    ensures NextFrame(s) == if |s| < 8192 then Hangup(s) else Reply(ClientError("line too long"), [])
    ensures RefusedFrame(s) == Reply(ClientError("line too long"), [])
  {
  }
}
