// A printer of commands, written as specification, and the round trips through the decoder.
module Printer {
  import opened Bytes
  import opened Commands
  import opened Tokens
  import opened Parser
  import opened Framing

  function Integer(v: int): bytes {
    if v < 0 then "-" + Decimal(-v) else Decimal(v)
  }

  function VerbOf(op: StoreOp): bytes {
    match op
    case Set => "set"
    case Add => "add"
    case Replace => "replace"
    case Append => "append"
    case Prepend => "prepend"
    case Cas => "cas"
  }

  function NoReplyWord(noreply: bool): seq<bytes> {
    if noreply then ["noreply"] else []
  }

  function TailWords(cas: Option<u64>, noreply: bool): seq<bytes> {
    (if cas.Some? then [Integer(cas.value)] else []) + NoReplyWord(noreply)
  }

  function Verb(c: Command): bytes {
    match c
    case Get(_, withCas) => if withCas then "gets" else "get"
    case GetAndTouch(_, _, withCas) => if withCas then "gats" else "gat"
    case Store(op, _) => VerbOf(op)
    case Delete(_, _) => "delete"
    case Arithmetic(op, _, _, _) => if op == Incr then "incr" else "decr"
    case Touch(_, _, _) => "touch"
    case FlushAll(_, _) => "flush_all"
    case Version => "version"
    case Verbosity(_, _) => "verbosity"
    case Stats => "stats"
  }

  function Arguments(c: Command): seq<bytes> {
    match c
    case Get(keys, _) => keys
    case GetAndTouch(keys, exptime, _) => [Integer(exptime)] + keys
    case Store(_, a) =>
      [a.key, Integer(a.flags), Integer(a.exptime), Integer(|a.data|)] + TailWords(a.cas, a.noreply)
    case Delete(key, noreply) => [key] + NoReplyWord(noreply)
    case Arithmetic(_, key, delta, noreply) => [key, Integer(delta)] + NoReplyWord(noreply)
    case Touch(key, exptime, noreply) => [key, Integer(exptime)] + NoReplyWord(noreply)
    case FlushAll(delay, noreply) =>
      (if delay.Some? then [Integer(delay.value)] else []) + NoReplyWord(noreply)
    case Verbosity(level, noreply) => [Integer(level)] + NoReplyWord(noreply)
    case _ => []
  }

  /** The words of the command line that asks for `c`. */
  function Words(c: Command): seq<bytes> {
    [Verb(c)] + Arguments(c)
  }

  function CommandLine(c: Command): bytes {
    Verb(c) + Spaced(Arguments(c))
  }

  function Print(c: Command): bytes {
    CommandLine(c) + CRLF + DataBlock(c)
  }

  function DataBlock(c: Command): bytes {
    if c.Store? then c.args.data + CRLF else []
  }

  function PrintAll(cs: seq<Command>): bytes {
    if cs == [] then [] else Print(cs[0]) + PrintAll(cs[1..])
  }

  /** What a client may ask for: valid keys, data within 1 MiB, a token exactly for `cas`. */
  predicate Proper(c: Command) {
    match c
    case Get(keys, _) => keys != [] && ValidKeys(keys)
    case GetAndTouch(keys, _, _) => keys != [] && ValidKeys(keys)
    case Store(op, a) => ValidKey(a.key) && |a.data| <= MAX_ITEM_SIZE && (op == Cas <==> a.cas.Some?)
    case Delete(key, _) => ValidKey(key)
    case Arithmetic(_, key, _, _) => ValidKey(key)
    case Touch(key, _, _) => ValidKey(key)
    case _ => true
  }

  /** And a line within the limit. */
  predicate WellFormed(c: Command) {
    Proper(c) && |CommandLine(c)| + 1 < MAX_LINE_LEN
  }

  lemma FieldRoundTrip(v: int, lo: int, hi: int)
    requires lo <= v <= hi
    ensures ParseField(Integer(v), lo, hi) == Some(v)
  {
    var d := Decimal(if v < 0 then -v else v);
    DecimalDenotes(if v < 0 then -v else v);
    assert IsDigit(d[0]);
    if v < 0 {
      assert Integer(v)[1..] == d;
    }
  }

  // ---- Which tokens are numbers ----

  function Zeros(n: nat): (z: bytes)
    ensures |z| == n && forall i :: 0 <= i < n ==> z[i] == '0'
  {
    seq(n, _ => '0')
  }

  /** The digits are the decimal form of `n` behind any number of zeros. */
  ghost predicate Padded(digits: bytes, n: nat) {
    exists z: nat :: digits == Zeros(z) + Decimal(n)
  }

  /** A number is written with an optional sign; no digits at all stand for zero. */
  ghost predicate Denotes(tok: bytes, v: int) {
    || (v == 0 && (tok == "" || tok == "+" || tok == "-"))
    || (v >= 0 && Padded(tok, v))
    || (v >= 0 && tok != [] && tok[0] == '+' && Padded(tok[1..], v))
    || (v <= 0 && tok != [] && tok[0] == '-' && Padded(tok[1..], -v))
  }

  lemma {:induction false} ZerosDenoteNothing(z: nat)
    ensures Numeral(Zeros(z)) == 0
  {
    if z > 0 {
      ZerosDenoteNothing(z - 1);
      assert Zeros(z)[..z - 1] == Zeros(z - 1);
    }
  }

  lemma {:induction false} PaddedDenotes(z: nat, n: nat)
    ensures AllDigits(Zeros(z) + Decimal(n)) && Numeral(Zeros(z) + Decimal(n)) == n
    decreases n
  {
    var d := Zeros(z) + Decimal(n);
    assert AllDigits(d);
    if n < 10 {
      ZerosDenoteNothing(z);
      assert d[..|d| - 1] == Zeros(z);
    } else {
      PaddedDenotes(z, n / 10);
      assert d[..|d| - 1] == Zeros(z) + Decimal(n / 10);
    }
  }

  lemma OneMoreDigit(z: nat, n: nat, x: nat)
    requires x < 10
    ensures Padded(Zeros(z) + Decimal(n) + [Digit(x)], 10 * n + x)
  {
    if n == 0 {
      assert Decimal(0) == ['0'];
      assert Zeros(z) + ['0'] == Zeros(z + 1);
      assert Zeros(z) + Decimal(n) + [Digit(x)] == Zeros(z + 1) + Decimal(x);
    } else {
      assert Decimal(10 * n + x) == Decimal(n) + [Digit(x)];
      assert Zeros(z) + Decimal(n) + [Digit(x)] == Zeros(z) + Decimal(10 * n + x);
    }
  }

  lemma OneDigit(x: nat)
    requires x < 10
    ensures Padded([Digit(x)], x)
  {
    assert [Digit(x)] == Zeros(0) + Decimal(x);
  }

  lemma LastDigit(d: bytes) returns (x: nat)
    requires d != [] && AllDigits(d)
    ensures x < 10 && d == d[..|d| - 1] + [Digit(x)] && AllDigits(d[..|d| - 1])
    ensures Numeral(d) == 10 * Numeral(d[..|d| - 1]) + x && Numeral([]) == 0
  {
    assert IsDigit(d[|d| - 1]);
    x := d[|d| - 1] as int - '0' as int;
  }

  lemma {:induction false} DigitsArePadded(d: bytes)
    requires d != [] && AllDigits(d)
    ensures Padded(d, Numeral(d))
  {
    hide Decimal, Numeral, Zeros;
    var init := d[..|d| - 1];
    var x := LastDigit(d);
    if init == [] {
      assert d == [Digit(x)];
      OneDigit(x);
    } else {
      DigitsArePadded(init);
      var z: nat :| init == Zeros(z) + Decimal(Numeral(init));
      OneMoreDigit(z, Numeral(init), x);
    }
  }

  lemma DigitsDenote(d: bytes, n: nat)
    ensures d != [] && AllDigits(d) && Numeral(d) == n <==> Padded(d, n)
  {
    hide Numeral;
    if Padded(d, n) {
      var z: nat :| d == Zeros(z) + Decimal(n);
      PaddedDenotes(z, n);
    }
    if d != [] && AllDigits(d) {
      DigitsArePadded(d);
    }
  }

  /** A field is accepted exactly when it is written as a number of its range, and gives that number. */
  lemma FieldAccepts(tok: bytes, lo: int, hi: int, v: int)
    ensures ParseField(tok, lo, hi) == Some(v) <==> lo <= v <= hi && Denotes(tok, v)
  {
    hide Padded;
    var signed := tok != [] && (tok[0] == '+' || tok[0] == '-');
    var digits := if signed then tok[1..] else tok;
    if v >= 0 {
      DigitsDenote(digits, v);
    }
    if v <= 0 {
      DigitsDenote(digits, -v);
    }
    if signed {
      SignIsNoDigit(tok);
    }
  }

  lemma SignIsNoDigit(tok: bytes)
    requires tok != [] && !IsDigit(tok[0])
    ensures forall n: nat :: !Padded(tok, n)
  {
    hide Numeral;
    forall n: nat ensures !Padded(tok, n) {
      DigitsDenote(tok, n);
    }
  }

  /** The header a printed command parses to: everything but the data block. */
  ghost predicate HeaderOf(h: Parsed, c: Command) {
    match h
    case Ok(Immediate(c')) => c' == c && !c.Store?
    case Ok(Pending(p)) => c.Store? && p.len == |c.args.data| && p.IntoCommand(c.args.data) == c
    case _ => false
  }

  /** Which parser the verb of a printed command selects. */
  lemma VerbSelects(c: Command)
    ensures var ts := Arguments(c);
            Header(Words(c)) ==
            match c
            case Get(_, withCas) => GetHeader(withCas, ts)
            case GetAndTouch(_, _, withCas) => GetAndTouchHeader(withCas, ts)
            case Store(op, _) => StoreHeader(op, ts)
            case Delete(_, _) => DeleteHeader(ts)
            case Arithmetic(op, _, _, _) => ArithmeticHeader(op, ts)
            case Touch(_, _, _) => TouchHeader(ts)
            case FlushAll(_, _) => FlushAllHeader(ts)
            case Version => BareHeader(c, ts)
            case Verbosity(_, _) => VerbosityHeader(ts)
            case Stats => BareHeader(c, ts)
  {
    hide GetHeader, GetAndTouchHeader, StoreHeader, DeleteHeader, ArithmeticHeader, TouchHeader;
    hide FlushAllHeader, BareHeader, VerbosityHeader, Arguments;
    assert Words(c)[1..] == Arguments(c);
  }

  lemma RetrievalRoundTrip(c: Command)
    requires (c.Get? || c.GetAndTouch?) && Proper(c)
    ensures HeaderOf(Header(Words(c)), c)
  {
    hide Header, ParseField, CommandLine, Words, Integer, ValidKey;
    VerbSelects(c);
    if c.GetAndTouch? {
      FieldRoundTrip(c.exptime, I64_MIN, I64_MAX);
      assert Arguments(c)[1..] == c.keys;
    }
  }

  lemma KeyedRoundTrip(c: Command)
    requires (c.Delete? || c.Arithmetic? || c.Touch?) && Proper(c)
    ensures HeaderOf(Header(Words(c)), c)
  {
    hide Header, ParseField, CommandLine, Words, Integer, ValidKey;
    VerbSelects(c);
    if c.Delete? {
      assert Arguments(c)[1..] == NoReplyWord(c.noreply);
    } else if c.Arithmetic? {
      FieldRoundTrip(c.delta, 0, U64_MAX);
      assert Arguments(c)[2..] == NoReplyWord(c.noreply);
    } else {
      FieldRoundTrip(c.exptime, I64_MIN, I64_MAX);
      assert Arguments(c)[2..] == NoReplyWord(c.noreply);
    }
  }

  lemma AdminRoundTrip(c: Command)
    requires (c.FlushAll? || c.Version? || c.Verbosity? || c.Stats?) && Proper(c)
    ensures HeaderOf(Header(Words(c)), c)
  {
    hide Header, ParseField, CommandLine, Words, Integer;
    VerbSelects(c);
    if c.Verbosity? {
      FieldRoundTrip(c.level, 0, U32_MAX);
      assert Arguments(c)[1..] == NoReplyWord(c.noreply);
    } else if c.FlushAll? {
      if c.delay.Some? {
        FieldRoundTrip(c.delay.value, 0, U32_MAX);
        NumberIsNoWord(c.delay.value);
        assert Arguments(c)[1..] == NoReplyWord(c.noreply);
      } else {
        assert Arguments(c) == NoReplyWord(c.noreply);
      }
    }
  }

  lemma NumberIsNoWord(n: nat)
    ensures Integer(n) != "noreply"
  {
    assert IsDigit(Integer(n)[0]);
  }

  /** Parsing the words of a well-formed command gives the command back, up to its data block. */
  lemma WordsRoundTrip(c: Command)
    requires Proper(c)
    ensures HeaderOf(Header(Words(c)), c)
  {
    hide *;
    match c
    case Get(_, _) => RetrievalRoundTrip(c);
    case GetAndTouch(_, _, _) => RetrievalRoundTrip(c);
    case Store(_, _) => StoreRoundTrip(c);
    case Delete(_, _) => KeyedRoundTrip(c);
    case Arithmetic(_, _, _, _) => KeyedRoundTrip(c);
    case Touch(_, _, _) => KeyedRoundTrip(c);
    case _ => AdminRoundTrip(c);
  }

  lemma StoreTailRoundTrip(op: StoreOp, cas: Option<u64>, noreply: bool)
    requires op == Cas <==> cas.Some?
    ensures StoreTail(op, TailWords(cas, noreply)) == Some((cas, noreply))
  {
    var ts := TailWords(cas, noreply);
    if cas.Some? {
      FieldRoundTrip(cas.value, 0, U64_MAX);
      assert ts[1..] == NoReplyWord(noreply);
    } else {
      assert ts == NoReplyWord(noreply);
    }
  }

  lemma StoreHeaderRoundTrip(op: StoreOp, a: StoreArgs)
    requires ValidKey(a.key) && |a.data| <= MAX_ITEM_SIZE && (op == Cas <==> a.cas.Some?)
    ensures StoreHeader(op, Arguments(Command.Store(op, a)))
         == Ok(Pending(PendingStore(op, a.key, a.flags, a.exptime, |a.data|, a.cas, a.noreply)))
  {
    hide StoreHeader, ParseField, StoreTail, Integer, TailWords, ValidKey;
    FieldRoundTrip(a.flags, 0, U32_MAX);
    FieldRoundTrip(a.exptime, I64_MIN, I64_MAX);
    FieldRoundTrip(|a.data|, 0, U64_MAX);
    StoreTailRoundTrip(op, a.cas, a.noreply);
    StoreHeaderOf(op, a, Integer(a.flags), Integer(a.exptime), Integer(|a.data|), TailWords(a.cas, a.noreply));
  }

  lemma StoreHeaderOf(op: StoreOp, a: StoreArgs, flags: bytes, exptime: bytes, len: bytes, tail: seq<bytes>)
    requires ValidKey(a.key) && |a.data| <= MAX_ITEM_SIZE
    requires ParseField(flags, 0, U32_MAX) == Some(a.flags)
    requires ParseField(exptime, I64_MIN, I64_MAX) == Some(a.exptime)
    requires ParseField(len, 0, U64_MAX) == Some(|a.data|)
    requires StoreTail(op, tail) == Some((a.cas, a.noreply))
    ensures StoreHeader(op, [a.key, flags, exptime, len] + tail)
         == Ok(Pending(PendingStore(op, a.key, a.flags, a.exptime, |a.data|, a.cas, a.noreply)))
  {
    hide ParseField, StoreTail, ValidKey;
    assert ([a.key, flags, exptime, len] + tail)[4..] == tail;
  }

  lemma StoreRoundTrip(c: Command)
    requires c.Store? && Proper(c)
    ensures HeaderOf(Header(Words(c)), c)
  {
    hide Header, StoreHeader, ParseField, CommandLine, Words, Arguments, Integer;
    StoreHeaderRoundTrip(c.op, c.args);
    VerbSelects(c);
  }

  // ---- And back: what is accepted is what is printed ----

  lemma AcceptedStore(op: StoreOp, ts: seq<bytes>, data: bytes)
    requires StoreHeader(op, ts).Ok?
    ensures var h := StoreHeader(op, ts).value;
            && h.Pending? && h.store.op == op
            && (|data| == h.store.len ==> h.store.IntoCommand(data).Store? && Proper(h.store.IntoCommand(data)))
  {
    hide ParseField, NoReplyOf, ValidKey;
  }

  lemma AcceptedRetrieval(withCas: bool, ts: seq<bytes>)
    ensures forall h | h in [GetHeader(withCas, ts), GetAndTouchHeader(withCas, ts)] && h.Ok? ::
              h.value.Immediate? && Proper(h.value.command) && !h.value.command.Store?
  {
    hide ParseField, ValidKey;
  }

  lemma AcceptedKeyed(op: ArithmeticOp, ts: seq<bytes>)
    ensures forall h | h in [DeleteHeader(ts), ArithmeticHeader(op, ts), TouchHeader(ts)] && h.Ok? ::
              h.value.Immediate? && Proper(h.value.command) && !h.value.command.Store?
  {
    hide ParseField, ValidKey, NoReplyOf;
  }

  lemma AcceptedAdmin(ts: seq<bytes>)
    ensures forall h | h in [FlushAllHeader(ts), VerbosityHeader(ts), BareHeader(Command.Version, ts),
        BareHeader(Command.Stats, ts)] && h.Ok? ::
              h.value.Immediate? && Proper(h.value.command) && !h.value.command.Store?
  {
    hide ParseField, NoReplyOf;
  }

  /** A header gives a proper command, once it has a data block of the announced size when it wants one. */
  ghost predicate GivesProper(h: CommandHeader) {
    match h
    case Immediate(c) => Proper(c) && !c.Store?
    case Pending(p) => forall data: bytes :: |data| == p.len ==> Proper(p.IntoCommand(data))
    case Quit => true
  }

  lemma AcceptedIsProper(tokens: seq<bytes>)
    requires Header(tokens).Ok?
    ensures GivesProper(Header(tokens).value)
  {
    hide GetHeader, GetAndTouchHeader, StoreHeader, DeleteHeader, ArithmeticHeader, TouchHeader;
    hide FlushAllHeader, VerbosityHeader, BareHeader, Proper;
    var ts := tokens[1..];
    AcceptedRetrieval(true, ts);
    AcceptedRetrieval(false, ts);
    AcceptedKeyed(Incr, ts);
    AcceptedKeyed(Decr, ts);
    AcceptedAdmin(ts);
    if StoreOpOf(tokens[0]).Some? && StoreHeader(StoreOpOf(tokens[0]).value, ts).Ok? {
      forall data ensures var h := StoreHeader(StoreOpOf(tokens[0]).value, ts).value;
                          h.Pending? && (|data| == h.store.len ==> Proper(h.store.IntoCommand(data)))
      {
        AcceptedStore(StoreOpOf(tokens[0]).value, ts, data);
      }
    }
  }

  /** Printing what was accepted and parsing it again gives the same header, however it had been written. */
  lemma AcceptedPrintsBack(tokens: seq<bytes>, data: bytes)
    requires Header(tokens).Ok?
    ensures match Header(tokens).value
            case Immediate(c) => Header(Words(c)) == Header(tokens)
            case Pending(p) => |data| == p.len ==> Header(Words(p.IntoCommand(data))) == Header(tokens)
            case Quit => true
  {
    hide Header, Words, Proper;
    AcceptedIsProper(tokens);
    match Header(tokens).value
    case Immediate(c) => WordsRoundTrip(c);
    case Pending(p) =>
      if |data| == p.len {
        WordsRoundTrip(p.IntoCommand(data));
      }
    case Quit =>
  }

  // ---- From words to bytes ----

  predicate Graphic(t: bytes) {
    t != [] && forall i :: 0 <= i < |t| ==> t[i] > ' '
  }

  lemma IntegerIsGraphic(v: int)
    ensures Graphic(Integer(v))
  {
    var d := Decimal(if v < 0 then -v else v);
    assert forall i :: 0 <= i < |d| ==> IsDigit(d[i]);
  }

  predicate AllGraphic(ts: seq<bytes>) {
    forall w :: w in ts ==> Graphic(w)
  }

  lemma TailIsGraphic(cas: Option<u64>, noreply: bool)
    ensures AllGraphic(TailWords(cas, noreply)) && AllGraphic(NoReplyWord(noreply))
  {
    assert Graphic("noreply");
    if cas.Some? {
      IntegerIsGraphic(cas.value);
    }
  }

  lemma ArgumentsAreGraphic(c: Command)
    requires Proper(c)
    ensures AllGraphic(Arguments(c))
  {
    hide Integer, CommandLine, NoReplyWord, TailWords;
    match c
    case Store(_, a) =>
      IntegerIsGraphic(a.flags);
      IntegerIsGraphic(a.exptime);
      IntegerIsGraphic(|a.data|);
      TailIsGraphic(a.cas, a.noreply);
    case GetAndTouch(_, exptime, _) => IntegerIsGraphic(exptime);
    case Arithmetic(_, _, delta, n) => IntegerIsGraphic(delta); TailIsGraphic(None, n);
    case Touch(_, exptime, n) => IntegerIsGraphic(exptime); TailIsGraphic(None, n);
    case Delete(_, n) => TailIsGraphic(None, n);
    case Verbosity(level, n) => IntegerIsGraphic(level); TailIsGraphic(None, n);
    case FlushAll(delay, n) =>
      if delay.Some? {
        IntegerIsGraphic(delay.value);
      }
      TailIsGraphic(None, n);
    case _ =>
  }

  lemma VerbIsGraphic(c: Command)
    ensures Graphic(Verb(c))
  {
  }

  lemma {:induction false} SpacedIsPlain(ts: seq<bytes>)
    requires AllGraphic(ts)
    ensures forall i :: 0 <= i < |Spaced(ts)| ==> Spaced(ts)[i] >= ' '
    ensures Spaced(ts) != [] ==> Spaced(ts)[|Spaced(ts)| - 1] > ' '
  {
    if ts != [] {
      SpacedIsPlain(ts[1..]);
      assert Graphic(ts[0]);
    }
  }

  lemma LineRoundTrip(c: Command)
    requires Proper(c)
    ensures Fields(CommandLine(c)) == Words(c)
    ensures '\n' !in CommandLine(c) && TrimEnd(CommandLine(c) + CRLF) == CommandLine(c)
  {
    var line := CommandLine(c);
    hide Verb, Arguments, Proper, TrimEnd, Fields;
    VerbIsGraphic(c);
    ArgumentsAreGraphic(c);
    SpacedIsPlain(Arguments(c));
    FieldsOfToken(Verb(c), Spaced(Arguments(c)));
    FieldsOfSpaced(Arguments(c));
    TrimTerminator(line);
  }

  lemma TrimTerminator(line: bytes)
    requires line != [] && line[|line| - 1] > ' '
    ensures TrimEnd(line + CRLF) == line
  {
    var s := line + CRLF;
    assert s[..|s| - 1] == line + "\r";
    assert (line + "\r")[..|line|] == line;
    assert TrimEnd(line + "\r") == TrimEnd(line) == line;
  }

  lemma PrintedLine(c: Command, rest: bytes)
    requires WellFormed(c)
    ensures var s := Print(c) + rest;
            && ShortLine(s)
            && NextFrame(s) == LineFrame(CommandLine(c), DataBlock(c) + rest)
  {
    hide LineFrame, TrimEnd, DataBlock, CommandLine, Words, Fields;
    LineRoundTrip(c);
    assert Print(c) + rest == CommandLine(c) + CRLF + (DataBlock(c) + rest);
    FirstLine(CommandLine(c) + "\r", DataBlock(c) + rest);
    assert CommandLine(c) + CRLF == CommandLine(c) + "\r" + "\n";
  }

  lemma PrintedData(p: PendingStore, data: bytes, rest: bytes)
    requires p.len == |data|
    ensures PayloadFrame(p, data + CRLF + rest) == Run(p.IntoCommand(data), rest)
  {
    var s := data + CRLF + rest;
    assert s[..|data|] == data && s[|data|..|data| + 2] == CRLF && s[|data| + 2..] == rest;
  }

  /** One printed command is decoded as itself, whatever follows it. */
  lemma CommandRoundTrip(c: Command, rest: bytes)
    requires WellFormed(c)
    ensures NextFrame(Print(c) + rest) == Run(c, rest)
    ensures ShortLine(Print(c) + rest)
  {
    hide Header, NextFrame, Words, CommandLine, Fields, Print, ShortLine, PayloadFrame, Proper;
    PrintedLine(c, rest);
    LineRoundTrip(c);
    WordsRoundTrip(c);
    var h := Header(Words(c));
    if c.Store? {
      PrintedData(h.value.store, c.args.data, rest);
    } else {
      assert [] + rest == rest;
    }
  }

  function Runs(cs: seq<Command>): seq<Notice> {
    if cs == [] then [] else [Ran(cs[0])] + Runs(cs[1..])
  }

  /** Any pipeline of well-formed commands is decoded as the list that was printed. */
  lemma {:induction false} PipelineRoundTrip(cs: seq<Command>, rest: bytes)
    requires forall c :: c in cs ==> WellFormed(c)
    ensures DecodeAll(PrintAll(cs) + rest) == Runs(cs) + DecodeAll(rest)
  {
    hide NextFrame, Print, WellFormed;
    if cs == [] {
      assert PrintAll(cs) + rest == rest;
    } else {
      var more := PrintAll(cs[1..]) + rest;
      assert PrintAll(cs) + rest == Print(cs[0]) + more;
      CommandRoundTrip(cs[0], more);
      PipelineRoundTrip(cs[1..], rest);
    }
  }

  // ---- A storage line that leaves its block in the stream ----

  const HUGE: bytes := "18446744073709551615"
  const HUGE_LINE: bytes := "set k 0 0 " + HUGE

  lemma Then(s: bytes, n: nat, c: byte) returns (t: bytes)
    requires AllDigits(s) && Numeral(s) == n && IsDigit(c)
    ensures t == s + [c] && AllDigits(t) && Numeral(t) == 10 * n + (c as int - '0' as int)
  {
    t := s + [c];
    assert t[..|s|] == s;
  }

  lemma FirstHalf() returns (s: bytes)
    ensures s == "1844674407" && AllDigits(s) && Numeral(s) == 1844674407
  {
    hide Numeral, AllDigits;
    s := [];
    NothingDenoted(s);
    s := Then(s, 0, '1');
    s := Then(s, 1, '8');
    s := Then(s, 18, '4');
    s := Then(s, 184, '4');
    s := Then(s, 1844, '6');
    s := Then(s, 18446, '7');
    s := Then(s, 184467, '4');
    s := Then(s, 1844674, '4');
    s := Then(s, 18446744, '0');
    s := Then(s, 184467440, '7');
  }

  lemma NothingDenoted(s: bytes)
    requires s == []
    ensures AllDigits(s) && Numeral(s) == 0
  {
  }

  lemma HugeIsMax()
    ensures AllDigits(HUGE) && Numeral(HUGE) == U64_MAX
  {
    hide Numeral, AllDigits;
    var first := FirstHalf();
    var s := first;
    s := Then(s, 1844674407, '3');
    s := Then(s, 18446744073, '7');
    s := Then(s, 184467440737, '0');
    s := Then(s, 1844674407370, '9');
    s := Then(s, 18446744073709, '5');
    s := Then(s, 184467440737095, '5');
    s := Then(s, 1844674407370955, '1');
    s := Then(s, 18446744073709551, '6');
    s := Then(s, 184467440737095516, '1');
    s := Then(s, 1844674407370955161, '5');
    assert s == first + "3709551615" == HUGE;
  }

  lemma SetLineFields(count: bytes)
    requires IsToken(count)
    ensures Fields("set k 0 0 " + count) == ["set", "k", "0", "0", count]
  {
    hide Fields;
    FieldsOfSpaced([count]);
    assert [count][1..] == [];
    assert Spaced([count]) == " " + count;
    FieldsOfToken("0", " " + count);
    ExtraSpace([], "0" + (" " + count));
    NextField("0", "0" + (" " + count));
    NextField("k", "0" + (" " + ("0" + (" " + count))));
    NextField("set", "k" + (" " + ("0" + (" " + ("0" + (" " + count))))));
    assert "set" + (" " + ("k" + (" " + ("0" + (" " + ("0" + (" " + count))))))) == "set k 0 0 " + count;
  }

  lemma NextField(t: bytes, s: bytes)
    requires IsToken(t)
    ensures Fields(t + (" " + s)) == [t] + Fields(s)
  {
    FieldsOfToken(t, " " + s);
    FieldsSkipSpace(" " + s);
    assert (" " + s)[1..] == s;
  }

  lemma HugeLineAnnounces()
    ensures Announced(Fields(HUGE_LINE)) == Some(U64_MAX)
  {
    hide Numeral, Fields;
    HugeIsMax();
    assert IsDigit(HUGE[0]);
    assert forall i :: 0 <= i < |HUGE| ==> IsDigit(HUGE[i]);
    SetLineFields(HUGE);
  }

  /** After such a line, any byte and a command, the command is run although it belongs to the data block. */
  lemma BlockRunsAsCommand(b: byte, c: Command, rest: bytes)
    requires WellFormed(c)
    ensures DecodeAll(HUGE_LINE + CRLF + [b] + Print(c) + rest)
         == [Replied(ServerError("object too large for cache")), Ran(c)] + DecodeAll(rest)
  {
    hide Header, Announced, Fields, Print, WellFormed, LineFrame, NextFrame;
    var block := [b] + (Print(c) + rest);
    var s := HUGE_LINE + CRLF + block;
    assert HUGE_LINE + CRLF + [b] + Print(c) + rest == s;
    HugeLineAnnounces();
    TrimTerminator(HUGE_LINE);
    HugeFrame(block);
    WrappedSkip(HUGE_LINE, block, U64_MAX);
    assert Drop(block, 1) == Print(c) + rest;
    CommandRoundTrip(c, rest);
  }

  lemma HugeFrame(block: bytes)
    ensures NextFrame(HUGE_LINE + CRLF + block) == LineFrame(HUGE_LINE, block)
  {
    hide LineFrame, TrimEnd;
    TrimTerminator(HUGE_LINE);
    FirstLine(HUGE_LINE + "\r", block);
    assert HUGE_LINE + CRLF + block == (HUGE_LINE + "\r") + "\n" + block;
    assert HUGE_LINE + CRLF == (HUGE_LINE + "\r") + "\n";
  }
}
