// Parsing of command lines (src/parser.rs).
module Parser {
  import opened Bytes
  import opened Commands
  import opened Tokens

  const MAX_KEY_LEN := 250
  const MAX_ITEM_SIZE := 1024 * 1024

  datatype ParseErrorKind = BadFormat | NumericDelta | NumericDelay | TooLarge | Unknown

  // `discard` is the number of payload bytes to skip so that the stream stays in step.
  datatype ParseError = ParseError(kind: ParseErrorKind, discard: Option<nat>) {
    function Response(): Response {
      match kind
      case BadFormat => ClientError("bad command line format")
      case NumericDelta => ClientError("invalid numeric delta")
      case NumericDelay => ClientError("invalid numeric delay")
      case TooLarge => ServerError("object too large for cache")
      case Unknown => Error
    }
  }

  datatype PendingStore = PendingStore(
    op: StoreOp, key: bytes, flags: u32, exptime: i64, len: nat, cas: Option<u64>, noreply: bool)
  {
    function IntoCommand(data: bytes): Command {
      Command.Store(op, StoreArgs(key, flags, exptime, data, noreply, cas))
    }
  }

  datatype CommandHeader = Immediate(command: Command) | Pending(store: PendingStore) | Quit

  type Parsed = Result<CommandHeader, ParseError>

  function Fail(kind: ParseErrorKind): Parsed {
    Err(ParseError(kind, None))
  }

  predicate ValidKey(key: bytes) {
    0 < |key| <= MAX_KEY_LEN && forall i :: 0 <= i < |key| ==> ' ' < key[i] != '\U{7F}'
  }

  /** An optionally signed decimal number that fills the token and lies in `lo..=hi`. */
  function ParseField(tok: bytes, lo: int, hi: int): (r: Option<int>)
    ensures r.Some? ==> lo <= r.value <= hi
  {
    var signed := tok != [] && (tok[0] == '+' || tok[0] == '-');
    var digits := if signed then tok[1..] else tok;
    if !AllDigits(digits) then None
    else
      var value: int := if signed && tok[0] == '-' then -(Numeral(digits) as int) else Numeral(digits);
      if lo <= value <= hi then Some(value) else None
  }

  // ---- What each command means, as a function of its list of tokens ----

  /** A trailing list of tokens that is empty or exactly "noreply". */
  function NoReplyOf(ts: seq<bytes>): Result<bool, ParseError> {
    if ts == [] then Ok(false)
    else if ts == ["noreply"] then Ok(true)
    else Err(ParseError(BadFormat, None))
  }

  predicate ValidKeys(keys: seq<bytes>) {
    forall k :: k in keys ==> ValidKey(k)
  }

  function GetHeader(withCas: bool, ts: seq<bytes>): Parsed {
    if ts == [] then Fail(Unknown)
    else if ValidKeys(ts) then Ok(Immediate(Get(ts, withCas)))
    else Fail(BadFormat)
  }

  function GetAndTouchHeader(withCas: bool, ts: seq<bytes>): Parsed {
    if ts == [] then Fail(Unknown)
    else
      match ParseField(ts[0], I64_MIN, I64_MAX)
      case None => Fail(BadFormat)
      case Some(exptime) =>
        if |ts| == 1 then Fail(Unknown)
        else if ValidKeys(ts[1..]) then Ok(Immediate(GetAndTouch(ts[1..], exptime, withCas)))
        else Fail(BadFormat)
  }

  /** Bytes to skip for a rejected storage command; `usize` addition wraps in a release build. */
  function SkipLength(len: nat): nat {
    (len + 2) % TWO_64
  }

  /** What follows the byte count: a token for `cas` and only for it, then "noreply" or nothing. */
  function StoreTail(op: StoreOp, ts: seq<bytes>): Option<(Option<u64>, bool)> {
    if op != Cas then
      if NoReplyOf(ts).Err? then None else Some((None, NoReplyOf(ts).value))
    else if ts == [] then None
    else
      match ParseField(ts[0], 0, U64_MAX)
      case None => None
      case Some(token) =>
        if NoReplyOf(ts[1..]).Err? then None else Some((Some(token), NoReplyOf(ts[1..]).value))
  }

  function StoreHeader(op: StoreOp, ts: seq<bytes>): Parsed {
    if |ts| < 4 then Fail(Unknown)
    else
      match ParseField(ts[3], 0, U64_MAX)
      case None => Fail(BadFormat)
      case Some(len) =>
        var skip := Some(SkipLength(len));
        if len > MAX_ITEM_SIZE then Err(ParseError(TooLarge, skip))
        else
          var flags := ParseField(ts[1], 0, U32_MAX);
          var exptime := ParseField(ts[2], I64_MIN, I64_MAX);
          var tail := StoreTail(op, ts[4..]);
          if !ValidKey(ts[0]) || flags == None || exptime == None || tail == None
          then Err(ParseError(BadFormat, skip))
          else Ok(Pending(PendingStore(op, ts[0], flags.value, exptime.value, len, tail.value.0, tail.value.1)))
  }

  function DeleteHeader(ts: seq<bytes>): Parsed {
    if ts == [] then Fail(Unknown)
    else if !ValidKey(ts[0]) || NoReplyOf(ts[1..]).Err? then Fail(BadFormat)
    else Ok(Immediate(Delete(ts[0], NoReplyOf(ts[1..]).value)))
  }

  function ArithmeticHeader(op: ArithmeticOp, ts: seq<bytes>): Parsed {
    if |ts| < 2 then Fail(Unknown)
    else if !ValidKey(ts[0]) then Fail(BadFormat)
    else
      match ParseField(ts[1], 0, U64_MAX)
      case None => Fail(NumericDelta)
      case Some(delta) =>
        if NoReplyOf(ts[2..]).Err? then Fail(BadFormat)
        else Ok(Immediate(Arithmetic(op, ts[0], delta, NoReplyOf(ts[2..]).value)))
  }

  function TouchHeader(ts: seq<bytes>): Parsed {
    if |ts| < 2 then Fail(Unknown)
    else
      var exptime := ParseField(ts[1], I64_MIN, I64_MAX);
      if !ValidKey(ts[0]) || exptime == None || NoReplyOf(ts[2..]).Err? then Fail(BadFormat)
      else Ok(Immediate(Touch(ts[0], exptime.value, NoReplyOf(ts[2..]).value)))
  }

  function FlushAllHeader(ts: seq<bytes>): Parsed {
    if ts == [] then Ok(Immediate(FlushAll(None, false)))
    else if ts[0] == "noreply" then
      if |ts| == 1 then Ok(Immediate(FlushAll(None, true))) else Fail(BadFormat)
    else
      match ParseField(ts[0], 0, U32_MAX)
      case None => Fail(NumericDelay)
      case Some(delay) =>
        if NoReplyOf(ts[1..]).Err? then Fail(BadFormat)
        else Ok(Immediate(FlushAll(Some(delay), NoReplyOf(ts[1..]).value)))
  }

  function BareHeader(command: Command, ts: seq<bytes>): Parsed {
    if ts == [] then Ok(Immediate(command)) else Fail(BadFormat)
  }

  function VerbosityHeader(ts: seq<bytes>): Parsed {
    if ts == [] then Fail(Unknown)
    else
      var level := ParseField(ts[0], 0, U32_MAX);
      if level == None || NoReplyOf(ts[1..]).Err? then Fail(BadFormat)
      else Ok(Immediate(Verbosity(level.value, NoReplyOf(ts[1..]).value)))
  }

  function StoreOpOf(verb: bytes): Option<StoreOp> {
    if verb == "add" then Some(Add)
    else if verb == "set" then Some(Set)
    else if verb == "replace" then Some(Replace)
    else if verb == "append" then Some(Append)
    else if verb == "prepend" then Some(Prepend)
    else if verb == "cas" then Some(Cas)
    else None
  }

  /** The header a list of tokens denotes. */
  function Header(tokens: seq<bytes>): Parsed {
    if tokens == [] then Fail(Unknown)
    else
      var verb, ts := tokens[0], tokens[1..];
      if verb == "get" || verb == "gets" then GetHeader(verb == "gets", ts)
      else if verb == "gat" || verb == "gats" then GetAndTouchHeader(verb == "gats", ts)
      else if StoreOpOf(verb).Some? then StoreHeader(StoreOpOf(verb).value, ts)
      else if verb == "delete" then DeleteHeader(ts)
      else if verb == "incr" then ArithmeticHeader(Incr, ts)
      else if verb == "decr" then ArithmeticHeader(Decr, ts)
      else if verb == "touch" then TouchHeader(ts)
      else if verb == "flush_all" then FlushAllHeader(ts)
      else if verb == "version" then BareHeader(Command.Version, ts)
      else if verb == "verbosity" then VerbosityHeader(ts)
      else if verb == "stats" then BareHeader(Command.Stats, ts)
      else if verb == "quit" then Ok(Quit)
      else Fail(Unknown)
  }

  // ---- The parser itself, which consumes a tokenizer ----

  method ParseCommandLine(line: bytes) returns (r: Parsed)
    ensures r == Header(Fields(line))
  {
    var t := new Tokenizer(line);
    var op := t.Next();
    if op == None {
      return Fail(Unknown);
    }
    var verb := op.value;
    assert Fields(line)[1..] == t.Remaining();
    if verb == "get" || verb == "gets" {
      r := ParseGet(verb == "gets", t);
    } else if verb == "gat" || verb == "gats" {
      r := ParseGetAndTouch(verb == "gats", t);
    } else if StoreOpOf(verb).Some? {
      r := ParseStore(StoreOpOf(verb).value, t);
    } else if verb == "delete" {
      r := ParseDelete(t);
    } else if verb == "incr" {
      r := ParseArithmetic(Incr, t);
    } else if verb == "decr" {
      r := ParseArithmetic(Decr, t);
    } else if verb == "touch" {
      r := ParseTouch(t);
    } else if verb == "flush_all" {
      r := ParseFlushAll(t);
    } else if verb == "version" {
      r := ParseBare(Command.Version, t);
    } else if verb == "verbosity" {
      r := ParseVerbosity(t);
    } else if verb == "stats" {
      r := ParseBare(Command.Stats, t);
    } else if verb == "quit" {
      r := Ok(Quit);
    } else {
      r := Fail(Unknown);
    }
  }

  method ExpectEnd(t: Tokenizer) returns (ok: bool)
    modifies t`rest
    ensures ok <==> old(t.Remaining()) == []
  {
    var tok := t.Next();
    ok := tok == None;
  }

  method ParseNoReply(t: Tokenizer) returns (r: Result<bool, ParseError>)
    modifies t`rest
    ensures r == NoReplyOf(old(t.Remaining()))
  {
    var tok := t.Next();
    if tok == None {
      return Ok(false);
    }
    assert old(t.Remaining())[0] == tok.value;
    if tok.value == "noreply" {
      assert t.Remaining() == [] ==> [tok.value] + t.Remaining() == ["noreply"];
      var end := ExpectEnd(t);
      return if end then Ok(true) else Err(ParseError(BadFormat, None));
    }
    r := Err(ParseError(BadFormat, None));
  }

  /** The loop shared by both retrieval commands: every remaining token must be a valid key. */
  method ParseKeys(first: bytes, t: Tokenizer) returns (r: Result<seq<bytes>, ParseError>)
    modifies t`rest
    ensures r == if ValidKeys([first] + old(t.Remaining()))
                 then Ok([first] + old(t.Remaining())) else Err(ParseError(BadFormat, None))
  {
    if !ValidKey(first) {
      assert first in [first] + t.Remaining();
      return Err(ParseError(BadFormat, None));
    }
    ghost var all := [first] + t.Remaining();
    var keys := [first];
    var tok := t.Next();
    while tok.Some?
      invariant ValidKeys(keys)
      invariant tok.Some? ==> all == keys + [tok.value] + t.Remaining()
      invariant tok.None? ==> all == keys
      decreases tok.Some?, |t.rest|
    {
      if !ValidKey(tok.value) {
        assert tok.value in all;
        return Err(ParseError(BadFormat, None));
      }
      keys := keys + [tok.value];
      tok := t.Next();
    }
    r := Ok(keys);
  }

  method ParseGet(withCas: bool, t: Tokenizer) returns (r: Parsed)
    modifies t`rest
    ensures r == GetHeader(withCas, old(t.Remaining()))
  {
    var first := t.Next();
    if first == None {
      return Fail(Unknown);
    }
    var keys := ParseKeys(first.value, t);
    if keys.Err? {
      return Err(keys.error);
    }
    r := Ok(Immediate(Get(keys.value, withCas)));
  }

  method ParseGetAndTouch(withCas: bool, t: Tokenizer) returns (r: Parsed)
    modifies t`rest
    ensures r == GetAndTouchHeader(withCas, old(t.Remaining()))
  {
    var tok := t.Next();
    if tok == None {
      return Fail(Unknown);
    }
    assert old(t.Remaining())[1..] == t.Remaining();
    var exptime := ParseField(tok.value, I64_MIN, I64_MAX);
    if exptime == None {
      return Fail(BadFormat);
    }
    var first := t.Next();
    if first == None {
      return Fail(Unknown);
    }
    var keys := ParseKeys(first.value, t);
    if keys.Err? {
      return Err(keys.error);
    }
    r := Ok(Immediate(GetAndTouch(keys.value, exptime.value, withCas)));
  }

  method ParseStore(op: StoreOp, t: Tokenizer) returns (r: Parsed)
    modifies t`rest
    ensures r == StoreHeader(op, old(t.Remaining()))
  {
    ghost var ts := t.Remaining();
    var keyTok := t.Next();
    var flagsTok := t.Next();
    var exptimeTok := t.Next();
    var lenTok := t.Next();
    if keyTok == None || flagsTok == None || exptimeTok == None || lenTok == None {
      return Fail(Unknown);
    }
    assert ts == [keyTok.value, flagsTok.value, exptimeTok.value, lenTok.value] + t.Remaining();
    assert ts[4..] == t.Remaining();
    var len := ParseField(lenTok.value, 0, U64_MAX);
    if len == None {
      return Fail(BadFormat);
    }
    var skip := Some(SkipLength(len.value));
    if len.value > MAX_ITEM_SIZE {
      return Err(ParseError(TooLarge, skip));
    }
    if !ValidKey(keyTok.value) {
      return Err(ParseError(BadFormat, skip));
    }
    var flags := ParseField(flagsTok.value, 0, U32_MAX);
    if flags == None {
      return Err(ParseError(BadFormat, skip));
    }
    var exptime := ParseField(exptimeTok.value, I64_MIN, I64_MAX);
    if exptime == None {
      return Err(ParseError(BadFormat, skip));
    }
    var tail := ParseStoreTail(op, t);
    if tail == None {
      return Err(ParseError(BadFormat, skip));
    }
    r := Ok(Pending(PendingStore(op, keyTok.value, flags.value, exptime.value, len.value, tail.value.0, tail.value.1)));
  }

  method ParseStoreTail(op: StoreOp, t: Tokenizer) returns (r: Option<(Option<u64>, bool)>)
    modifies t`rest
    ensures r == StoreTail(op, old(t.Remaining()))
  {
    var cas: Option<u64> := None;
    if op == Cas {
      var casTok := t.Next();
      if casTok == None {
        return None;
      }
      assert old(t.Remaining())[1..] == t.Remaining();
      var casToken := ParseField(casTok.value, 0, U64_MAX);
      if casToken == None {
        return None;
      }
      cas := Some(casToken.value);
    }
    var noreply := ParseNoReply(t);
    r := if noreply.Err? then None else Some((cas, noreply.value));
  }

  method ParseDelete(t: Tokenizer) returns (r: Parsed)
    modifies t`rest
    ensures r == DeleteHeader(old(t.Remaining()))
  {
    var key := t.Next();
    if key == None {
      return Fail(Unknown);
    }
    assert old(t.Remaining())[1..] == t.Remaining();
    if !ValidKey(key.value) {
      return Fail(BadFormat);
    }
    var noreply := ParseNoReply(t);
    if noreply.Err? {
      return Err(noreply.error);
    }
    r := Ok(Immediate(Delete(key.value, noreply.value)));
  }

  method ParseArithmetic(op: ArithmeticOp, t: Tokenizer) returns (r: Parsed)
    modifies t`rest
    ensures r == ArithmeticHeader(op, old(t.Remaining()))
  {
    var key := t.Next();
    var deltaTok := t.Next();
    if key == None || deltaTok == None {
      return Fail(Unknown);
    }
    assert old(t.Remaining())[2..] == t.Remaining();
    if !ValidKey(key.value) {
      return Fail(BadFormat);
    }
    var delta := ParseField(deltaTok.value, 0, U64_MAX);
    if delta == None {
      return Fail(NumericDelta);
    }
    var noreply := ParseNoReply(t);
    if noreply.Err? {
      return Err(noreply.error);
    }
    r := Ok(Immediate(Arithmetic(op, key.value, delta.value, noreply.value)));
  }

  method ParseTouch(t: Tokenizer) returns (r: Parsed)
    modifies t`rest
    ensures r == TouchHeader(old(t.Remaining()))
  {
    var key := t.Next();
    var exptimeTok := t.Next();
    if key == None || exptimeTok == None {
      return Fail(Unknown);
    }
    assert old(t.Remaining())[2..] == t.Remaining();
    if !ValidKey(key.value) {
      return Fail(BadFormat);
    }
    var exptime := ParseField(exptimeTok.value, I64_MIN, I64_MAX);
    if exptime == None {
      return Fail(BadFormat);
    }
    var noreply := ParseNoReply(t);
    if noreply.Err? {
      return Err(noreply.error);
    }
    r := Ok(Immediate(Touch(key.value, exptime.value, noreply.value)));
  }

  method ParseFlushAll(t: Tokenizer) returns (r: Parsed)
    modifies t`rest
    ensures r == FlushAllHeader(old(t.Remaining()))
  {
    var tok := t.Next();
    if tok == None {
      return Ok(Immediate(FlushAll(None, false)));
    }
    assert old(t.Remaining())[1..] == t.Remaining();
    if tok.value == "noreply" {
      var end := ExpectEnd(t);
      return if end then Ok(Immediate(FlushAll(None, true))) else Fail(BadFormat);
    }
    var delay := ParseField(tok.value, 0, U32_MAX);
    if delay == None {
      return Fail(NumericDelay);
    }
    var noreply := ParseNoReply(t);
    if noreply.Err? {
      return Err(noreply.error);
    }
    r := Ok(Immediate(FlushAll(Some(delay.value), noreply.value)));
  }

  method ParseBare(command: Command, t: Tokenizer) returns (r: Parsed)
    modifies t`rest
    ensures r == BareHeader(command, old(t.Remaining()))
  {
    var end := ExpectEnd(t);
    r := if end then Ok(Immediate(command)) else Fail(BadFormat);
  }

  method ParseVerbosity(t: Tokenizer) returns (r: Parsed)
    modifies t`rest
    ensures r == VerbosityHeader(old(t.Remaining()))
  {
    var tok := t.Next();
    if tok == None {
      return Fail(Unknown);
    }
    assert old(t.Remaining())[1..] == t.Remaining();
    var level := ParseField(tok.value, 0, U32_MAX);
    if level == None {
      return Fail(BadFormat);
    }
    var noreply := ParseNoReply(t);
    if noreply.Err? {
      return Err(noreply.error);
    }
    r := Ok(Immediate(Verbosity(level.value, noreply.value)));
  }
}
