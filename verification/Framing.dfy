// The one-pass decoder: what a whole byte stream means, with no buffer and no chunks.
// This is the reference the incremental reader in Connection is proved against.
module Framing {
  import opened Bytes
  import opened Commands
  import opened Tokens
  import opened Parser

  const MAX_LINE_LEN := 8 * 1024
  const LINE_TOO_LONG := ClientError("line too long")
  const BAD_DATA_CHUNK := ClientError("bad data chunk")

  /** A line with its trailing carriage returns and newlines removed. */
  function TrimEnd(s: bytes): bytes {
    if s != [] && (s[|s| - 1] == '\n' || s[|s| - 1] == '\r') then TrimEnd(s[..|s| - 1]) else s
  }

  // One step of decoding: an error reply, a command, or the end of the session because the peer
  // hung up between commands, asked to leave, or hung up inside a data block.
  datatype Frame =
    | Reply(response: Response, rest: bytes)
    | Run(command: Command, rest: bytes)
    | Hangup(rest: bytes)
    | Left(rest: bytes)
    | Truncated(rest: bytes)

  function Drop(s: bytes, n: nat): bytes {
    s[Min(n, |s|)..]
  }

  /** What follows the line of a storage command: the data block and its terminator. */
  function PayloadFrame(p: PendingStore, s: bytes): Frame {
    if |s| < p.len + 2 then Truncated(Drop(s, p.len))
    else if s[p.len..p.len + 2] == CRLF then Run(p.IntoCommand(s[..p.len]), s[p.len + 2..])
    else Reply(BAD_DATA_CHUNK, s[p.len + 2..])
  }

  function LineFrame(line: bytes, s: bytes): (f: Frame)
    ensures !f.Hangup? && |f.rest| <= |s|
  {
    match Header(Fields(line))
    case Err(e) => Reply(e.Response(), if e.discard.Some? then Drop(s, e.discard.value) else s)
    case Ok(Immediate(command)) => Run(command, s)
    case Ok(Pending(p)) => PayloadFrame(p, s)
    case Ok(Quit) => Left(s)
  }

  /** The first frame of a stream. A stream with no newline ends the session, after a complaint if it is too long. */
  function NextFrame(s: bytes): (f: Frame)
    ensures |f.rest| <= |s|
    ensures f.Reply? || f.Run? ==> |f.rest| < |s|
  {
    var p := Find(s, '\n');
    if p < |s| then LineFrame(TrimEnd(s[..p + 1]), s[p + 1..])
    else if |s| < MAX_LINE_LEN then Hangup(s)
    else Reply(LINE_TOO_LONG, [])
  }

  /** The line is short enough to be read whole however it arrives. */
  predicate ShortLine(s: bytes) {
    Find(s, '\n') < MAX_LINE_LEN || Find(s, '\n') == |s|
  }

  /** What follows the first line of a stream. */
  function AfterLine(s: bytes): bytes {
    Drop(s, Find(s, '\n') + 1)
  }

  /** A line the reader may refuse: it does so when it has buffered 8192 bytes and no newline yet. */
  predicate MayRefuse(s: bytes) {
    MAX_LINE_LEN <= Find(s, '\n') < |s|
  }

  function RefusedFrame(s: bytes): (f: Frame)
    ensures |s| > 0 ==> |f.rest| < |s|
  {
    Reply(LINE_TOO_LONG, AfterLine(s))
  }

  /** Every frame some chunking of the stream can produce first. */
  predicate CanYield(s: bytes, f: Frame) {
    f == NextFrame(s) || (MayRefuse(s) && f == RefusedFrame(s))
  }

  // The outcome of one call of read_command: error replies, then a command or the end.
  datatype Decoded = Decoded(replies: seq<Response>, last: Frame) {
    function After(earlier: seq<Response>): Decoded {
      Decoded(earlier + replies, last)
    }
  }

  function DecodeNext(s: bytes): (d: Decoded)
    ensures !d.last.Reply?
    ensures d.last.Run? ==> |d.last.rest| < |s|
    decreases |s|
  {
    var f := NextFrame(s);
    if f.Reply? then DecodeNext(f.rest).After([f.response]) else Decoded([], f)
  }

  /** `d` is what some chunking of `s` makes of it. */
  ghost predicate Decodes(s: bytes, d: Decoded)
    decreases |s|
  {
    exists f | CanYield(s, f) ::
      if f.Reply? then
        |f.rest| < |s| && d.replies != [] && d.replies[0] == f.response &&
        Decodes(f.rest, Decoded(d.replies[1..], d.last))
      else d == Decoded([], f)
  }

  /** No command line up to the next command is long enough to be refused. */
  predicate ShortLines(s: bytes)
    decreases |s|
  {
    ShortLine(s) && (NextFrame(s).Reply? ==> ShortLines(NextFrame(s).rest))
  }

  lemma {:induction false} DecodesNext(s: bytes)
    ensures Decodes(s, DecodeNext(s))
    decreases |s|
  {
    var f := NextFrame(s);
    assert CanYield(s, f);
    if f.Reply? {
      DecodesNext(f.rest);
      var d := DecodeNext(s);
      assert d.replies[1..] == DecodeNext(f.rest).replies;
    }
  }

  lemma FrameShrinks(s: bytes, f: Frame)
    requires CanYield(s, f)
    ensures |f.rest| <= |s| && (f.Reply? || f.Run? || f.Left? ==> |f.rest| < |s|)
  {
    hide Header, Fields, TrimEnd;
  }

  /** Below the line limit there is only one way to read a stream. */
  lemma {:induction false} DecodingIsUnique(s: bytes, d: Decoded)
    requires ShortLines(s) && Decodes(s, d)
    ensures d == DecodeNext(s)
    decreases |s|
  {
    var f := NextFrame(s);
    if f.Reply? {
      DecodingIsUnique(f.rest, Decoded(d.replies[1..], d.last));
      assert d.replies == [f.response] + d.replies[1..];
    }
  }

  // ---- Resynchronisation after a storage line ----

  /** The announced size of the data block of a storage line, when it has one. */
  function Announced(tokens: seq<bytes>): Option<nat> {
    if |tokens| < 5 || StoreOpOf(tokens[0]) == None then None
    else
      match ParseField(tokens[4], 0, U64_MAX)
      case None => None
      case Some(len) => Some(len)
  }

  /** What a storage command's error skips: the announced block, when there is one. */
  lemma StoreErrorSkips(op: StoreOp, ts: seq<bytes>)
    ensures match StoreHeader(op, ts)
            case Err(e) => e.discard == (if |ts| >= 4 && ParseField(ts[3], 0, U64_MAX).Some?
                                         then Some(SkipLength(ParseField(ts[3], 0, U64_MAX).value)) else None)
            case Ok(h) => h.Pending? && |ts| >= 4 && ParseField(ts[3], 0, U64_MAX) == Some(h.store.len)
  {
    hide ParseField, StoreTail, ValidKey;
  }

  lemma StorageVerb(tokens: seq<bytes>)
    requires tokens != [] && StoreOpOf(tokens[0]).Some?
    ensures Header(tokens) == StoreHeader(StoreOpOf(tokens[0]).value, tokens[1..])
  {
    hide StoreHeader;
  }

  /**
   * A storage line with a readable byte count takes its data block out of the stream, or what there
   * is of it, whatever becomes of it, exactly when the count with the terminator does not wrap around,
   * or no more bytes follow than are skipped then. An accepted line whose block is cut short ends the
   * session. Any other storage line takes nothing but itself.
   */
  lemma StorageLineConsumes(line: bytes, s: bytes)
    requires Fields(line) != [] && StoreOpOf(Fields(line)[0]).Some?
    ensures var f := LineFrame(line, s);
            match Announced(Fields(line))
            case None => f.Reply? && f.rest == s
            case Some(len) =>
              && (f.Truncated? <==> Header(Fields(line)).Ok? && |s| < len + 2)
              && (!f.Truncated? ==>
                    && (f.Reply? || f.Run?)
                    && (f.rest == Drop(s, len + 2) <==> len + 2 < TWO_64 || |s| <= len + 2 - TWO_64))
  {
    hide Header, StoreHeader, ParseField, StoreOpOf, Fields;
    var tokens := Fields(line);
    StorageVerb(tokens);
    StoreErrorSkips(StoreOpOf(tokens[0]).value, tokens[1..]);
    if |tokens| >= 5 {
      assert tokens[1..][3] == tokens[4];
      if Announced(tokens).Some? {
        SkipOrWrap(Announced(tokens).value, s);
        AcceptedIsSmall(StoreOpOf(tokens[0]).value, tokens[1..]);
      }
    }
  }

  lemma SkipOrWrap(len: nat, s: bytes)
    requires len <= U64_MAX
    ensures Drop(s, SkipLength(len)) == Drop(s, len + 2) <==> len + 2 < TWO_64 || |s| <= len + 2 - TWO_64
    ensures len + 2 >= TWO_64 ==> SkipLength(len) == len + 2 - TWO_64
  {
    if len + 2 < TWO_64 {
      assert SkipLength(len) == len + 2;
    } else {
      assert SkipLength(len) == len + 2 - TWO_64;
      assert |Drop(s, SkipLength(len))| == |s| - Min(SkipLength(len), |s|);
    }
  }

  lemma AcceptedIsSmall(op: StoreOp, ts: seq<bytes>)
    ensures StoreHeader(op, ts).Ok? ==>
              StoreHeader(op, ts).value.Pending? && StoreHeader(op, ts).value.store.len <= MAX_ITEM_SIZE
  {
    hide ParseField, StoreTail, ValidKey;
  }

  /**
   * When the count wraps around, only what it wraps to is skipped: no byte or one. The data block is left in the
   * stream.
   */
  lemma WrappedSkip(line: bytes, s: bytes, len: nat)
    requires Announced(Fields(line)) == Some(len) && len + 2 >= TWO_64
    ensures LineFrame(line, s) == Reply(ServerError("object too large for cache"), Drop(s, len + 2 - TWO_64))
  {
    hide Header, ParseField, StoreOpOf, Fields;
    var tokens := Fields(line);
    StorageVerb(tokens);
    assert tokens[1..][3] == tokens[4];
    SkipOrWrap(len, s);
  }

  // ---- Whole streams ----

  // What a frame says, without the bytes that follow it.
  datatype Notice = Replied(response: Response) | Ran(command: Command)

  function DecodeAll(s: bytes): seq<Notice>
    decreases |s|
  {
    var f := NextFrame(s);
    match f
    case Reply(r, rest) => [Replied(r)] + DecodeAll(rest)
    case Run(c, rest) => [Ran(c)] + DecodeAll(rest)
    case _ => []
  }

  lemma FirstLine(line: bytes, tail: bytes)
    requires '\n' !in line
    ensures var s := line + "\n" + tail;
            Find(s, '\n') == |line| < |s| && s[..|line| + 1] == line + "\n" && s[|line| + 1..] == tail
  {
    var s := line + "\n" + tail;
    assert forall i :: 0 <= i < |line| ==> s[i] == line[i] && line[i] in line;
    assert s[|line|] == '\n';
  }

  /** The stream after `line`, its newline and a data block of the announced size decodes as if they were absent. */
  lemma Resynchronises(line: bytes, block: bytes, rest: bytes)
    requires '\n' !in line
    requires var l := TrimEnd(line + "\n");
             && Fields(l) != [] && StoreOpOf(Fields(l)[0]).Some?
             && (match Announced(Fields(l)) case None => block == [] case Some(len) => |block| == len + 2 < TWO_64)
    ensures var d := DecodeAll(line + "\n" + block + rest);
            d != [] && d[1..] == DecodeAll(rest)
  {
    hide LineFrame, Header, ParseField, StoreOpOf, Fields, TrimEnd, Announced;
    var s := line + "\n" + block + rest;
    assert s == line + "\n" + (block + rest);
    FirstLine(line, block + rest);
    assert (block + rest)[|block|..] == rest;
    StorageLineConsumes(TrimEnd(line + "\n"), block + rest);
    assert NextFrame(s).rest == rest;
  }
}
