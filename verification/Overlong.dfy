// A session in which a reply that is due stays in the writer while an overlong line is skipped.
module Overlong {
  import opened Bytes
  import opened Commands
  import opened Tokens
  import opened Parser
  import opened Framing
  import opened Readings
  import opened Responses
  import opened Connections
  import opened Stores
  import opened Printer
  import opened Sessions

  const ASK: bytes := Print(Command.Version)

  function Filler(n: nat): (s: bytes)
    ensures |s| == n && forall i :: 0 <= i < n ==> s[i] == 'a'
  {
    seq(n, _ => 'a')
  }

  const LONG_LINE: bytes := Filler(MAX_LINE_LEN) + CRLF
  const INPUT: bytes := ASK + (LONG_LINE + QUIT)

  // The command and as much of the line as makes it too long come in one read, the rest byte by byte.
  const START: Source := Source(INPUT, |INPUT|, [|ASK| + MAX_LINE_LEN])
  const SECOND: Source := Source(LONG_LINE + QUIT, 8, [])
  const THIRD: Source := Source(QUIT, 6, [])

  /** A printed command without a data block takes no reads beyond its line. */
  lemma LineIsAll(c: Command, rest: bytes, x: Source)
    requires WellFormed(c) && !c.Store? && x.stream == Print(c) + rest && !Refused(x)
    ensures FrameReads(x) == LineReads(x)
  {
    hide Header, Words, CommandLine, Fields, Proper, LineReads, Refused, TrimEnd;
    LineRoundTrip(c);
    WordsRoundTrip(c);
    FirstLine(CommandLine(c) + "\r", rest);
    assert Print(c) + rest == CommandLine(c) + "\r" + "\n" + rest;
    assert CommandLine(c) + CRLF == CommandLine(c) + "\r" + "\n";
    assert FirstText(x.stream) == CommandLine(c);
    LastCourse(LineReads(x));
  }

  lemma AskedFirst()
    ensures WellFormed(Command.Version) && |ASK| == 9
    ensures Taken(START) == Run(Command.Version, LONG_LINE + QUIT) && Past(START) == SECOND
    ensures FrameReads(START).at == [Stop(|INPUT|, false)]
  {
    assert Spaced([]) == [];
    assert CommandLine(Command.Version) == "version";
    assert WellFormed(Command.Version);
    PrintedIsTaken(Command.Version, LONG_LINE + QUIT, START);
    AskedReads();
    LineIsAll(Command.Version, LONG_LINE + QUIT, START);
  }

  lemma AskedReads()
    requires |ASK| == 9 && WellFormed(Command.Version)
    ensures LineReads(START) == Reads([Stop(|INPUT|, false)], 8, []) && !Refused(START)
  {
    hide Print, WellFormed, NextFrame;
    PrintedEnds(Command.Version, LONG_LINE + QUIT);
    assert |INPUT| == 9 + MAX_LINE_LEN + 8;
    PullDone(8, [], |LONG_LINE + QUIT|, false, |INPUT| - MAX_LINE_LEN);
    PullStep(|INPUT|, START.sizes, |LONG_LINE + QUIT|, false, |INPUT| - MAX_LINE_LEN);
  }

  lemma PrintedEnds(c: Command, rest: bytes)
    requires WellFormed(c) && !c.Store?
    ensures AfterLine(Print(c) + rest) == rest && Find(Print(c) + rest, '\n') < |Print(c) + rest|
  {
    hide Proper, CommandLine;
    LineRoundTrip(c);
    FirstLine(CommandLine(c) + "\r", rest);
    assert Print(c) + rest == CommandLine(c) + "\r" + "\n" + rest;
  }

  lemma SkippedThen()
    ensures Taken(SECOND) == Reply(LINE_TOO_LONG, QUIT) && Past(SECOND) == THIRD
    ensures FrameReads(SECOND).at == [Stop(8, true), Stop(7, true)]
  {
    hide NextFrame;
    var line := Filler(MAX_LINE_LEN) + "\r";
    FirstLine(line, QUIT);
    assert LONG_LINE + QUIT == line + "\n" + QUIT;
    assert AfterLine(LONG_LINE + QUIT) == QUIT;
    PullStep(8, [], 6, false, 8);
    PullStep(7, [], 6, false, 8);
    PullDone(6, [], 6, false, 8);
    assert LineReads(SECOND) == Pull(8, [], 6, false, 8);
    assert LineReads(SECOND) == Reads([Stop(8, true), Stop(7, true)], 6, []);
  }

  lemma LeftLast()
    ensures Taken(THIRD) == Left([])
  {
    hide NextFrame;
    QuitLeaves();
    ShortIsTaken(THIRD);
  }

  /** The session: the version is asked for, the long line refused, and then the client leaves. */
  lemma Course(p: Place)
    ensures Conduct(START, p).end == Left([])
    ensures var at := StreamReads(START).at; |at| >= 2 && at[0] == Stop(|INPUT|, false) && at[1] == Stop(8, true)
    ensures Due(START, p, |INPUT|) == [] && Due(START, p, 8) == [VersionIs(VERSION)]
  {
    hide Taken, FrameReads, Past, Print, Finished;
    AskedFirst();
    SkippedThen();
    LeftLast();
    var (q, sent) := RunOne(Command.Version, p);
    assert sent == [VersionIs(VERSION)];
    assert Conduct(THIRD, q) == Served([], q.store, Left([]));
    assert Conduct(SECOND, q).end == Left([]);
    assert StreamReads(START).at == [Stop(|INPUT|, false)] + StreamReads(SECOND).at;
    assert StreamReads(SECOND).at[0] == Stop(8, true);
    assert Due(SECOND, q, 8) == [];
    assert |LONG_LINE + QUIT| >= 8;
  }

  /** The version is due at the second wait, and has not been delivered. */
  method OverlongWithholds(store: Store) returns (conn: Connection)
    modifies store
    ensures |conn.waits| >= 2
    ensures var w := conn.waits[1];
            w.skippingLine && w.unread == 8 && w.written == Encode(VersionIs(VERSION)) && w.delivered != w.written
  {
    hide Print, Conduct, Due, StreamReads, EncodeAll, QuitDelivers;
    var reader := new Reader(INPUT, [|ASK| + MAX_LINE_LEN]);
    var writer := new Writer();
    conn := new Connection(reader, writer);
    ghost var p := Place(store.State(), store.clock, []);
    Course(p);
    assert INPUT != [];
    assert conn.Source() == START;
    var _, served := Process(conn, store, []);
    ghost var ws := conn.waits;
    NothingEncoded();
    OneEncoded(VersionIs(VERSION));
    EncodingsAreNotEmpty(VersionIs(VERSION));
    assert Stop(ws[0].unread, ws[0].skippingLine) == Stop(|INPUT|, false);
    assert Stop(ws[1].unread, ws[1].skippingLine) == Stop(8, true);
    assert ws[0].written == [] + EncodeAll([]);
    assert ws[1].written == [] + EncodeAll([VersionIs(VERSION)]);
    assert LastFlush(ws[..1], 0) == Some(ws[0]);
  }
}
