// How the cutting of the input into reads can show: exactly for lines around the length limit.
module Chunking {
  import opened Bytes
  import opened Framing
  import opened Readings
  import opened Connections

  /** The loop of ReadLine under a given chunking. */
  function LineRun(buffer: bytes, input: bytes, sizes: seq<nat>): LineResult
    decreases |input|
  {
    var p := Find(buffer, '\n');
    if p < |buffer| then Line(TrimEnd(buffer[..p + 1]))
    else if |buffer| >= MAX_LINE_LEN then TooLong
    else if input == [] then Eof
    else
      var n := ReadSize(|input|, sizes, |input|);
      LineRun(buffer + input[..n], input[n..], Later(sizes))
  }

  /** What reading a line amounts to when the whole stream is known. */
  function WholeLine(s: bytes): LineResult {
    var p := Find(s, '\n');
    if p < |s| then Line(TrimEnd(s[..p + 1]))
    else if |s| >= MAX_LINE_LEN then TooLong
    else Eof
  }

  /** No read takes more than `cap` bytes. */
  predicate Within(sizes: seq<nat>, cap: nat) {
    forall n :: n in sizes ==> n <= cap
  }

  lemma Rejoined(buffer: bytes, input: bytes, n: nat)
    requires n <= |input|
    ensures buffer + input[..n] + input[n..] == buffer + input
  {
  }

  lemma BufferedNewline(buffer: bytes, input: bytes)
    requires Find(buffer, '\n') < |buffer|
    ensures forall sizes :: LineRun(buffer, input, sizes) == WholeLine(buffer + input)
  {
    FindInFront(buffer, input);
  }

  /** The line loop refuses exactly the lines that are refused by where its reads come. */
  lemma RunRefuses(buffer: bytes, input: bytes, sizes: seq<nat>)
    requires buffer + input != []
    ensures LineRun(buffer, input, sizes) == TooLong <==> Refused(SourceAt(buffer + input, |input|, sizes))
  {
    hide LineRun, Pull;
    if Find(buffer + input, '\n') == |buffer + input| {
      NoLineRun(buffer, input, sizes);
    } else {
      RunSkips(buffer, input, sizes);
    }
  }

  lemma {:induction false} NoLineRun(buffer: bytes, input: bytes, sizes: seq<nat>)
    requires Find(buffer + input, '\n') == |buffer + input|
    ensures LineRun(buffer, input, sizes) == TooLong <==> |buffer + input| >= MAX_LINE_LEN
    decreases |input|
  {
    NoEarlyNewline(buffer, input);
    if |buffer| < MAX_LINE_LEN && input != [] {
      var n := ReadSize(|input|, sizes, |input|);
      Rejoined(buffer, input, n);
      NoLineRun(buffer + input[..n], input[n..], Later(sizes));
    }
  }

  predicate EndsInSkip(at: seq<Stop>) {
    at != [] && at[|at| - 1].skipping
  }

  lemma {:induction false} RunSkips(buffer: bytes, input: bytes, sizes: seq<nat>)
    requires Find(buffer + input, '\n') < |buffer + input|
    ensures var s := buffer + input;
            LineRun(buffer, input, sizes) == TooLong <==>
              EndsInSkip(Pull(|input|, sizes, |AfterLine(s)|, false, |s| - MAX_LINE_LEN).at)
    decreases |input|
  {
    hide TrimEnd, Pull, EndsInSkip, AfterLine, ReadSize, Find;
    var s := buffer + input;
    var goal, limit := |AfterLine(s)|, |s| - MAX_LINE_LEN;
    if Find(buffer, '\n') < |buffer| {
      FindInFront(buffer, input);
      PullDone(|input|, sizes, goal, false, limit);
      NothingSkipped();
    } else {
      SkipPlain(buffer, input);
      AfterShrinks(input);
      if |buffer| >= MAX_LINE_LEN {
        AllSkipped(|input|, sizes, goal, limit);
      } else {
        var n := ReadSize(|input|, sizes, |input|);
        Rejoined(buffer, input, n);
        RunSkips(buffer + input[..n], input[n..], Later(sizes));
        PullStep(|input|, sizes, goal, false, limit);
        OneUnskipped(|input|, Pull(|input| - n, Later(sizes), goal, false, limit).at);
      }
    }
  }

  lemma NothingSkipped()
    ensures !EndsInSkip([])
  {
  }

  lemma AllSkipped(left: nat, sizes: seq<nat>, goal: nat, limit: int)
    requires goal < left <= limit
    ensures EndsInSkip(Pull(left, sizes, goal, false, limit).at)
  {
    hide Pull;
    var at := Pull(left, sizes, goal, false, limit).at;
    assert at[|at| - 1].unread <= left;
  }

  lemma OneUnskipped(left: nat, rest: seq<Stop>)
    ensures EndsInSkip([Stop(left, false)] + rest) <==> EndsInSkip(rest)
  {
  }

  /** A line that may not be refused is read the same way under every chunking. */
  lemma {:induction false} ShortLineRun(buffer: bytes, input: bytes, sizes: seq<nat>)
    requires !MayRefuse(buffer + input)
    ensures LineRun(buffer, input, sizes) == WholeLine(buffer + input)
    decreases |input|
  {
    hide TrimEnd;
    if Find(buffer, '\n') < |buffer| {
      BufferedNewline(buffer, input);
    } else {
      SkipPlain(buffer, input);
      if input == [] {
        assert buffer + input == buffer;
      } else if |buffer| < MAX_LINE_LEN {
        var n := ReadSize(|input|, sizes, |input|);
        Rejoined(buffer, input, n);
        ShortLineRun(buffer + input[..n], input[n..], Later(sizes));
      }
    }
  }

  /** A newline so far off that no read can reach past the limit to it: always refused. */
  lemma {:induction false} FarLineRun(buffer: bytes, input: bytes, sizes: seq<nat>, cap: nat)
    requires Within(sizes, cap) && cap > 0
    requires Find(buffer + input, '\n') > MAX_LINE_LEN - 2 + cap
    requires |buffer| <= MAX_LINE_LEN - 1 + cap
    ensures LineRun(buffer, input, sizes) == TooLong
    decreases |input|
  {
    hide TrimEnd;
    NoEarlyNewline(buffer, input);
    if |buffer| < MAX_LINE_LEN {
      var n := ReadSize(|input|, sizes, |input|);
      assert n <= cap by {
        assert sizes != [] ==> sizes[0] in sizes;
      }
      Rejoined(buffer, input, n);
      assert forall m :: m in Later(sizes) ==> m in sizes;
      FarLineRun(buffer + input[..n], input[n..], Later(sizes), cap);
    }
  }

  lemma NoEarlyNewline(buffer: bytes, input: bytes)
    requires Find(buffer + input, '\n') >= |buffer|
    ensures Find(buffer, '\n') == |buffer|
  {
    assert forall i :: 0 <= i < |buffer| ==> (buffer + input)[i] == buffer[i];
  }

  /** Read a byte at a time, a line that reaches the limit is refused. */
  lemma {:induction false} SlowRun(buffer: bytes, input: bytes)
    requires |buffer| <= MAX_LINE_LEN <= Find(buffer + input, '\n')
    ensures LineRun(buffer, input, []) == TooLong
    decreases |input|
  {
    hide TrimEnd;
    NoEarlyNewline(buffer, input);
    if |buffer| < MAX_LINE_LEN {
      Rejoined(buffer, input, 1);
      SlowRun(buffer + input[..1], input[1..]);
    }
  }

  function Ones(n: nat, last: nat): seq<nat> {
    if n == 0 then [last] else [1] + Ones(n - 1, last)
  }

  lemma {:induction false} OnesWithin(n: nat, last: nat, cap: nat)
    requires 1 <= last <= cap
    ensures Within(Ones(n, last), cap)
  {
    if n > 0 {
      OnesWithin(n - 1, last, cap);
    }
  }

  /** Read up to one byte below the limit and then past the newline, the same line is accepted. */
  lemma {:induction false} JumpRun(buffer: bytes, input: bytes, last: nat)
    requires |buffer| < MAX_LINE_LEN <= Find(buffer + input, '\n') < |buffer + input|
    requires last == Find(buffer + input, '\n') + 2 - MAX_LINE_LEN
    ensures LineRun(buffer, input, Ones(MAX_LINE_LEN - 1 - |buffer|, last)) == WholeLine(buffer + input)
    decreases |input|
  {
    hide TrimEnd;
    var sizes := Ones(MAX_LINE_LEN - 1 - |buffer|, last);
    var s := buffer + input;
    NoEarlyNewline(buffer, input);
    var n := ReadSize(|input|, sizes, |input|);
    Rejoined(buffer, input, n);
    if |buffer| == MAX_LINE_LEN - 1 {
      assert n == last;
      assert |buffer + input[..n]| == Find(s, '\n') + 1;
      assert (buffer + input[..n])[Find(s, '\n')] == s[Find(s, '\n')] == '\n';
      BufferedNewline(buffer + input[..n], input[n..]);
    } else {
      JumpRun(buffer + input[..n], input[n..], last);
    }
  }

  /** Every chunking with reads of at most `cap` bytes makes the same of the line. */
  ghost predicate ChunkIndependent(buffer: bytes, input: bytes, cap: nat) {
    forall a, b | Within(a, cap) && Within(b, cap) :: LineRun(buffer, input, a) == LineRun(buffer, input, b)
  }

  /**
   * The newline lies at or past the limit, but within one read of the last position below it, and the buffer is
   * short of the limit.
   */
  predicate Borderline(buffer: bytes, input: bytes, cap: nat) {
    var s := buffer + input;
    |buffer| < MAX_LINE_LEN <= Find(s, '\n') < |s| && Find(s, '\n') <= MAX_LINE_LEN - 2 + cap
  }

  lemma TwoWays(buffer: bytes, input: bytes, cap: nat)
    requires Borderline(buffer, input, cap)
    ensures !ChunkIndependent(buffer, input, cap)
  {
    hide LineRun, Ones, Find, TrimEnd;
    var last := Find(buffer + input, '\n') + 2 - MAX_LINE_LEN;
    var slow: seq<nat>, fast := [], Ones(MAX_LINE_LEN - 1 - |buffer|, last);
    SlowRun(buffer, input);
    OnesWithin(MAX_LINE_LEN - 1 - |buffer|, last, cap);
    JumpRun(buffer, input, last);
    assert Within(slow, cap) && LineRun(buffer, input, slow) != LineRun(buffer, input, fast);
  }

  /** A buffer that has reached the limit without a newline is refused at once. */
  lemma FullBuffer(buffer: bytes, input: bytes)
    requires MAX_LINE_LEN <= |buffer| <= Find(buffer + input, '\n')
    ensures forall sizes :: LineRun(buffer, input, sizes) == TooLong
  {
    NoEarlyNewline(buffer, input);
  }

  lemma OneWay(buffer: bytes, input: bytes, cap: nat)
    requires cap > 0 && !Borderline(buffer, input, cap)
    ensures ChunkIndependent(buffer, input, cap)
  {
    hide LineRun, Find, TrimEnd;
    var s := buffer + input;
    if !MayRefuse(s) {
      forall a | Within(a, cap) ensures LineRun(buffer, input, a) == WholeLine(s) {
        ShortLineRun(buffer, input, a);
      }
    } else if |buffer| < MAX_LINE_LEN {
      forall a | Within(a, cap) ensures LineRun(buffer, input, a) == TooLong {
        FarLineRun(buffer, input, a, cap);
      }
    } else if Find(s, '\n') >= |buffer| {
      FullBuffer(buffer, input);
    } else {
      NewlineInFront(buffer, input);
      BufferedNewline(buffer, input);
    }
  }

  lemma NewlineInFront(buffer: bytes, input: bytes)
    requires Find(buffer + input, '\n') < |buffer|
    ensures Find(buffer, '\n') < |buffer|
  {
    var p := Find(buffer + input, '\n');
    assert buffer[p] == (buffer + input)[p] == '\n';
  }

  /** Whatever is buffered already, chunking shows exactly for such a line. */
  lemma ChunkingShows(buffer: bytes, input: bytes, cap: nat)
    requires cap > 0
    ensures ChunkIndependent(buffer, input, cap) <==> !Borderline(buffer, input, cap)
  {
    hide Borderline, ChunkIndependent;
    if Borderline(buffer, input, cap) {
      TwoWays(buffer, input, cap);
    } else {
      OneWay(buffer, input, cap);
    }
  }
}
