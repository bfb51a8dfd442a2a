// Which data incr and decr take for a number (the arithmetic of src/store.rs): exactly the decimals,
// with an optional plus sign and any zeros in front, and white space around them.
module Numbers {
  import opened Bytes
  import opened Commands
  import opened Items
  import opened Printer

  /** One white space character, in UTF-8. */
  predicate IsSpace(c: bytes) {
    || c == "\t" || c == "\n" || c == "\U{B}" || c == "\U{C}" || c == "\r" || c == " "
    || c == "\U{C2}\U{85}" || c == "\U{C2}\U{A0}" || c == "\U{E1}\U{9A}\U{80}"
    || (|c| == 3 && c[..2] == "\U{E2}\U{80}" && '\U{80}' <= c[2] <= '\U{8A}')
    || c == "\U{E2}\U{80}\U{A8}" || c == "\U{E2}\U{80}\U{A9}" || c == "\U{E2}\U{80}\U{AF}"
    || c == "\U{E2}\U{81}\U{9F}" || c == "\U{E3}\U{80}\U{80}"
  }

  predicate AllSpaces(cs: seq<bytes>) {
    forall c :: c in cs ==> IsSpace(c)
  }

  function Flat(cs: seq<bytes>): bytes {
    if cs == [] then [] else cs[0] + Flat(cs[1..])
  }

  /** White space, an optional plus sign, any zeros, the decimal of `n`, white space. */
  ghost predicate Writes(data: bytes, n: nat) {
    exists before, plus, zeros: nat, after ::
      && AllSpaces(before) && AllSpaces(after) && (plus == "" || plus == "+")
      && data == Framed(before, plus, zeros, n, after)
  }

  function Framed(before: seq<bytes>, plus: bytes, zeros: nat, n: nat, after: seq<bytes>): bytes {
    Flat(before) + (plus + (Zeros(zeros) + Decimal(n))) + Flat(after)
  }

  // ---- Trimming ----

  lemma {:induction false} FlatMore(cs: seq<bytes>, c: bytes)
    ensures Flat(cs + [c]) == Flat(cs) + c
  {
    if cs == [] {
      assert [c][1..] == [] && [] + [c] == [c];
      assert c + [] == [] + c;
    } else {
      assert (cs + [c])[1..] == cs[1..] + [c];
      FlatMore(cs[1..], c);
      assert cs[0] + (Flat(cs[1..]) + c) == cs[0] + Flat(cs[1..]) + c;
    }
  }

  lemma WideIsSpace(w: bytes)
    ensures WideSpace(w) ==> IsSpace(w)
    ensures IsSpace(w) ==> (|w| == 1 && AsciiSpace(w[0])) || ((|w| == 2 || |w| == 3) && WideSpace(w))
  {
    if |w| == 2 {
      assert w == [w[0], w[1]];
    } else if |w| == 3 {
      assert w == [w[0], w[1], w[2]];
    } else if |w| == 1 {
      assert w == [w[0]];
    }
  }

  lemma AsciiIsSpace(b: byte)
    ensures AsciiSpace(b) ==> IsSpace([b])
  {
  }

  lemma StartIsSpace(s: bytes)
    ensures SpaceAtStart(s) > 0 ==> IsSpace(s[..SpaceAtStart(s)])
  {
    hide WideSpace, IsSpace, AsciiSpace;
    if |s| >= 1 {
      AsciiIsSpace(s[0]);
      assert s[..1] == [s[0]];
    }
    if |s| >= 2 {
      WideIsSpace(s[..2]);
    }
    if |s| >= 3 {
      WideIsSpace(s[..3]);
    }
  }

  lemma EndIsSpace(s: bytes)
    ensures SpaceAtEnd(s) > 0 ==> IsSpace(s[|s| - SpaceAtEnd(s)..])
  {
    hide WideSpace, IsSpace, AsciiSpace;
    if |s| >= 1 {
      AsciiIsSpace(s[|s| - 1]);
      assert s[|s| - 1..] == [s[|s| - 1]];
    }
    if |s| >= 2 {
      WideIsSpace(s[|s| - 2..]);
    }
    if |s| >= 3 {
      WideIsSpace(s[|s| - 3..]);
    }
  }

  lemma {:induction false} StartTrims(s: bytes) returns (cs: seq<bytes>)
    ensures AllSpaces(cs) && s == Flat(cs) + TrimStart(s)
    decreases |s|
  {
    hide IsSpace, SpaceAtStart;
    var n := SpaceAtStart(s);
    if n == 0 {
      cs := [];
    } else {
      StartIsSpace(s);
      var more := StartTrims(s[n..]);
      cs := [s[..n]] + more;
      assert cs[1..] == more;
      assert s == s[..n] + (Flat(more) + TrimStart(s[n..]));
    }
  }

  lemma {:induction false} EndTrims(s: bytes) returns (cs: seq<bytes>)
    ensures AllSpaces(cs) && s == TrimTail(s) + Flat(cs)
    decreases |s|
  {
    hide IsSpace, SpaceAtEnd;
    var n := SpaceAtEnd(s);
    if n == 0 {
      cs := [];
    } else {
      EndIsSpace(s);
      var k := |s| - n;
      var more := EndTrims(s[..k]);
      cs := more + [s[k..]];
      FlatMore(more, s[k..]);
      assert s == TrimTail(s[..k]) + Flat(more) + s[k..];
    }
  }

  /** No space character begins or ends with a shorter one. */
  lemma WideParts(c: bytes)
    requires WideSpace(c)
    ensures (|c| == 2 || |c| == 3) && !AsciiSpace(c[0]) && !AsciiSpace(c[|c| - 1])
    ensures |c| == 3 ==> !WideSpace(c[..2]) && !WideSpace(c[1..])
  {
  }

  lemma SpaceInFront(c: bytes, s: bytes)
    requires IsSpace(c)
    ensures SpaceAtStart(c + s) == |c| > 0
  {
    hide IsSpace, WideSpace, AsciiSpace;
    WideIsSpace(c);
    var t := c + s;
    assert t[0] == c[0];
    if WideSpace(c) {
      WideParts(c);
      assert t[..2] == c[..2] && c[..|c|] == c;
      if |c| == 3 {
        assert t[..3] == c;
      }
    }
  }

  lemma SpaceBehind(s: bytes, c: bytes)
    requires IsSpace(c)
    ensures SpaceAtEnd(s + c) == |c| > 0
  {
    hide IsSpace, WideSpace, AsciiSpace;
    WideIsSpace(c);
    var t := s + c;
    assert t[|t| - 1] == c[|c| - 1];
    if WideSpace(c) {
      WideParts(c);
      if |c| == 2 {
        assert t[|t| - 2..] == c;
      } else {
        assert t[|t| - 2..] == c[1..];
        assert t[|t| - 3..] == c;
      }
    }
  }

  predicate Solid(core: bytes) {
    core != [] && (core[0] == '+' || IsDigit(core[0])) && IsDigit(core[|core| - 1])
  }

  lemma PlainIsNotWide(w: bytes)
    requires w != [] && (w[0] == '+' || IsDigit(w[0]) || IsDigit(w[|w| - 1]))
    ensures !WideSpace(w)
  {
  }

  lemma SolidStart(t: bytes)
    requires t != [] && (t[0] == '+' || IsDigit(t[0]))
    ensures SpaceAtStart(t) == 0
  {
    hide WideSpace;
    if |t| >= 2 {
      PlainIsNotWide(t[..2]);
    }
    if |t| >= 3 {
      PlainIsNotWide(t[..3]);
    }
  }

  lemma SolidEnd(t: bytes)
    requires t != [] && IsDigit(t[|t| - 1])
    ensures SpaceAtEnd(t) == 0
  {
    hide WideSpace;
    if |t| >= 2 {
      PlainIsNotWide(t[|t| - 2..]);
    }
    if |t| >= 3 {
      PlainIsNotWide(t[|t| - 3..]);
    }
  }

  lemma SolidHasNoSpace(core: bytes, s: bytes)
    requires Solid(core)
    ensures SpaceAtStart(core + s) == 0 && SpaceAtEnd(core) == 0
  {
    hide SpaceAtStart, SpaceAtEnd;
    SolidStart(core + s);
    SolidEnd(core);
  }

  lemma {:induction false} TrimsStart(cs: seq<bytes>, core: bytes, s: bytes)
    requires AllSpaces(cs) && Solid(core)
    ensures TrimStart(Flat(cs) + (core + s)) == core + s
  {
    hide IsSpace, SpaceAtStart, Solid;
    var t := Flat(cs) + (core + s);
    if cs == [] {
      SolidHasNoSpace(core, s);
      assert t == core + s;
    } else {
      var rest := Flat(cs[1..]) + (core + s);
      assert t == cs[0] + rest;
      SpaceInFront(cs[0], rest);
      assert t[|cs[0]|..] == rest;
      TrimsStart(cs[1..], core, s);
    }
  }

  lemma {:induction false} TrimsEnd(core: bytes, cs: seq<bytes>)
    requires AllSpaces(cs) && Solid(core)
    ensures TrimTail(core + Flat(cs)) == core
  {
    hide IsSpace, SpaceAtEnd, Solid;
    if cs == [] {
      SolidHasNoSpace(core, []);
      assert core + Flat(cs) == core;
    } else {
      var k := |cs| - 1;
      var init, last := cs[..k], cs[k];
      assert cs == init + [last];
      FlatMore(init, last);
      var t := core + Flat(init);
      assert core + Flat(cs) == t + last;
      SpaceBehind(t, last);
      assert (t + last)[..|t|] == t;
      TrimsEnd(core, init);
    }
  }

  // ---- Numbers ----

  lemma CoreIsNumber(core: bytes, n: nat)
    ensures var digits := if core != [] && core[0] == '+' then core[1..] else core;
            (digits != [] && AllDigits(digits) && Numeral(digits) == n)
            <==> exists plus, zeros: nat :: (plus == "" || plus == "+") && core == plus + (Zeros(zeros) + Decimal(n))
  {
    hide Numeral, Decimal, AllDigits;
    var digits := if core != [] && core[0] == '+' then core[1..] else core;
    DigitsDenote(digits, n);
    if digits != [] && AllDigits(digits) && Numeral(digits) == n {
      var zeros: nat :| digits == Zeros(zeros) + Decimal(n);
      var plus: bytes := if digits == core then "" else "+";
      assert core == plus + (Zeros(zeros) + Decimal(n));
    }
    if plus, zeros: nat :| (plus == "" || plus == "+") && core == plus + (Zeros(zeros) + Decimal(n)) {
      FirstIsDigit(zeros, n);
      assert digits == Zeros(zeros) + Decimal(n);
    }
  }

  lemma FirstIsDigit(zeros: nat, n: nat)
    ensures var d := Zeros(zeros) + Decimal(n); d != [] && IsDigit(d[0]) && IsDigit(d[|d| - 1])
  {
    var e := Decimal(n);
    assert IsDigit(e[0]) && IsDigit(e[|e| - 1]);
  }

  lemma WrittenIsRead(data: bytes, n: u64)
    requires Writes(data, n)
    ensures ParseNumber(data) == Some(n)
  {
    hide Numeral, Decimal, TrimStart, TrimTail, AllSpaces, Flat, Zeros;
    var before, plus, zeros: nat, after :|
      && AllSpaces(before) && AllSpaces(after) && (plus == "" || plus == "+")
      && data == Framed(before, plus, zeros, n, after);
    var core := plus + (Zeros(zeros) + Decimal(n));
    FirstIsDigit(zeros, n);
    assert Solid(core);
    assert data == Flat(before) + (core + Flat(after));
    TrimsStart(before, core, Flat(after));
    TrimsEnd(core, after);
    CoreIsNumber(core, n);
  }

  lemma ReadIsWritten(data: bytes)
    requires ParseNumber(data).Some?
    ensures Writes(data, ParseNumber(data).value)
  {
    hide Numeral, Decimal, TrimStart, TrimTail, AllSpaces, Flat, Zeros;
    var n := ParseNumber(data).value;
    var before := StartTrims(data);
    var after := EndTrims(TrimStart(data));
    var core := TrimTail(TrimStart(data));
    CoreIsNumber(core, n);
    var plus, zeros: nat :| (plus == "" || plus == "+") && core == plus + (Zeros(zeros) + Decimal(n));
    assert data == Framed(before, plus, zeros, n, after);
  }

  /** Data is a number exactly when it is written as one, and below 2^64. */
  lemma NumberIsWritten(data: bytes, n: nat)
    ensures ParseNumber(data) == Some(n) <==> n <= U64_MAX && Writes(data, n)
  {
    hide ParseNumber, Writes;
    if ParseNumber(data) == Some(n) {
      ReadIsWritten(data);
    }
    if n <= U64_MAX && Writes(data, n) {
      WrittenIsRead(data, n);
    }
  }
}
