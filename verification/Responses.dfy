// The wire form of responses (write_response in src/connection.rs) and a decoder for it.
module Responses {
  import opened Bytes
  import opened Commands
  import opened Tokens
  import opened Parser

  function HeaderWords(v: Value): seq<bytes> {
    [v.key, Decimal(v.flags), Decimal(|v.data|)] + (if v.cas.Some? then [Decimal(v.cas.value)] else [])
  }

  function EncodeValue(v: Value): bytes {
    "VALUE" + Spaced(HeaderWords(v)) + CRLF + v.data + CRLF
  }

  function EncodeValues(vs: seq<Value>): bytes {
    if vs == [] then [] else EncodeValue(vs[0]) + EncodeValues(vs[1..])
  }

  function EncodeStat(e: (bytes, bytes)): bytes {
    "STAT " + e.0 + " " + e.1 + CRLF
  }

  function EncodeStats(es: seq<(bytes, bytes)>): bytes {
    if es == [] then [] else EncodeStat(es[0]) + EncodeStats(es[1..])
  }

  /** The line of a response that is a single line. */
  function ReplyLine(r: Response): bytes
    requires !r.Values? && !r.StatsReport?
  {
    match r
    case Stored => "STORED"
    case NotStored => "NOT_STORED"
    case Deleted => "DELETED"
    case NotFound => "NOT_FOUND"
    case Exists => "EXISTS"
    case Touched => "TOUCHED"
    case Number(n) => Decimal(n)
    case Okay => "OK"
    case VersionIs(v) => "VERSION " + v
    case Error => "ERROR"
    case ClientError(m) => "CLIENT_ERROR " + m
    case ServerError(m) => "SERVER_ERROR " + m
  }

  const END: bytes := "END\r\n"

  function Encode(r: Response): bytes {
    match r
    case Values(vs) => EncodeValues(vs) + END
    case StatsReport(es) => EncodeStats(es) + END
    case _ => ReplyLine(r) + CRLF
  }

  function EncodeAll(rs: seq<Response>): bytes {
    if rs == [] then [] else Encode(rs[0]) + EncodeAll(rs[1..])
  }

  lemma NothingEncoded()
    ensures EncodeAll([]) == []
  {
  }

  lemma OneEncoded(r: Response)
    ensures EncodeAll([r]) == Encode(r)
  {
    hide Encode;
    NothingEncoded();
  }

  lemma EncodingsAreNotEmpty(r: Response)
    ensures Encode(r) != []
  {
    hide EncodeValues, EncodeStats, ReplyLine;
  }

  lemma {:induction false} EncodeAllConcat(a: seq<Response>, b: seq<Response>)
    ensures EncodeAll(a + b) == EncodeAll(a) + EncodeAll(b)
  {
    if a == [] {
      assert a + b == b;
    } else {
      assert (a + b)[1..] == a[1..] + b;
      EncodeAllConcat(a[1..], b);
    }
  }

  lemma ValueHeaderBytes(v: Value)
    ensures "VALUE " + v.key + " " + Decimal(v.flags) + " " + Decimal(|v.data|)
            + (if v.cas.Some? then " " + Decimal(v.cas.value) else []) == "VALUE" + Spaced(HeaderWords(v))
  {
    hide Spaced, Decimal;
    var tail: seq<bytes> := if v.cas.Some? then [Decimal(v.cas.value)] else [];
    if v.cas.Some? {
      SpacedCons(Decimal(v.cas.value), []);
      assert [Decimal(v.cas.value)] + [] == tail;
    }
    SpacedNil();
    SpacedThree(v.key, Decimal(v.flags), Decimal(|v.data|), tail);
    assert HeaderWords(v) == [v.key, Decimal(v.flags), Decimal(|v.data|)] + tail;
  }

  lemma SpacedThree(a: bytes, b: bytes, c: bytes, words: seq<bytes>)
    ensures "VALUE" + Spaced([a, b, c] + words) == "VALUE " + a + " " + b + " " + c + Spaced(words)
  {
    hide Spaced;
    SpacedCons(c, words);
    SpacedCons(b, [c] + words);
    SpacedCons(a, [b] + ([c] + words));
    assert [a, b, c] + words == [a] + ([b] + ([c] + words));
    Regroup3(a, b, c, Spaced(words));
  }

  lemma Regroup3(a: bytes, b: bytes, c: bytes, d: bytes)
    ensures "VALUE" + (" " + a + (" " + b + (" " + c + d))) == "VALUE " + a + " " + b + " " + c + d
  {
    assert " " + c + d == " " + (c + d);
    assert "VALUE" + (" " + a + (" " + b + (" " + c + d))) == ("VALUE" + " ") + a + (" " + b + (" " + c + d));
  }

  lemma SpacedNil()
    ensures Spaced([]) == []
  {
  }

  lemma SpacedCons(word: bytes, words: seq<bytes>)
    ensures Spaced([word] + words) == " " + word + Spaced(words)
  {
  }

  /** The words of the protocol. */
  lemma WordsOnTheWire(n: u64, text: bytes)
    ensures Encode(Stored) == "STORED\r\n" && Encode(NotStored) == "NOT_STORED\r\n"
    ensures Encode(Exists) == "EXISTS\r\n" && Encode(NotFound) == "NOT_FOUND\r\n"
    ensures Encode(Deleted) == "DELETED\r\n" && Encode(Touched) == "TOUCHED\r\n"
    ensures Encode(Okay) == "OK\r\n" && Encode(Error) == "ERROR\r\n"
    ensures Encode(Number(n)) == Decimal(n) + "\r\n"
    ensures Encode(Values([])) == "END\r\n"
    ensures Encode(VersionIs(text)) == "VERSION " + text + "\r\n"
    ensures Encode(ClientError(text)) == "CLIENT_ERROR " + text + "\r\n"
    ensures Encode(ServerError(text)) == "SERVER_ERROR " + text + "\r\n"
  {
    hide Decimal;
  }

  /** A value goes out as a header with its key, flags, size and, if asked for, token, and then its data. */
  lemma ValueOnTheWire(v: Value)
    ensures EncodeValue(v) ==
            "VALUE " + v.key + " " + Decimal(v.flags) + " " + Decimal(|v.data|)
            + (if v.cas.Some? then " " + Decimal(v.cas.value) else "") + "\r\n" + v.data + "\r\n"
  {
    hide Spaced, Decimal;
    ValueHeaderBytes(v);
  }

  lemma ReportOnTheWire(name: bytes, value: bytes)
    ensures EncodeStat((name, value)) == "STAT " + name + " " + value + "\r\n"
  {
  }

  // ---- A decoder, written as specification ----

  /** The line before the first carriage return, and what follows its terminator. */
  function CutLine(s: bytes): Option<(bytes, bytes)> {
    var p := Find(s, '\r');
    if p + 2 <= |s| && s[p..p + 2] == CRLF then Some((s[..p], s[p + 2..])) else None
  }

  function AfterPrefix(line: bytes, prefix: bytes): Option<bytes> {
    if |prefix| <= |line| && line[..|prefix|] == prefix then Some(line[|prefix|..]) else None
  }

  function DecodeLine(line: bytes): Option<Response> {
    if line == "STORED" then Some(Stored)
    else if line == "NOT_STORED" then Some(NotStored)
    else if line == "DELETED" then Some(Deleted)
    else if line == "NOT_FOUND" then Some(NotFound)
    else if line == "EXISTS" then Some(Exists)
    else if line == "TOUCHED" then Some(Touched)
    else if line == "OK" then Some(Okay)
    else if line == "ERROR" then Some(Error)
    else if AfterPrefix(line, "VERSION ").Some? then Some(VersionIs(AfterPrefix(line, "VERSION ").value))
    else if AfterPrefix(line, "CLIENT_ERROR ").Some? then Some(ClientError(AfterPrefix(line, "CLIENT_ERROR ").value))
    else if AfterPrefix(line, "SERVER_ERROR ").Some? then Some(ServerError(AfterPrefix(line, "SERVER_ERROR ").value))
    else
      match ParseField(line, 0, U64_MAX)
      case None => None
      case Some(n) => Some(Number(n))
  }

  function NaturalOf(tok: bytes): Option<nat> {
    if tok != [] && AllDigits(tok) then Some(Numeral(tok)) else None
  }

  /** A value block: its header tells the key, the flags, the size of the data, and maybe a token. */
  function DecodeValue(words: seq<bytes>, s: bytes): Option<(Value, bytes)> {
    if |words| != 4 && |words| != 5 then None
    else
      var flags := ParseField(words[2], 0, U32_MAX);
      var size := NaturalOf(words[3]);
      var cas := if |words| == 5 then NaturalOf(words[4]) else None;
      if flags == None || size == None || (|words| == 5 && cas == None) || |s| < size.value + 2 then None
      else Some((Value(words[1], flags.value, s[..size.value], cas), s[size.value + 2..]))
  }

  function DecodeValues(s: bytes): Option<(seq<Value>, bytes)>
    decreases |s|
  {
    match CutLine(s)
    case None => None
    case Some((line, rest)) =>
      if line == "END" then Some(([], rest))
      else
        match DecodeValue(Fields(line), rest)
        case None => None
        case Some((v, more)) =>
          match DecodeValues(more)
          case None => None
          case Some((vs, after)) => Some(([v] + vs, after))
  }

  function DecodeStats(s: bytes): Option<(seq<(bytes, bytes)>, bytes)>
    decreases |s|
  {
    match CutLine(s)
    case None => None
    case Some((line, rest)) =>
      if line == "END" then Some(([], rest))
      else
        match AfterPrefix(line, "STAT ")
        case None => None
        case Some(entry) =>
          var p := Find(entry, ' ');
          if p == |entry| then None
          else
            match DecodeStats(rest)
            case None => None
            case Some((es, after)) => Some(([(entry[..p], entry[p + 1..])] + es, after))
  }

  function DecodeReply(s: bytes): Option<(Response, bytes)> {
    match CutLine(s)
    case None => None
    case Some((line, rest)) =>
      if line == "END" || AfterPrefix(line, "VALUE ").Some? then
        match DecodeValues(s)
        case None => None
        case Some((vs, after)) => Some((Values(vs), after))
      else if AfterPrefix(line, "STAT ").Some? then
        match DecodeStats(s)
        case None => None
        case Some((es, after)) => Some((StatsReport(es), after))
      else
        match DecodeLine(line)
        case None => None
        case Some(r) => Some((r, rest))
  }

  // ---- Round trips ----

  /** Responses as the server forms them: valid keys, messages within a line, a report with entries. */
  predicate Sendable(r: Response) {
    match r
    case Values(vs) => forall v :: v in vs ==> ValidKey(v.key)
    case StatsReport(es) => es != [] && forall e :: e in es ==> ' ' !in e.0 && '\r' !in e.0 && '\r' !in e.1
    case VersionIs(v) => '\r' !in v
    case ClientError(m) => '\r' !in m
    case ServerError(m) => '\r' !in m
    case _ => true
  }

  lemma CutLineOf(line: bytes, rest: bytes)
    requires '\r' !in line
    ensures CutLine(line + CRLF + rest) == Some((line, rest))
  {
    var s := line + CRLF + rest;
    assert forall i :: 0 <= i < |line| ==> s[i] == line[i] && line[i] in line;
    assert s[|line|] == '\r';
    assert s[..|line|] == line && s[|line|..|line| + 2] == CRLF && s[|line| + 2..] == rest;
  }

  lemma NumeralField(n: nat, hi: nat)
    requires n <= hi
    ensures ParseField(Decimal(n), 0, hi) == Some(n) && NaturalOf(Decimal(n)) == Some(n)
  {
    DecimalDenotes(n);
    assert IsDigit(Decimal(n)[0]);
  }

  lemma PrefixOf(prefix: bytes, s: bytes)
    ensures AfterPrefix(prefix + s, prefix) == Some(s)
  {
    assert (prefix + s)[..|prefix|] == prefix && (prefix + s)[|prefix|..] == s;
  }

  lemma NoPrefix(line: bytes, prefix: bytes, i: nat)
    requires i < |line| && i < |prefix| && line[i] != prefix[i]
    ensures AfterPrefix(line, prefix) == None && line != prefix
  {
    if |prefix| <= |line| {
      assert line[..|prefix|][i] == line[i];
    }
  }

  /** Nothing but a value block and the statistics report starts like one, and nothing else is a bare END. */
  ghost predicate SingleLine(line: bytes, r: Response) {
    && DecodeLine(line) == Some(r) && '\r' !in line && line != "END"
    && AfterPrefix(line, "VALUE ") == None && AfterPrefix(line, "STAT ") == None
  }

  lemma ReplyLineRoundTrip(r: Response)
    requires Sendable(r) && !r.Values? && !r.StatsReport?
    ensures SingleLine(ReplyLine(r), r)
  {
    if r.Number? {
      NumberLine(r.number);
    } else if r.VersionIs? {
      VersionLine(r.version);
    } else if r.ClientError? {
      ClientErrorLine(r.message);
    } else if r.ServerError? {
      ServerErrorLine(r.message);
    } else {
      NoPrefix(ReplyLine(r), "VALUE ", 0);
      NoPrefix(ReplyLine(r), "STAT ", if r.Stored? then 2 else 0);
    }
  }

  lemma NumberLine(n: u64)
    ensures SingleLine(Decimal(n), Number(n))
  {
    hide AfterPrefix, ParseField;
    var line := Decimal(n);
    NumeralField(n, U64_MAX);
    assert IsDigit(line[0]);
    NoPrefix(line, "VERSION ", 0);
    NoPrefix(line, "CLIENT_ERROR ", 0);
    NoPrefix(line, "SERVER_ERROR ", 0);
    NoPrefix(line, "VALUE ", 0);
    NoPrefix(line, "STAT ", 0);
  }

  lemma VersionLine(v: bytes)
    requires '\r' !in v
    ensures SingleLine("VERSION " + v, VersionIs(v))
  {
    hide AfterPrefix, ParseField;
    var line: bytes := "VERSION " + v;
    assert line[0] == 'V' && line[1] == 'E';
    PrefixOf("VERSION ", v);
    NoPrefix(line, "VALUE ", 1);
    NoPrefix(line, "STAT ", 0);
  }

  lemma ClientErrorLine(m: bytes)
    requires '\r' !in m
    ensures SingleLine("CLIENT_ERROR " + m, ClientError(m))
  {
    hide AfterPrefix, ParseField;
    var line: bytes := "CLIENT_ERROR " + m;
    assert line[0] == 'C';
    PrefixOf("CLIENT_ERROR ", m);
    NoPrefix(line, "VERSION ", 0);
    NoPrefix(line, "VALUE ", 0);
    NoPrefix(line, "STAT ", 0);
  }

  lemma ServerErrorLine(m: bytes)
    requires '\r' !in m
    ensures SingleLine("SERVER_ERROR " + m, ServerError(m))
  {
    hide AfterPrefix, ParseField;
    var line: bytes := "SERVER_ERROR " + m;
    assert line[0] == 'S' && line[1] == 'E';
    PrefixOf("SERVER_ERROR ", m);
    NoPrefix(line, "VERSION ", 0);
    NoPrefix(line, "CLIENT_ERROR ", 0);
    NoPrefix(line, "VALUE ", 0);
    NoPrefix(line, "STAT ", 1);
  }

  lemma ValueHeader(v: Value)
    requires ValidKey(v.key)
    ensures var line: bytes := "VALUE" + Spaced(HeaderWords(v));
            && Fields(line) == ["VALUE"] + HeaderWords(v) && '\r' !in line && AfterPrefix(line, "VALUE ").Some?
  {
    var words := HeaderWords(v);
    assert forall n: nat :: Plain(Decimal(n)) by {
      forall n: nat ensures Plain(Decimal(n)) {
        var d := Decimal(n);
        assert forall i :: 0 <= i < |d| ==> IsDigit(d[i]);
      }
    }
    assert Plain(v.key) by {
      assert forall i :: 0 <= i < |v.key| ==> v.key[i] > ' ';
    }
    assert forall w :: w in words ==> Plain(w);
    SpacedHasNoReturn(words);
    FieldsOfSpaced(words);
    FieldsOfToken("VALUE", Spaced(words));
  }

  predicate Plain(w: bytes) {
    IsToken(w) && '\r' !in w
  }

  lemma {:induction false} SpacedHasNoReturn(ws: seq<bytes>)
    requires forall w :: w in ws ==> Plain(w)
    ensures '\r' !in Spaced(ws) && (ws != [] ==> Spaced(ws) != [] && Spaced(ws)[0] == ' ')
  {
    if ws != [] {
      SpacedHasNoReturn(ws[1..]);
      assert Plain(ws[0]);
    }
  }

  lemma ValueRoundTrip(v: Value, s: bytes)
    ensures DecodeValue(["VALUE"] + HeaderWords(v), v.data + CRLF + s) == Some((v, s))
  {
    NumeralField(v.flags, U32_MAX);
    NumeralField(|v.data|, |v.data|);
    if v.cas.Some? {
      NumeralField(v.cas.value, v.cas.value);
    }
    var t := v.data + CRLF + s;
    assert t[..|v.data|] == v.data && t[|v.data| + 2..] == s;
  }

  lemma FirstBlock(v: Value, others: bytes, s: bytes)
    ensures EncodeValue(v) + others + END + s
         == "VALUE" + Spaced(HeaderWords(v)) + CRLF + (v.data + CRLF + (others + END + s))
  {
    hide Spaced, HeaderWords;
  }

  lemma {:induction false} ValuesRoundTrip(vs: seq<Value>, s: bytes)
    requires forall v :: v in vs ==> ValidKey(v.key)
    ensures DecodeValues(EncodeValues(vs) + END + s) == Some((vs, s))
    ensures var t := EncodeValues(vs) + END + s;
            CutLine(t).Some? && (CutLine(t).value.0 == "END" || AfterPrefix(CutLine(t).value.0, "VALUE ").Some?)
  {
    hide ValidKey, DecodeValue, HeaderWords, Fields, CutLine, AfterPrefix, Spaced, EncodeValue;
    if vs == [] {
      CutLineOf("END", s);
      assert EncodeValues(vs) + END + s == "END" + CRLF + s;
    } else {
      var v, more := vs[0], EncodeValues(vs[1..]) + END + s;
      var line: bytes := "VALUE" + Spaced(HeaderWords(v));
      FirstBlock(v, EncodeValues(vs[1..]), s);
      ValueHeader(v);
      CutLineOf(line, v.data + CRLF + more);
      ValueRoundTrip(v, more);
      ValuesRoundTrip(vs[1..], s);
      assert [v] + vs[1..] == vs;
    }
  }

  lemma StatRoundTrip(name: bytes, value: bytes)
    requires ' ' !in name && '\r' !in name && '\r' !in value
    ensures var line: bytes := "STAT " + name + " " + value;
            && '\r' !in line && line != "END" && AfterPrefix(line, "STAT ") == Some(name + " " + value)
            && AfterPrefix(line, "VALUE ") == None
    ensures var entry: bytes := name + " " + value;
            Find(entry, ' ') == |name| && entry[..|name|] == name && entry[|name| + 1..] == value
  {
    var entry: bytes := name + " " + value;
    assert "STAT " + name + " " + value == "STAT " + entry;
    hide AfterPrefix;
    PrefixOf("STAT ", entry);
    NoPrefix("STAT " + entry, "VALUE ", 0);
    assert forall i :: 0 <= i < |name| ==> entry[i] == name[i] && name[i] in name;
    assert entry[|name|] == ' ';
  }

  lemma {:induction false} StatsRoundTrip(es: seq<(bytes, bytes)>, s: bytes)
    requires forall e :: e in es ==> ' ' !in e.0 && '\r' !in e.0 && '\r' !in e.1
    ensures DecodeStats(EncodeStats(es) + END + s) == Some((es, s))
    ensures var t := EncodeStats(es) + END + s;
            es != [] ==>
              && CutLine(t).Some? && CutLine(t).value.0 != "END"
              && AfterPrefix(CutLine(t).value.0, "VALUE ") == None && AfterPrefix(CutLine(t).value.0, "STAT ").Some?
  {
    hide AfterPrefix, CutLine;
    if es == [] {
      CutLineOf("END", s);
      assert EncodeStats(es) + END + s == "END" + CRLF + s;
    } else {
      var e, more := es[0], EncodeStats(es[1..]) + END + s;
      var line: bytes := "STAT " + e.0 + " " + e.1;
      assert EncodeStats(es) + END + s == line + CRLF + more;
      StatRoundTrip(e.0, e.1);
      CutLineOf(line, more);
      StatsRoundTrip(es[1..], s);
      assert [e] + es[1..] == es;
    }
  }

  /** An encoded response is decoded as itself, whatever its data holds and whatever follows it. */
  lemma ReplyRoundTrip(r: Response, s: bytes)
    requires Sendable(r)
    ensures DecodeReply(Encode(r) + s) == Some((r, s))
  {
    hide DecodeLine, DecodeValues, DecodeStats, ReplyLine, CutLine, AfterPrefix, ValidKey;
    match r
    case Values(vs) => ValuesRoundTrip(vs, s);
    case StatsReport(es) => StatsRoundTrip(es, s);
    case _ =>
      ReplyLineRoundTrip(r);
      CutLineOf(ReplyLine(r), s);
  }

  lemma NothingDecodes()
    ensures DecodeReply([]) == None
  {
  }

  /** Two lists of responses with the same bytes are the same list. */
  lemma {:induction false} UniquelyDecodable(a: seq<Response>, b: seq<Response>)
    requires (forall r :: r in a ==> Sendable(r)) && (forall r :: r in b ==> Sendable(r))
    requires EncodeAll(a) == EncodeAll(b)
    ensures a == b
  {
    hide Encode, DecodeReply, Sendable;
    if a != [] {
      ReplyRoundTrip(a[0], EncodeAll(a[1..]));
    }
    if b != [] {
      ReplyRoundTrip(b[0], EncodeAll(b[1..]));
    }
    NothingDecodes();
    if a != [] && b != [] {
      UniquelyDecodable(a[1..], b[1..]);
    }
  }
}
