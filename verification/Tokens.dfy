// Splitting a command line into tokens (Tokenizer in src/parser.rs).
module Tokens {
  import opened Bytes

  /** Textbook split: the pieces between consecutive spaces, empty ones included. */
  function Split(s: bytes): seq<bytes>
    decreases |s|
  {
    var p := Find(s, ' ');
    if p == |s| then [s] else [s[..p]] + Split(s[p + 1..])
  }

  function NonEmpty(pieces: seq<bytes>): seq<bytes> {
    if pieces == [] then []
    else (if pieces[0] == [] then [] else [pieces[0]]) + NonEmpty(pieces[1..])
  }

  /** The tokens of a line: split on spaces, empty pieces dropped. */
  function Fields(s: bytes): seq<bytes> {
    NonEmpty(Split(s))
  }

  predicate IsToken(t: bytes) {
    t != [] && ' ' !in t
  }

  lemma FieldsSkipSpace(s: bytes)
    requires s != [] && s[0] == ' '
    ensures Fields(s) == Fields(s[1..])
  {
    assert Split(s) == [[]] + Split(s[1..]);
  }

  lemma FieldsHead(s: bytes)
    requires s != [] && s[0] != ' '
    ensures var p := Find(s, ' '); Fields(s) == [s[..p]] + Fields(s[p..])
  {
    var p := Find(s, ' ');
    if p < |s| {
      assert s[p..][1..] == s[p + 1..];
      FieldsSkipSpace(s[p..]);
    } else {
      assert s[p..] == [] && s[..p] == s;
      assert Split([]) == [[]];
      assert Split(s)[1..] == [];
    }
  }

  /** A token followed by the end of the line or by a space is the first field. */
  lemma FieldsOfToken(t: bytes, s: bytes)
    requires IsToken(t)
    requires s != [] ==> s[0] == ' '
    ensures Fields(t + s) == [t] + Fields(s)
  {
    var line := t + s;
    assert line[0] == t[0] != ' ';
    var p := Find(line, ' ');
    assert forall i :: 0 <= i < |t| ==> line[i] == t[i] && t[i] in t;
    assert s != [] ==> line[|t|] == s[0];
    FieldsHead(line);
    assert line[..p] == t && line[p..] == s;
  }

  lemma {:induction false} FieldsAreTokens(s: bytes)
    ensures forall t :: t in Fields(s) ==> IsToken(t) && |t| <= |s|
    decreases |s|
  {
    if s == [] {
      assert Split(s) == [[]];
    } else if s[0] == ' ' {
      FieldsSkipSpace(s);
      FieldsAreTokens(s[1..]);
    } else {
      var p := Find(s, ' ');
      FieldsHead(s);
      FieldsAreTokens(s[p..]);
    }
  }

  lemma {:induction false} SplitAtSpace(a: bytes, b: bytes)
    ensures Split(a + " " + b) == Split(a) + Split(b)
    decreases |a|
  {
    hide Find;
    var p := Find(a, ' ');
    FirstSpace(a, b);
    if p < |a| {
      SplitAtSpace(a[p + 1..], b);
      assert [a[..p]] + Split(a[p + 1..]) + Split(b) == [a[..p]] + (Split(a[p + 1..]) + Split(b));
    } else {
      assert a[..p] == a;
    }
  }

  lemma FirstSpace(a: bytes, b: bytes)
    ensures var s, p := a + " " + b, Find(a, ' ');
            && Find(s, ' ') == p < |s| && s[..p] == a[..p]
            && s[p + 1..] == if p == |a| then b else a[p + 1..] + " " + b
  {
    var s := a + " " + b;
    assert forall i :: 0 <= i < |a| ==> s[i] == a[i];
    assert s[|a|] == ' ';
  }

  lemma {:induction false} NonEmptyConcat(a: seq<bytes>, b: seq<bytes>)
    ensures NonEmpty(a + b) == NonEmpty(a) + NonEmpty(b)
  {
    if a == [] {
      assert a + b == b;
    } else {
      assert (a + b)[1..] == a[1..] + b;
      NonEmptyConcat(a[1..], b);
    }
  }

  /** The tokens around a space are the tokens before it and those after it, so one more space changes nothing. */
  lemma ExtraSpace(a: bytes, b: bytes)
    ensures Fields(a + " " + b) == Fields(a) + Fields(b)
    ensures Fields(a + " " + (" " + b)) == Fields(a + " " + b)
  {
    SplitAtSpace(a, b);
    NonEmptyConcat(Split(a), Split(b));
    SplitAtSpace(a, " " + b);
    NonEmptyConcat(Split(a), Split(" " + b));
    FieldsSkipSpace(" " + b);
    assert (" " + b)[1..] == b;
  }

  /** Tokens joined by single spaces, each preceded by one. */
  function Spaced(tokens: seq<bytes>): bytes {
    if tokens == [] then [] else " " + tokens[0] + Spaced(tokens[1..])
  }

  lemma {:induction false} FieldsOfSpaced(tokens: seq<bytes>)
    requires forall t :: t in tokens ==> IsToken(t)
    ensures Fields(Spaced(tokens)) == tokens
  {
    if tokens == [] {
      assert Split([]) == [[]];
    } else {
      var rest := Spaced(tokens[1..]);
      FieldsSkipSpace(Spaced(tokens));
      assert Spaced(tokens)[1..] == tokens[0] + rest;
      FieldsOfToken(tokens[0], rest);
      FieldsOfSpaced(tokens[1..]);
    }
  }

  /** `tok` is cut out of `s` after leading spaces only, and `rest` is what follows it. */
  ghost predicate CutFrom(s: bytes, tok: bytes, rest: bytes) {
    exists i | 0 <= i <= |s| ::
      s[i..] == tok + rest && forall j :: 0 <= j < i ==> s[j] == ' '
  }

  ghost predicate SpacesThen(s: bytes, rest: bytes) {
    CutFrom(s, [], rest)
  }

  lemma SpacesThenStep(s: bytes, rest: bytes)
    requires SpacesThen(s, rest) && rest != [] && rest[0] == ' '
    ensures SpacesThen(s, rest[1..])
  {
    var i :| 0 <= i <= |s| && s[i..] == [] + rest && forall j :: 0 <= j < i ==> s[j] == ' ';
    assert s[i..] == rest;
    assert s[i] == rest[0];
    assert s[i + 1..] == [] + rest[1..];
  }

  lemma {:induction false} SpacesThenFields(s: bytes, rest: bytes)
    requires SpacesThen(s, rest)
    ensures Fields(s) == Fields(rest)
    ensures rest == [] ==> Fields(s) == []
  {
    var i :| 0 <= i <= |s| && s[i..] == [] + rest && forall j :: 0 <= j < i ==> s[j] == ' ';
    assert s[i..] == rest;
    if i > 0 {
      FieldsSkipSpace(s);
      assert s[1..][i - 1..] == [] + rest;
      SpacesThenFields(s[1..], rest);
    } else {
      assert Split([]) == [[]];
    }
  }

  lemma CutAtSpace(s: bytes, rest: bytes)
    requires SpacesThen(s, rest) && rest != [] && rest[0] != ' '
    ensures var p := Find(rest, ' ');
            && IsToken(rest[..p]) && CutFrom(s, rest[..p], rest[p..])
            && Fields(rest) == [rest[..p]] + Fields(rest[p..])
  {
    var p := Find(rest, ' ');
    FieldsHead(rest);
    assert rest[..p] + rest[p..] == [] + rest;
  }

  class Tokenizer {
    const line: bytes
    var rest: bytes

    constructor (line: bytes)
      ensures this.line == line && rest == line
    {
      this.line := line;
      rest := line;
    }

    ghost function Remaining(): seq<bytes>
      reads this
    {
      Fields(rest)
    }

    method Next() returns (tok: Option<bytes>)
      modifies this`rest
      ensures tok == None ==> old(Remaining()) == [] && rest == []
      ensures tok.Some? ==> old(Remaining()) == [tok.value] + Remaining()
      ensures tok.Some? ==> IsToken(tok.value) && |rest| < |old(rest)|
      ensures tok.Some? ==> CutFrom(old(rest), tok.value, rest)
    {
      ghost var s := rest;
      assert s[0..] == [] + rest;
      while rest != [] && rest[0] == ' '
        invariant SpacesThen(s, rest)
        decreases |rest|
      {
        SpacesThenStep(s, rest);
        rest := rest[1..];
      }
      SpacesThenFields(s, rest);
      if rest == [] {
        return None;
      }
      var pos := Find(rest, ' ');
      var token := rest[..pos];
      CutAtSpace(s, rest);
      rest := rest[pos..];
      return Some(token);
    }
  }
}
