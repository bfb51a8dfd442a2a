// Stored items and what one operation does to one key (src/store.rs).
module Items {
  import opened Bytes
  import opened Commands

  const THIRTY_DAYS_SECS := 60 * 60 * 24 * 30

  /** When an item expires: never, at once, in `exptime` seconds, or at the given time. */
  function ResolveExpiry(exptime: i64, now: nat): Option<nat> {
    if exptime == 0 then None
    else if exptime < 0 then Some(0)
    else if exptime <= THIRTY_DAYS_SECS then Some(now + exptime)
    else Some(exptime)
  }

  datatype Item = Item(data: bytes, flags: u32, expiresAt: Option<nat>, cas: nat, storedAt: nat) {
    /** Past its own expiry. */
    predicate TimedOut(now: nat) {
      expiresAt.Some? && now >= expiresAt.value
    }

    /** Stored before a cutoff that has come due. */
    predicate CutOff(now: nat, oldestLive: Option<nat>) {
      oldestLive.Some? && now >= oldestLive.value && storedAt < oldestLive.value
    }

    predicate IsExpired(now: nat, oldestLive: Option<nat>) {
      TimedOut(now) || CutOff(now, oldestLive)
    }
  }

  function NewItem(a: StoreArgs, cas: nat, now: nat): Item {
    Item(a.data, a.flags, ResolveExpiry(a.exptime, now), cas, now)
  }

  // ---- Numbers held as data ----

  predicate AsciiSpace(b: byte) {
    b == ' ' || '\t' <= b <= '\r'
  }

  /** The length of the UTF-8 white space character `s` starts with, or zero. */
  function SpaceAtStart(s: bytes): (n: nat)
    ensures n <= |s|
  {
    if |s| >= 1 && AsciiSpace(s[0]) then 1
    else if |s| >= 2 && WideSpace(s[..2]) then 2
    else if |s| >= 3 && WideSpace(s[..3]) then 3
    else 0
  }

  function SpaceAtEnd(s: bytes): (n: nat)
    ensures n <= |s|
  {
    if |s| >= 1 && AsciiSpace(s[|s| - 1]) then 1
    else if |s| >= 2 && WideSpace(s[|s| - 2..]) then 2
    else if |s| >= 3 && WideSpace(s[|s| - 3..]) then 3
    else 0
  }

  /** The UTF-8 encodings of the white space characters beyond ASCII. */
  predicate WideSpace(w: bytes) {
    if |w| == 2 then w[0] == '\U{C2}' && (w[1] == '\U{85}' || w[1] == '\U{A0}')
    else if |w| == 3 then
      || w == "\U{E1}\U{9A}\U{80}"
      || (w[0] == '\U{E2}' && w[1] == '\U{80}'
          && ('\U{80}' <= w[2] <= '\U{8A}' || '\U{A8}' <= w[2] <= '\U{A9}' || w[2] == '\U{AF}'))
      || w == "\U{E2}\U{81}\U{9F}"
      || w == "\U{E3}\U{80}\U{80}"
    else false
  }

  function TrimStart(s: bytes): (t: bytes)
    ensures |t| <= |s|
    decreases |s|
  {
    if SpaceAtStart(s) == 0 then s else TrimStart(s[SpaceAtStart(s)..])
  }

  function TrimTail(s: bytes): (t: bytes)
    ensures |t| <= |s|
    decreases |s|
  {
    if SpaceAtEnd(s) == 0 then s else TrimTail(s[..|s| - SpaceAtEnd(s)])
  }

  /**
   * The number data stands for: white space, an optional plus sign, digits, white space.
   * Data that is not UTF-8 never has this form, so it is refused like any other text.
   */
  function ParseNumber(data: bytes): (r: Option<u64>) {
    var t := TrimTail(TrimStart(data));
    var digits := if t != [] && t[0] == '+' then t[1..] else t;
    if digits == [] || !AllDigits(digits) || Numeral(digits) > U64_MAX then None
    else Some(Numeral(digits))
  }

  /** The decimal form of a number is read back as that number. */
  lemma NumberRoundTrip(n: u64)
    ensures ParseNumber(Decimal(n)) == Some(n)
  {
    hide Decimal, WideSpace, SpaceAtStart, SpaceAtEnd, Numeral;
    var d := Decimal(n);
    DecimalDenotes(n);
    DigitsHaveNoSpace(d);
    assert IsDigit(d[0]);
  }

  lemma DigitsHaveNoSpace(d: bytes)
    requires d != [] && AllDigits(d)
    ensures SpaceAtStart(d) == 0 && SpaceAtEnd(d) == 0
  {
    hide *;
    assert IsDigit(d[0]) && IsDigit(d[|d| - 1]) by {
      AllDigitsAt(d, 0);
      AllDigitsAt(d, |d| - 1);
    }
    NoSpaceAtStart(d);
    NoSpaceAtEnd(d);
  }

  lemma AllDigitsAt(d: bytes, i: nat)
    requires AllDigits(d) && i < |d|
    ensures IsDigit(d[i])
  {
  }

  lemma NoSpaceAtStart(d: bytes)
    requires d != [] && IsDigit(d[0])
    ensures SpaceAtStart(d) == 0
  {
    hide WideSpace;
    if |d| >= 2 {
      NotWide(d[..2]);
    }
    if |d| >= 3 {
      NotWide(d[..3]);
    }
  }

  lemma NoSpaceAtEnd(d: bytes)
    requires d != [] && AllDigits(d)
    ensures SpaceAtEnd(d) == 0
  {
    hide WideSpace;
    assert IsDigit(d[|d| - 1]);
    if |d| >= 2 {
      NotWide(d[|d| - 2..]);
    }
    if |d| >= 3 {
      NotWide(d[|d| - 3..]);
    }
  }

  lemma NotWide(w: bytes)
    requires w != [] && IsDigit(w[0])
    ensures !WideSpace(w)
  {
  }

  /** Addition wraps around at 2^64, subtraction stops at zero. */
  function Adjusted(op: ArithmeticOp, value: u64, delta: u64): u64 {
    match op
    case Incr => (value + delta) % TWO_64
    case Decr => if value >= delta then value - delta else 0
  }

  // ---- One operation on one key ----

  datatype KeyOp =
    | Fetch
    | FetchTouch(exptime: i64)
    | Put(op: StoreOp, args: StoreArgs)
    | Erase
    | Adjust(arith: ArithmeticOp, delta: u64)
    | Retouch(exptime: i64)

  datatype KeyReply = Hit(flags: u32, data: bytes, cas: nat) | Miss | Says(response: Response)

  const MISSING_CAS := ServerError("missing cas value")

  function NonNumeric(op: ArithmeticOp): Response {
    match op
    case Incr => ClientError("cannot increment non-numeric value")
    case Decr => ClientError("cannot decrement non-numeric value")
  }

  function Joined(op: StoreOp, held: bytes, given: bytes): bytes {
    if op == Append then held + given else given + held
  }

  /**
   * The entry action of each operation on what a key holds, with the clock reading, the cutoff and
   * the token the caller took beforehand. An expired item found on the way is removed.
   */
  function Act(op: KeyOp, slot: Option<Item>, now: nat, cutoff: Option<nat>, token: nat): (Option<Item>, KeyReply) {
    var live := slot.Some? && !slot.value.IsExpired(now, cutoff);
    match op
    case Fetch =>
      if live then (slot, Hit(slot.value.flags, slot.value.data, slot.value.cas)) else (None, Miss)
    case FetchTouch(exptime) =>
      if live then
        (Some(slot.value.(expiresAt := ResolveExpiry(exptime, now), cas := token)),
         Hit(slot.value.flags, slot.value.data, token))
      else (None, Miss)
    case Put(sop, a) =>
      (match sop
       case Set => (Some(NewItem(a, token, now)), Says(Stored))
       case Add => if live then (slot, Says(NotStored)) else (Some(NewItem(a, token, now)), Says(Stored))
       case Replace => if live then (Some(NewItem(a, token, now)), Says(Stored)) else (None, Says(NotStored))
       case Cas =>
         if a.cas == None then (slot, Says(MISSING_CAS))
         else if !live then (None, Says(NotFound))
         else if slot.value.cas != a.cas.value then (slot, Says(Exists))
         else (Some(NewItem(a, token, now)), Says(Stored))
       case _ =>
         if live then (Some(slot.value.(data := Joined(sop, slot.value.data, a.data), cas := token)), Says(Stored))
         else (None, Says(NotStored)))
    case Erase => (None, Says(if live then Deleted else NotFound))
    case Adjust(aop, delta) =>
      if !live then (None, Says(NotFound))
      else if ParseNumber(slot.value.data) == None then (slot, Says(NonNumeric(aop)))
      else
        var n := Adjusted(aop, ParseNumber(slot.value.data).value, delta);
        (Some(slot.value.(data := Decimal(n), cas := token)), Says(Number(n)))
    case Retouch(exptime) =>
      if live then (Some(slot.value.(expiresAt := ResolveExpiry(exptime, now), cas := token)), Says(Touched))
      else (None, Says(NotFound))
  }

  /** When a fresh item is gone: never for 0, at once below 0, up to thirty days after `now`, beyond that at a date. */
  lemma ExpiryMeaning(a: StoreArgs, token: nat, now: nat, later: nat)
    ensures NewItem(a, token, now).TimedOut(later) <==>
              || a.exptime < 0
              || (0 < a.exptime <= 2592000 && later - now >= a.exptime)
              || (a.exptime > 2592000 && later >= a.exptime)
  {
  }

  // ---- Appending and prepending over runs ----

  // A piece joined to an item, in front or behind.
  datatype Piece = Piece(op: StoreOp, data: bytes) {
    function Tail(): bytes {
      if op == Append then data else []
    }

    function Lead(): bytes {
      if op == Append then [] else data
    }
  }

  /** The appended data, in order. */
  function Behind(pieces: seq<Piece>): bytes {
    if pieces == [] then []
    else pieces[0].Tail() + Behind(pieces[1..])
  }

  /** The prepended data, last one first. */
  function InFront(pieces: seq<Piece>): bytes {
    if pieces == [] then []
    else InFront(pieces[1..]) + pieces[0].Lead()
  }

  lemma {:induction false} PieceAtEnd(pieces: seq<Piece>, p: Piece)
    ensures Behind(pieces + [p]) == Behind(pieces) + p.Tail()
    ensures InFront(pieces + [p]) == p.Lead() + InFront(pieces)
  {
    hide Piece.Tail, Piece.Lead;
    if pieces == [] {
      assert pieces + [p] == [p] && [p][1..] == [];
      assert p.Tail() + [] == [] + p.Tail() && p.Lead() + [] == [] + p.Lead();
    } else {
      assert (pieces + [p])[1..] == pieces[1..] + [p];
      PieceAtEnd(pieces[1..], p);
      var first := pieces[0];
      assert first.Tail() + (Behind(pieces[1..]) + p.Tail()) == first.Tail() + Behind(pieces[1..]) + p.Tail();
      assert p.Lead() + InFront(pieces[1..]) + first.Lead() == p.Lead() + (InFront(pieces[1..]) + first.Lead());
    }
  }

  lemma JoinedAround(p: Piece, front: bytes, base: bytes, behind: bytes)
    ensures Joined(p.op, front + base + behind, p.data) == (p.Lead() + front) + base + (behind + p.Tail())
  {
    if p.op == Append {
      assert front + base + behind + p.data == [] + front + base + (behind + p.data);
    } else {
      assert p.data + (front + base + behind) == (p.data + front) + base + (behind + []);
    }
  }

  // ---- Arithmetic over runs ----

  datatype Change = Change(op: ArithmeticOp, delta: u64)

  function Computed(value: u64, changes: seq<Change>): u64 {
    if changes == [] then value
    else
      var last := changes[|changes| - 1];
      Adjusted(last.op, Computed(value, changes[..|changes| - 1]), last.delta)
  }

  function Sum(changes: seq<Change>): nat {
    if changes == [] then 0 else Sum(changes[..|changes| - 1]) + changes[|changes| - 1].delta
  }

  predicate AllOf(changes: seq<Change>, op: ArithmeticOp) {
    forall c :: c in changes ==> c.op == op
  }

  /** Increments compose to one addition modulo 2^64, decrements to one saturating subtraction. */
  lemma {:induction false} ArithmeticComposes(op: ArithmeticOp, value: u64, changes: seq<Change>)
    requires AllOf(changes, op)
    ensures Computed(value, changes) ==
            match op
            case Incr => (value + Sum(changes)) % TWO_64
            case Decr => if value >= Sum(changes) then value - Sum(changes) else 0
  {
    if changes != [] {
      var n := |changes| - 1;
      ArithmeticComposes(op, value, changes[..n]);
      WrapOnce(value + Sum(changes[..n]), changes[n].delta);
    }
  }

  lemma WrapOnce(a: nat, b: nat)
    ensures (a % TWO_64 + b) % TWO_64 == (a + b) % TWO_64
  {
    var q, r := a / TWO_64, a % TWO_64;
    assert a + b == (r + b) + q * TWO_64;
  }
}
