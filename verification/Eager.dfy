// The store removes expired items only when it comes across them. The reference here removes
// them all before every command, and again before every key of a command, and never looks at
// expiry otherwise. The two answer alike, except in one case, which is pinned down exactly.
module Eager {
  import opened Bytes
  import opened Commands
  import opened Items
  import opened Stores

  datatype Ideal = Ideal(items: map<bytes, Item>, nextCas: nat, oldestLive: nat) {
    function Cutoff(): Option<nat> {
      if oldestLive == 0 then None else Some(oldestLive)
    }

    function Purged(now: nat): Ideal {
      this.(items := map k | k in items && !items[k].IsExpired(now, Cutoff()) :: items[k])
    }
  }

  /** What an operation does to a key of a plain map that forgets expired items by itself. */
  function Plain(op: KeyOp, slot: Option<Item>, now: nat, token: nat): (Option<Item>, KeyReply) {
    match slot
    case None =>
      (match op
       case Fetch => (None, Miss)
       case FetchTouch(_) => (None, Miss)
       case Put(sop, a) =>
         if sop == Set || sop == Add then (Some(NewItem(a, token, now)), Says(Stored))
         else if sop == Cas then
           (None, Says(if a.cas == None then MISSING_CAS else NotFound))
         else (None, Says(NotStored))
       case _ => (None, Says(NotFound)))
    case Some(item) =>
      (match op
       case Fetch => (slot, Hit(item.flags, item.data, item.cas))
       case FetchTouch(exptime) =>
         (Some(item.(expiresAt := ResolveExpiry(exptime, now), cas := token)), Hit(item.flags, item.data, token))
       case Put(sop, a) =>
         if sop == Add then (slot, Says(NotStored))
         else if sop == Append || sop == Prepend then
           (Some(item.(data := Joined(sop, item.data, a.data), cas := token)), Says(Stored))
         else if sop == Cas && a.cas == None then (slot, Says(MISSING_CAS))
         else if sop == Cas && a.cas.value != item.cas then (slot, Says(Exists))
         else (Some(NewItem(a, token, now)), Says(Stored))
       case Erase => (None, Says(Deleted))
       case Adjust(aop, delta) =>
         (match ParseNumber(item.data)
          case None => (slot, Says(NonNumeric(aop)))
          case Some(v) =>
            (Some(item.(data := Decimal(Adjusted(aop, v, delta)), cas := token)),
                Says(Number(Adjusted(aop, v, delta)))))
       case Retouch(exptime) =>
         (Some(item.(expiresAt := ResolveExpiry(exptime, now), cas := token)), Says(Touched)))
  }

  function IdealOnKey(d: Ideal, key: bytes, op: KeyOp, now: nat): (Ideal, KeyReply) {
    var p := d.Purged(now);
    var (slot, reply) := Plain(op, Slot(p.items, key), now, p.nextCas);
    var taken := if op.Fetch? || op.Erase? || (op.FetchTouch? && reply == Miss) then 0 else 1;
    (p.(items := WithSlot(p.items, key, slot), nextCas := p.nextCas + taken), reply)
  }

  function IdealRetrieve(d: Ideal, keys: seq<bytes>, op: KeyOp, withCas: bool, now: nat): (Ideal, seq<Value>)
    decreases |keys|
  {
    if keys == [] then (d, [])
    else
      var (d1, values) := IdealRetrieve(d, keys[..|keys| - 1], op, withCas, now);
      var (d2, reply) := IdealOnKey(d1, keys[|keys| - 1], op, now);
      (d2, values + ValuesOf(keys[|keys| - 1], reply, withCas))
  }

  /** The key operation a command with one key stands for. */
  function SingleOp(c: Command): Option<(bytes, KeyOp)> {
    match c
    case Store(op, a) => Some((a.key, Put(op, a)))
    case Delete(key, _) => Some((key, Erase))
    case Arithmetic(op, key, delta, _) => Some((key, Adjust(op, delta)))
    case Touch(key, exptime, _) => Some((key, Retouch(exptime)))
    case _ => None
  }

  function IdealEffect(d: Ideal, c: Command, now: nat): (Ideal, Response) {
    if SingleOp(c).Some? then
      var (d1, reply) := IdealOnKey(d, SingleOp(c).value.0, SingleOp(c).value.1, now);
      (d1, Said(reply))
    else if c.Get? || c.GetAndTouch? then
      var (d1, values) := IdealRetrieve(d, c.keys, if c.Get? then Fetch else FetchTouch(c.exptime), c.withCas, now);
      (d1, Values(values))
    else if c.FlushAll? then
      if c.delay == None || c.delay == Some(0) then (d.(items := map[]), Okay)
      else (d.Purged(now).(oldestLive := now + c.delay.value), Okay)
    else (d, if c.Version? then VersionIs(VERSION) else if c.Verbosity? then Okay else StatsReport([]))
  }

  // ---- The refinement relation ----

  function Live(slot: Option<Item>, now: nat, cutoff: Option<nat>): Option<Item> {
    if slot.Some? && slot.value.IsExpired(now, cutoff) then None else slot
  }

  /** At this moment the store and the reference show the same items. */
  ghost predicate Matches(m: Model, d: Ideal, now: nat) {
    && m.nextCas == d.nextCas && m.oldestLive == d.oldestLive
    && forall k :: Live(Slot(m.items, k), now, m.Cutoff()) == Live(Slot(d.items, k), now, m.Cutoff())
  }

  lemma PurgedSlot(d: Ideal, now: nat, k: bytes)
    ensures Slot(d.Purged(now).items, k) == Live(Slot(d.items, k), now, d.Cutoff())
  {
  }

  /** The lazy entry action and the plain map agree on what can be seen. */
  lemma ActIsPlain(op: KeyOp, slot: Option<Item>, now: nat, cutoff: Option<nat>, token: nat)
    ensures Act(op, slot, now, cutoff, token).1 == Plain(op, Live(slot, now, cutoff), now, token).1
    ensures Live(Act(op, slot, now, cutoff, token).0, now, cutoff)
         == Live(Plain(op, Live(slot, now, cutoff), now, token).0, now, cutoff)
  {
    hide ParseNumber, Decimal, ResolveExpiry, NonNumeric;
  }

  lemma OnKeyMatches(m: Model, d: Ideal, key: bytes, op: KeyOp, now: nat)
    requires Matches(m, d, now)
    ensures OnKey(m, key, op, now).1 == IdealOnKey(d, key, op, now).1
    ensures Matches(OnKey(m, key, op, now).0, IdealOnKey(d, key, op, now).0, now)
  {
    hide Act, Plain;
    ActIsPlain(op, Slot(m.items, key), now, m.Cutoff(), m.nextCas);
    forall k ensures Slot(d.Purged(now).items, k) == Live(Slot(d.items, k), now, m.Cutoff()) {
      PurgedSlot(d, now, k);
    }
  }

  lemma {:induction false} RetrieveMatches(m: Model, d: Ideal, keys: seq<bytes>, op: KeyOp, withCas: bool, now: nat)
    requires Matches(m, d, now)
    ensures Retrieve(m, keys, op, withCas, now).1 == IdealRetrieve(d, keys, op, withCas, now).1
    ensures Matches(Retrieve(m, keys, op, withCas, now).0, IdealRetrieve(d, keys, op, withCas, now).0, now)
    decreases |keys|
  {
    hide OnKey, IdealOnKey, Matches;
    if keys != [] {
      var init := keys[..|keys| - 1];
      RetrieveMatches(m, d, init, op, withCas, now);
      OnKeyMatches(Retrieve(m, init, op, withCas, now).0, IdealRetrieve(d, init, op, withCas, now).0,
                   keys[|keys| - 1], op, now);
    }
  }

  /** Once expired, an item stays so while the cutoff stands. */
  lemma TimePasses(m: Model, d: Ideal, now: nat, later: nat)
    requires Matches(m, d, now) && now <= later
    ensures Matches(m, d, later)
  {
    forall k ensures Live(Slot(m.items, k), later, m.Cutoff()) == Live(Slot(d.items, k), later, m.Cutoff()) {
      assert Live(Slot(m.items, k), now, m.Cutoff()) == Live(Slot(d.items, k), now, m.Cutoff());
    }
  }

  // ---- Delayed flushes ----

  /** Some item is hidden only by a cutoff that has come due: replacing the cutoff now brings it back. */
  ghost predicate Resurrects(m: Model, now: nat) {
    exists k :: k in m.items && m.items[k].CutOff(now, m.Cutoff()) && !m.items[k].TimedOut(now)
  }

  /** A delayed flush keeps the two in step exactly when it resurrects nothing. */
  lemma DelayedFlushExact(m: Model, d: Ideal, now: nat, n: nat)
    requires Matches(m, d, now) && n > 0
    ensures Matches(m.(oldestLive := now + n), d.Purged(now).(oldestLive := now + n), now) <==> !Resurrects(m, now)
  {
    var m', d' := m.(oldestLive := now + n), d.Purged(now).(oldestLive := now + n);
    forall k ensures Live(Slot(m'.items, k), now, m'.Cutoff()) == Live(Slot(d'.items, k), now, m'.Cutoff())
                <==> !(k in m.items && m.items[k].CutOff(now, m.Cutoff()) && !m.items[k].TimedOut(now)) {
      PurgedSlot(d, now, k);
      assert Live(Slot(m.items, k), now, m.Cutoff()) == Live(Slot(d.items, k), now, m.Cutoff());
    }
  }

  /** And when it does resurrect an item, the next retrieval of that key shows it. */
  lemma ResurrectionShows(m: Model, d: Ideal, now: nat, n: u32)
    requires Matches(m, d, now) && n > 0
    ensures var flush := FlushAll(Some(n), false);
            var m', d' := Effect(m, flush, now).0, IdealEffect(d, flush, now).0;
            Resurrects(m, now) <==>
              exists key :: Effect(m', Get([key], false), now).1 != IdealEffect(d', Get([key], false), now).1
  {
    var flush := FlushAll(Some(n), false);
    var m', d' := Effect(m, flush, now).0, IdealEffect(d, flush, now).0;
    if Resurrects(m, now) {
      var k :| k in m.items && m.items[k].CutOff(now, m.Cutoff()) && !m.items[k].TimedOut(now);
      assert Live(Slot(m.items, k), now, m.Cutoff()) == Live(Slot(d.items, k), now, m.Cutoff());
      PurgedSlot(d, now, k);
      PurgedSlot(d', now, k);
      GetOne(m', d', k, now);
    } else {
      DelayedFlushExact(m, d, now, n);
      forall key ensures Effect(m', Get([key], false), now).1 == IdealEffect(d', Get([key], false), now).1 {
        RetrieveMatches(m', d', [key], Fetch, false, now);
      }
    }
  }

  lemma GetOne(m: Model, d: Ideal, k: bytes, now: nat)
    ensures Retrieve(m, [k], Fetch, false, now).1 == ValuesOf(k, OnKey(m, k, Fetch, now).1, false)
    ensures IdealRetrieve(d, [k], Fetch, false, now).1 == ValuesOf(k, IdealOnKey(d, k, Fetch, now).1, false)
  {
    hide OnKey, IdealOnKey;
    assert [k][..0] == [];
  }

  // ---- Whole runs ----

  datatype Request = Request(now: nat, command: Command)

  function ApplyAll(m: Model, rs: seq<Request>): (r: (Model, seq<Response>))
    ensures |r.1| == |rs|
    decreases |rs|
  {
    if rs == [] then (m, [])
    else
      var (m1, r) := Apply(m, rs[0].command, rs[0].now);
      var (m2, more) := ApplyAll(m1, rs[1..]);
      (m2, [r] + more)
  }

  function IdealAll(d: Ideal, rs: seq<Request>): (r: seq<Response>)
    ensures |r| == |rs|
    decreases |rs|
  {
    if rs == [] then []
    else
      var (d1, r) := IdealEffect(d, rs[0].command, rs[0].now);
      [r] + IdealAll(d1, rs[1..])
  }

  /** Equal, except that reports of statistics are not compared. */
  predicate SameAnswer(a: Response, b: Response) {
    a == b || (a.StatsReport? && b.StatsReport?)
  }

  predicate SameAnswers(a: seq<Response>, b: seq<Response>) {
    |a| == |b| && forall i :: 0 <= i < |a| ==> SameAnswer(a[i], b[i])
  }

  predicate Monotone(rs: seq<Request>, now: nat) {
    rs != [] ==> now <= rs[0].now && Monotone(rs[1..], rs[0].now)
  }

  predicate Delays(c: Command) {
    c.FlushAll? && c.delay.Some? && c.delay.value > 0
  }

  /** No delayed flush of the run resurrects an item. */
  ghost predicate Safe(m: Model, rs: seq<Request>)
    decreases |rs|
  {
    rs != [] ==>
      && (Delays(rs[0].command) ==> !Resurrects(m, rs[0].now))
      && Safe(Apply(m, rs[0].command, rs[0].now).0, rs[1..])
  }

  lemma EffectMatches(m: Model, d: Ideal, c: Command, now: nat)
    requires Matches(m, d, now) && (Delays(c) ==> !Resurrects(m, now))
    ensures SameAnswer(Effect(m, c, now).1, IdealEffect(d, c, now).1)
    ensures Matches(Effect(m, c, now).0, IdealEffect(d, c, now).0, now)
  {
    hide OnKey, IdealOnKey, Resurrects, Retrieve, IdealRetrieve, Report;
    if SingleOp(c).Some? {
      OnKeyMatches(m, d, SingleOp(c).value.0, SingleOp(c).value.1, now);
    } else if c.Get? || c.GetAndTouch? {
      RetrieveMatches(m, d, c.keys, if c.Get? then Fetch else FetchTouch(c.exptime), c.withCas, now);
    } else if Delays(c) {
      DelayedFlushExact(m, d, now, c.delay.value);
    }
  }

  /** Under a clock that never goes back, every run that resurrects nothing is answered as by the reference. */
  lemma {:induction false} LazyRefinesEager(m: Model, d: Ideal, rs: seq<Request>, now: nat)
    requires Matches(m, d, now) && Monotone(rs, now) && Safe(m, rs)
    ensures SameAnswers(ApplyAll(m, rs).1, IdealAll(d, rs))
    decreases |rs|
  {
    hide Effect, IdealEffect, Matches, Resurrects, Tally;
    if rs != [] {
      var c, t := rs[0].command, rs[0].now;
      TimePasses(m, d, now, t);
      EffectMatches(m, d, c, t);
      var m1, d1 := Apply(m, c, t).0, IdealEffect(d, c, t).0;
      StatsDoNotMatter(Effect(m, c, t).0, m1, d1, t);
      LazyRefinesEager(m1, d1, rs[1..], t);
    }
  }

  lemma StatsDoNotMatter(m: Model, m1: Model, d: Ideal, now: nat)
    requires Matches(m, d, now) && m1 == m.(stats := m1.stats)
    ensures Matches(m1, d, now)
  {
  }

  /** No delayed flush is issued after an earlier cutoff has come due. */
  predicate NoLateFlush(oldestLive: nat, rs: seq<Request>)
    decreases |rs|
  {
    rs != [] ==>
      if Delays(rs[0].command) then
        (oldestLive == 0 || rs[0].now < oldestLive) && NoLateFlush(rs[0].now + rs[0].command.delay.value, rs[1..])
      else NoLateFlush(oldestLive, rs[1..])
  }

  lemma {:induction false} RetrieveKeepsCutoff(m: Model, keys: seq<bytes>, op: KeyOp, withCas: bool, now: nat)
    ensures Retrieve(m, keys, op, withCas, now).0.oldestLive == m.oldestLive
    decreases |keys|
  {
    hide Act;
    if keys != [] {
      RetrieveKeepsCutoff(m, keys[..|keys| - 1], op, withCas, now);
    }
  }

  lemma CutoffAfter(m: Model, c: Command, now: nat)
    ensures Apply(m, c, now).0.oldestLive == if Delays(c) then now + c.delay.value else m.oldestLive
  {
    hide Act, Tally, Retrieve;
    if c.Get? || c.GetAndTouch? {
      RetrieveKeepsCutoff(m, c.keys, if c.Get? then Fetch else FetchTouch(c.exptime), c.withCas, now);
    }
  }

  lemma {:induction false} NoLateFlushIsSafe(m: Model, rs: seq<Request>)
    requires NoLateFlush(m.oldestLive, rs)
    ensures Safe(m, rs)
    decreases |rs|
  {
    hide Apply;
    if rs != [] {
      CutoffAfter(m, rs[0].command, rs[0].now);
      NoLateFlushIsSafe(Apply(m, rs[0].command, rs[0].now).0, rs[1..]);
    }
  }

  /** From an empty store: the answers are those of the reference when no flush comes late. */
  lemma LazyRefinesEagerFromStart(rs: seq<Request>, now: nat)
    requires Monotone(rs, now) && NoLateFlush(0, rs)
    ensures SameAnswers(ApplyAll(EMPTY, rs).1, IdealAll(Ideal(map[], 1, 0), rs))
  {
    NoLateFlushIsSafe(EMPTY, rs);
    LazyRefinesEager(EMPTY, Ideal(map[], 1, 0), rs, now);
  }

  // A run in which a delayed flush comes after an earlier cutoff has come due.
  const A: bytes := "a"
  const SET_A := Command.Store(Set, StoreArgs(A, 0, 0, "x", false, None))
  const LATE_RUN := [
    Request(100, SET_A), Request(100, FlushAll(Some(10), false)),
    Request(120, FlushAll(Some(50), false)), Request(121, Get([A], false))]

  lemma StepOff(m: Model, d: Ideal, rs: seq<Request>, i: nat)
    requires 0 < i < |rs|
    ensures ApplyAll(m, rs).1[i] == ApplyAll(Apply(m, rs[0].command, rs[0].now).0, rs[1..]).1[i - 1]
    ensures IdealAll(d, rs)[i] == IdealAll(IdealEffect(d, rs[0].command, rs[0].now).0, rs[1..])[i - 1]
  {
    hide Apply, IdealEffect;
  }

  lemma StoreAfterThree(m: Model)
    requires m == EMPTY
    ensures var m1 := Apply(m, SET_A, 100).0;
            var m2 := Apply(m1, FlushAll(Some(10), false), 100).0;
            var m3 := Apply(m2, FlushAll(Some(50), false), 120).0;
            Slot(m3.items, A) == Some(Item("x", 0, None, 1, 100)) && m3.oldestLive == 170
  {
    hide Tally;
  }

  lemma IdealAfterThree(d: Ideal)
    requires d == Ideal(map[], 1, 0)
    ensures var d1 := IdealEffect(d, SET_A, 100).0;
            var d2 := IdealEffect(d1, FlushAll(Some(10), false), 100).0;
            var d3 := IdealEffect(d2, FlushAll(Some(50), false), 120).0;
            A !in d3.items
  {
  }

  /** The item flushed at 110 is back at 121, although the reference no longer has it. */
  lemma LateFlushResurrects()
    ensures ApplyAll(EMPTY, LATE_RUN).1[3] == Values([Value(A, 0, "x", None)])
    ensures IdealAll(Ideal(map[], 1, 0), LATE_RUN)[3] == Values([])
  {
    hide ApplyAll, IdealAll, Apply, IdealEffect;
    var m1 := Apply(EMPTY, SET_A, 100).0;
    var m2 := Apply(m1, FlushAll(Some(10), false), 100).0;
    var m3 := Apply(m2, FlushAll(Some(50), false), 120).0;
    var d1 := IdealEffect(Ideal(map[], 1, 0), SET_A, 100).0;
    var d2 := IdealEffect(d1, FlushAll(Some(10), false), 100).0;
    var d3 := IdealEffect(d2, FlushAll(Some(50), false), 120).0;
    StepOff(EMPTY, Ideal(map[], 1, 0), LATE_RUN, 3);
    StepOff(m1, d1, LATE_RUN[1..], 2);
    StepOff(m2, d2, LATE_RUN[1..][1..], 1);
    assert LATE_RUN[1..][1..][1..] == [Request(121, Get([A], false))];
    StoreAfterThree(EMPTY);
    IdealAfterThree(Ideal(map[], 1, 0));
    LastGet(m3, d3);
  }

  lemma LastGet(m: Model, d: Ideal)
    requires Slot(m.items, A) == Some(Item("x", 0, None, 1, 100)) && m.oldestLive == 170 && A !in d.items
    ensures ApplyAll(m, [Request(121, Get([A], false))]).1[0] == Values([Value(A, 0, "x", None)])
    ensures IdealAll(d, [Request(121, Get([A], false))])[0] == Values([])
  {
    hide Tally;
    GetOne(m, d, A, 121);
  }
}
