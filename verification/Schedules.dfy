// The store of one caller is among the runs of the concurrent one: each command, with the calls of
// everybody else standing still, is one particular interleaving. So what holds in every run holds
// of the store in Stores too.
module Schedules {
  import opened Bytes
  import opened Commands
  import opened Items
  import opened Stores
  import opened Histories
  import opened Interleavings
  import opened Eager

  /** The cache holds the items of the sequential store, nothing is reserved, and the counters agree. */
  ghost predicate Mirrors(w: World, m: Model) {
    && w.nextCas == m.nextCas && w.oldestLive == m.oldestLive
    && forall k :: !w.Blocked(k) && w.Held(k) == Slot(m.items, k)
  }

  // ---- Runs put together ----

  ghost predicate Reaches(w: World, w1: World) {
    exists ls :: Exec(w, ls) == w1
  }

  lemma ReachesSelf(w: World)
    ensures Reaches(w, w)
  {
    assert Exec(w, []) == w;
  }

  lemma ReachesNext(w: World, w1: World, l: Label)
    requires Reaches(w, w1)
    ensures Reaches(w, Step(w1, l))
  {
    hide Step;
    var ls :| Exec(w, ls) == w1;
    assert (ls + [l])[..|ls|] == ls;
    assert Exec(w, ls + [l]) == Step(w1, l);
  }

  lemma {:induction false} ReachesOn(w: World, w1: World, ls: seq<Label>)
    requires Reaches(w, w1)
    ensures Reaches(w, Exec(w1, ls))
  {
    hide Step, Reaches;
    if ls != [] {
      ReachesOn(w, w1, ls[..|ls| - 1]);
      ReachesNext(w, Exec(w1, ls[..|ls| - 1]), ls[|ls| - 1]);
    }
  }

  lemma ReachesBoth(w: World, w1: World, w2: World)
    requires Reaches(w, w1) && Reaches(w1, w2)
    ensures Reaches(w, w2)
  {
    hide Exec;
    var ls :| Exec(w1, ls) == w2;
    ReachesOn(w, w1, ls);
  }

  // ---- One operation on one key ----

  /** The call `id` is about to act on `k`, with all it needs read at the current state. */
  ghost predicate Poised(w: World, id: nat, op: KeyOp, todo: seq<bytes>, m: Model) {
    && todo != [] && (NeedsToken(op) ==> |todo| == 1) && id in w.calls && id < w.nextId
    && w.oldestLive == m.oldestLive && (forall k :: !w.Blocked(k) && w.Held(k) == Slot(m.items, k))
    && w.calls[id] == Call(op, todo, w.clock,
         if NeedsToken(op) then Armed(m.Cutoff(), m.nextCas) else Bounded(m.Cutoff()))
    && w.nextCas == m.nextCas + (if NeedsToken(op) then 1 else 0)
  }

  /** The event of the one caller's operation. */
  function Alone(id: nat, m: Model, key: bytes, op: KeyOp, now: nat): Event {
    var (after, reply) := Act(op, Slot(m.items, key), now, m.Cutoff(), m.nextCas);
    Did(id, key, op, now, now, m.Cutoff(), m.nextCas, Slot(m.items, key), after, reply)
  }

  /** What the operation leaves: the sequential store's state, its event, and the call moved on. */
  ghost predicate Moved(w: World, w1: World, id: nat, op: KeyOp, todo: seq<bytes>, m: Model)
    requires todo != [] && id in w.calls
  {
    && Mirrors(w1, OnKey(m, todo[0], op, w.clock).0)
    && w1.history == w.history + [Alone(id, m, todo[0], op, w.clock)]
    && w1.clock == w.clock && w1.nextId == w.nextId
    && w1.calls == if |todo| == 1 then w.calls - {id} else w.calls[id := w.calls[id].(todo := todo[1..])]
  }

  lemma ActAlone(w: World, id: nat, op: KeyOp, todo: seq<bytes>, m: Model)
    requires Poised(w, id, op, todo, m) && !(op.Put? && op.op == Add && Slot(m.items, todo[0]) == None)
    ensures MayEnter(w, id) && Moved(w, EnterStep(w, id, false), id, op, todo, m)
  {
    hide Act;
    var k := todo[0];
    HeldOrNot(w, k);
    assert MayEnter(w, id);
    var w1 := EnterStep(w, id, false);
    if op.FetchTouch? {
      TokenOnHit(op, Slot(m.items, k), w.clock, m.Cutoff(), m.nextCas);
    }
    forall j ensures !w1.Blocked(j) && w1.Held(j) == Slot(OnKey(m, k, op, w.clock).0.items, j) {
      assert !w.Blocked(j) && w.Held(j) == Slot(m.items, j);
    }
  }

  lemma TokenOnHit(op: KeyOp, slot: Option<Item>, now: nat, cutoff: Option<nat>, token: nat)
    requires op.FetchTouch?
    ensures var r := Act(op, slot, now, cutoff, token).1; r.Hit? || r == Miss
  {
  }

  lemma HeldOrNot(w: World, k: bytes)
    requires !w.Blocked(k)
    ensures k in w.cells <==> w.Held(k).Some?
  {
  }

  lemma AddAlone(w: World, id: nat, op: KeyOp, todo: seq<bytes>, m: Model)
    requires Poised(w, id, op, todo, m) && op.Put? && op.op == Add && Slot(m.items, todo[0]) == None
    ensures MayEnter(w, id) && MayInsert(EnterStep(w, id, false), id)
    ensures Moved(w, InsertStep(EnterStep(w, id, false), id), id, op, todo, m)
  {
    hide Act;
    var k := todo[0];
    HeldOrNot(w, k);
    var w1 := InsertStep(EnterStep(w, id, false), id);
    AddStores(op, w.clock, m.Cutoff(), m.nextCas);
    forall j ensures !w1.Blocked(j) && w1.Held(j) == Slot(OnKey(m, k, op, w.clock).0.items, j) {
      assert !w.Blocked(j) && w.Held(j) == Slot(m.items, j);
    }
    assert w1.calls == w.calls - {id};
  }

  lemma AddStores(op: KeyOp, now: nat, cutoff: Option<nat>, token: nat)
    requires op.Put? && op.op == Add
    ensures Act(op, None, now, cutoff, token).0.Some?
  {
  }

  lemma KeyAlone(w: World, id: nat, op: KeyOp, todo: seq<bytes>, m: Model) returns (w1: World)
    requires Poised(w, id, op, todo, m)
    ensures Reaches(w, w1) && Moved(w, w1, id, op, todo, m)
  {
    hide Reaches, EnterStep, InsertStep, Moved;
    ReachesSelf(w);
    w1 := Step(w, Enter(id, false));
    ReachesNext(w, w, Enter(id, false));
    if op.Put? && op.op == Add && Slot(m.items, todo[0]) == None {
      AddAlone(w, id, op, todo, m);
      ReachesNext(w, w1, InsertGuard(id));
      w1 := Step(w1, InsertGuard(id));
    } else {
      ActAlone(w, id, op, todo, m);
    }
  }

  /** A fresh call gets as far as its first action. */
  lemma Prepared(w: World, m: Model, op: KeyOp, keys: seq<bytes>) returns (w1: World)
    requires Mirrors(w, m) && keys != [] && (NeedsToken(op) ==> |keys| == 1)
    requires w.nextId !in w.calls
    ensures Reaches(w, w1) && Poised(w1, w.nextId, op, keys, m)
    ensures w1.history == w.history && w1.clock == w.clock && w1.nextId == w.nextId + 1
    ensures w1.calls - {w.nextId} == w.calls
  {
    hide Reaches, EnterStep, InsertStep;
    var id := w.nextId;
    ReachesSelf(w);
    ReachesNext(w, w, Begin(op, keys));
    w1 := Step(w, Begin(op, keys));
    ReachesNext(w, w1, LoadCutoff(id));
    w1 := Step(w1, LoadCutoff(id));
    if NeedsToken(op) {
      ReachesNext(w, w1, TakeToken(id));
      w1 := Step(w1, TakeToken(id));
    }
    assert forall k :: w1.Held(k) == w.Held(k) && w1.Blocked(k) == w.Blocked(k);
  }

  // ---- Commands ----

  /** The values the retrievals of a history show. */
  function Told(es: History, withCas: bool): seq<Value> {
    if es == [] then []
    else
      var e := es[|es| - 1];
      Told(es[..|es| - 1], withCas) + (if e.Did? then ValuesOf(e.key, e.reply, withCas) else [])
  }

  /** The response to a command, as the events it caused tell it. */
  ghost predicate Tells(es: History, c: Command, r: Response) {
    if SingleOp(c).Some? then |es| == 1 && es[0].Did? && es[0].key == SingleOp(c).value.0 && r == Said(es[0].reply)
    else c.Get? || c.GetAndTouch? ==> r == Values(Told(es, c.withCas))
  }

  /** Between two moments the one caller ran `c` and nobody else did anything. */
  ghost predicate RanAlone(w: World, w1: World, m: Model, c: Command) {
    var (m1, r) := Effect(m, c, w.clock);
    && Mirrors(w1, m1) && w1.calls == w.calls && w1.clock == w.clock && w.nextId <= w1.nextId
    && exists es :: w1.history == w.history + es && Tells(es, c, r)
  }

  lemma SingleAlone(w: World, m: Model, c: Command) returns (w1: World)
    requires Mirrors(w, m) && WellFormed(w) && SingleOp(c).Some?
    ensures Reaches(w, w1) && RanAlone(w, w1, m, c)
  {
    hide Reaches, OnKey, Mirrors, Act, Step;
    var (key, op) := SingleOp(c).value;
    var w2 := Prepared(w, m, op, [key]);
    w1 := KeyAlone(w2, w.nextId, op, [key], m);
    ReachesBoth(w, w2, w1);
    var e := Alone(w.nextId, m, key, op, w.clock);
    AloneReply(w.nextId, m, key, op, w.clock);
    assert w1.history == w.history + [e] && Tells([e], c, Effect(m, c, w.clock).1);
  }

  lemma AloneReply(id: nat, m: Model, key: bytes, op: KeyOp, now: nat)
    ensures Alone(id, m, key, op, now).reply == OnKey(m, key, op, now).1
  {
    hide Act;
  }

  /** The retrieval has done its first `i` keys. */
  ghost predicate Midst(w: World, w1: World, m: Model, op: KeyOp, keys: seq<bytes>, withCas: bool, i: nat)
    requires i <= |keys|
  {
    var (m1, vs) := Retrieve(m, keys[..i], op, withCas, w.clock);
    && Mirrors(w1, m1) && m1.oldestLive == m.oldestLive
    && w1.clock == w.clock && w1.nextId == w.nextId + 1
    && (exists es :: w1.history == w.history + es && Told(es, withCas) == vs)
    && w1.calls == if i == |keys| then w.calls
                   else w.calls[w.nextId := Call(op, keys[i..], w.clock, Bounded(m.Cutoff()))]
  }

  lemma {:induction false} RetrievedAlone(w: World, m: Model, op: KeyOp, keys: seq<bytes>, withCas: bool, i: nat)
    returns (w1: World)
    requires Mirrors(w, m) && WellFormed(w) && keys != [] && i <= |keys| && (op.Fetch? || op.FetchTouch?)
    ensures Reaches(w, w1) && Midst(w, w1, m, op, keys, withCas, i)
  {
    hide Reaches, OnKey, Act, Step;
    if i == 0 {
      w1 := Prepared(w, m, op, keys);
      assert w1.history == w.history + [] && Told([], withCas) == [];
      assert keys[0..] == keys && keys[..0] == [];
    } else {
      var w2 := RetrievedAlone(w, m, op, keys, withCas, i - 1);
      var (m2, vs) := Retrieve(m, keys[..i - 1], op, withCas, w.clock);
      w1 := KeyAlone(w2, w.nextId, op, keys[i - 1..], m2);
      ReachesBoth(w, w2, w1);
      KeyDone(w, w2, w1, m, op, keys, withCas, i);
    }
  }

  lemma KeyDone(w: World, w2: World, w1: World, m: Model, op: KeyOp, keys: seq<bytes>, withCas: bool, i: nat)
    requires 0 < i <= |keys| && WellFormed(w) && (op.Fetch? || op.FetchTouch?)
    requires Midst(w, w2, m, op, keys, withCas, i - 1)
    requires Moved(w2, w1, w.nextId, op, keys[i - 1..], Retrieve(m, keys[..i - 1], op, withCas, w.clock).0)
    ensures Midst(w, w1, m, op, keys, withCas, i)
  {
    hide OnKey, Act, Mirrors, Retrieve, Told, Alone;
    var (m2, vs) := Retrieve(m, keys[..i - 1], op, withCas, w.clock);
    var e := Alone(w.nextId, m2, keys[i - 1], op, w.clock);
    RestOfKeys(keys, i);
    RetrieveMore(m, op, keys, withCas, w.clock, i);
    CutoffStays(m2, keys[i - 1], op, w.clock);
    var es :| w2.history == w.history + es && Told(es, withCas) == vs;
    ToldMore(es, w.nextId, m2, keys[i - 1], op, withCas, w.clock);
    assert w1.history == w.history + (es + [e]);
    if i == |keys| {
      assert w2.calls - {w.nextId} == w.calls;
    }
  }

  lemma RestOfKeys(keys: seq<bytes>, i: nat)
    requires 0 < i <= |keys|
    ensures keys[i - 1..][0] == keys[i - 1] && keys[i - 1..][1..] == keys[i..]
  {
  }

  lemma RetrieveMore(m: Model, op: KeyOp, keys: seq<bytes>, withCas: bool, now: nat, i: nat)
    requires 0 < i <= |keys|
    ensures var (m2, vs) := Retrieve(m, keys[..i - 1], op, withCas, now);
            var (m3, reply) := OnKey(m2, keys[i - 1], op, now);
            Retrieve(m, keys[..i], op, withCas, now) == (m3, vs + ValuesOf(keys[i - 1], reply, withCas))
  {
    hide OnKey;
    assert keys[..i][..i - 1] == keys[..i - 1];
  }

  lemma ToldMore(es: History, id: nat, m: Model, key: bytes, op: KeyOp, withCas: bool, now: nat)
    ensures Told(es + [Alone(id, m, key, op, now)], withCas)
         == Told(es, withCas) + ValuesOf(key, OnKey(m, key, op, now).1, withCas)
  {
    hide OnKey, Act;
    AloneReply(id, m, key, op, now);
    assert (es + [Alone(id, m, key, op, now)])[..|es|] == es;
  }

  lemma CutoffStays(m: Model, key: bytes, op: KeyOp, now: nat)
    ensures OnKey(m, key, op, now).0.oldestLive == m.oldestLive
  {
    hide Act;
  }

  lemma RetrievalAlone(w: World, m: Model, c: Command) returns (w1: World)
    requires Mirrors(w, m) && WellFormed(w) && (c.Get? || c.GetAndTouch?)
    ensures Reaches(w, w1) && RanAlone(w, w1, m, c)
  {
    hide Reaches, Mirrors, OnKey, Step;
    var op := if c.Get? then Fetch else FetchTouch(c.exptime);
    if c.keys == [] {
      ReachesSelf(w);
      w1 := w;
      assert w1.history == w.history + [] && Told([], c.withCas) == [];
      assert Tells([], c, Values([]));
    } else {
      w1 := RetrievedAlone(w, m, op, c.keys, c.withCas, |c.keys|);
      assert c.keys[..|c.keys|] == c.keys;
      var es :| w1.history == w.history + es && Told(es, c.withCas) == Retrieve(m, c.keys, op, c.withCas, w.clock).1;
      assert Tells(es, c, Effect(m, c, w.clock).1);
    }
  }

  /** An immediate flush drops the keys one after the other. */
  lemma {:induction false} ClearedAlone(w: World, m: Model) returns (w1: World)
    requires Mirrors(w, m)
    ensures Reaches(w, w1) && Mirrors(w1, m.(items := map[]))
    ensures w1.calls == w.calls && w1.clock == w.clock && w1.nextId == w.nextId && w.history <= w1.history
    decreases |m.items|
  {
    hide Reaches, Step, Mirrors;
    ReachesSelf(w);
    if m.items == map[] {
      w1 := w;
    } else {
      var k :| k in m.items;
      var w2, m2 := Step(w, Drop(k)), m.(items := m.items - {k});
      DropMirrors(w, m, k);
      ReachesNext(w, w, Drop(k));
      w1 := ClearedAlone(w2, m2);
      ReachesBoth(w, w2, w1);
    }
  }

  lemma DropMirrors(w: World, m: Model, k: bytes)
    requires Mirrors(w, m)
    ensures var w1 := Step(w, Drop(k));
            && Mirrors(w1, m.(items := m.items - {k}))
            && w1.calls == w.calls && w1.clock == w.clock && w1.nextId == w.nextId && w.history <= w1.history
  {
    var w1 := Step(w, Drop(k));
    forall j ensures !w1.Blocked(j) && w1.Held(j) == Slot(m.items - {k}, j) {
      assert !w.Blocked(j) && w.Held(j) == Slot(m.items, j);
    }
  }

  lemma CutoffSet(w: World, m: Model, delay: nat)
    requires Mirrors(w, m)
    ensures var w1 := Step(Step(w, BeginFlush(delay)), StoreCutoff(w.nextId));
            && Mirrors(w1, m.(oldestLive := w.clock + delay))
            && w1.calls == w.calls && w1.clock == w.clock && w.nextId <= w1.nextId && w1.history == w.history
  {
    var w1 := Step(Step(w, BeginFlush(delay)), StoreCutoff(w.nextId));
    forall j ensures w1.Blocked(j) == w.Blocked(j) && w1.Held(j) == w.Held(j) {
    }
  }

  lemma OthersAlone(w: World, m: Model, c: Command) returns (w1: World)
    requires Mirrors(w, m) && SingleOp(c).None? && !c.Get? && !c.GetAndTouch?
    ensures Reaches(w, w1) && RanAlone(w, w1, m, c)
  {
    hide Reaches, Step, Mirrors;
    ReachesSelf(w);
    w1 := w;
    if Delays(c) {
      ReachesNext(w, w, BeginFlush(c.delay.value));
      w1 := Step(w, BeginFlush(c.delay.value));
      ReachesNext(w, w1, StoreCutoff(w.nextId));
      w1 := Step(w1, StoreCutoff(w.nextId));
      CutoffSet(w, m, c.delay.value);
    } else if c.FlushAll? {
      w1 := ClearedAlone(w, m);
    }
    assert w1.history == w.history + w1.history[|w.history|..];
  }

  lemma OneAlone(w: World, m: Model, c: Command) returns (w1: World)
    requires Mirrors(w, m) && WellFormed(w)
    ensures Reaches(w, w1) && RanAlone(w, w1, m, c)
  {
    hide *;
    if SingleOp(c).Some? {
      w1 := SingleAlone(w, m, c);
    } else if c.Get? || c.GetAndTouch? {
      w1 := RetrievalAlone(w, m, c);
    } else {
      w1 := OthersAlone(w, m, c);
    }
  }

  /** Every command of a single caller is a run of the concurrent store, to the same state and the same response. */
  lemma CommandAlone(w: World, m: Model, c: Command)
    requires Mirrors(w, m) && WellFormed(w)
    ensures exists ls :: RanAlone(w, Exec(w, ls), m, c)
  {
    hide RanAlone, Exec, Mirrors, WellFormed;
    var w1 := OneAlone(w, m, c);
  }

  /** Stretches of the history tell the responses of the commands, one after the other. */
  ghost predicate TellsAll(es: History, rs: seq<Request>, out: seq<Response>)
    requires |rs| == |out|
    decreases |rs|
  {
    if rs == [] then es == []
    else exists n | 0 <= n <= |es| ::
      Tells(es[..n], rs[0].command, out[0]) && TellsAll(es[n..], rs[1..], out[1..])
  }

  lemma TellsMore(first: History, es: History, rs: seq<Request>, out: seq<Response>)
    requires |rs| == |out| > 0 && Tells(first, rs[0].command, out[0]) && TellsAll(es, rs[1..], out[1..])
    ensures TellsAll(first + es, rs, out)
  {
    hide Tells;
    assert (first + es)[..|first|] == first && (first + es)[|first|..] == es;
  }

  /** A run of commands under a clock that never goes back, with nobody else about. */
  ghost predicate RanAllAlone(w: World, w1: World, m: Model, rs: seq<Request>) {
    && Mirrors(w1, ApplyAll(m, rs).0) && w1.calls == w.calls
    && exists es :: w1.history == w.history + es && TellsAll(es, rs, ApplyAll(m, rs).1)
  }

  lemma {:induction false} AllAlone(w: World, m: Model, rs: seq<Request>) returns (w1: World)
    requires Mirrors(w, m) && Inv(w) && Monotone(rs, w.clock)
    ensures Reaches(w, w1) && RanAllAlone(w, w1, m, rs)
    decreases |rs|
  {
    hide Reaches, Exec, Step, Effect, Tally, Mirrors, Inv, Tells, TellsAll;
    ReachesSelf(w);
    w1 := w;
    if rs == [] {
      NothingTold();
      assert w.history == w.history + [];
    } else {
      var w2 := Ticked(w, m, rs[0].now);
      ReachesKeeps(w, w2);
      var w3 := OneAlone(w2, m, rs[0].command);
      var (m1, r) := Apply(m, rs[0].command, rs[0].now);
      StatsAside(w3, Effect(m, rs[0].command, rs[0].now).0, m1);
      ReachesKeeps(w2, w3);
      w1 := AllAlone(w3, m1, rs[1..]);
      ReachesBoth(w, w2, w3);
      ReachesBoth(w, w3, w1);
      var first :| w3.history == w2.history + first && Tells(first, rs[0].command, r);
      var es :| w1.history == w3.history + es && TellsAll(es, rs[1..], ApplyAll(m1, rs[1..]).1);
      TellsMore(first, es, rs, ApplyAll(m, rs).1);
      assert w1.history == w.history + (first + es);
    }
  }

  lemma NothingTold()
    ensures TellsAll([], [], [])
  {
  }

  /** Whatever the sequential store does from its start, with any clock that never goes back, is an interleaving. */
  lemma SequentialIsAnInterleaving(rs: seq<Request>)
    requires Monotone(rs, 0)
    ensures exists ls :: RanAllAlone(START, Exec(START, ls), EMPTY, rs)
  {
    hide RanAllAlone, Exec, Monotone;
    EveryRun([]);
    ExecNothing();
    var w1 := AllAlone(START, EMPTY, rs);
  }

  lemma ExecNothing()
    ensures Exec(START, []) == START
  {
  }

  lemma Ticked(w: World, m: Model, now: nat) returns (w1: World)
    requires Mirrors(w, m) && w.clock <= now
    ensures Reaches(w, w1) && Mirrors(w1, m) && w1.clock == now && w1.calls == w.calls && w1.history == w.history
  {
    hide Reaches;
    ReachesSelf(w);
    ReachesNext(w, w, Tick(now - w.clock));
    w1 := Step(w, Tick(now - w.clock));
    assert forall k :: w1.Held(k) == w.Held(k) && w1.Blocked(k) == w.Blocked(k);
  }

  lemma StatsAside(w: World, m: Model, m1: Model)
    requires Mirrors(w, m) && m1 == m.(stats := m1.stats)
    ensures Mirrors(w, m1)
  {
  }

  lemma ReachesKeeps(w: World, w1: World)
    requires Reaches(w, w1) && Inv(w)
    ensures Inv(w1) && WellFormed(w1)
  {
    hide Exec, Faithful, TokensApart, WellFormed;
    var ls :| Exec(w, ls) == w1;
    ExecKeeps(w, ls);
  }
}
