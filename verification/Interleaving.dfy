// Concurrent callers of the store, as a transition system. A call is cut at every point at which
// another caller can come in between: it reads the clock, reads the cutoff, takes a token, acts on
// the entry of each of its keys, and, for an `add` on a vacant key, inserts through its reservation.
module Interleavings {
  import opened Bytes
  import opened Commands
  import opened Items
  import opened Stores
  import opened Histories

  // Started: the clock is read. Bounded: the cutoff too. Armed: a token is taken as well.
  // Holding: an `add` has reserved its vacant key.
  datatype Stage =
    | Started
    | Bounded(cutoff: Option<nat>)
    | Armed(cutoff: Option<nat>, token: nat)
    | Holding(cutoff: Option<nat>, token: nat)
  {
    predicate HasToken() {
      Armed? || Holding?
    }
  }

  // A call with one operation and the keys it has still to act on.
  datatype Call = Call(op: KeyOp, todo: seq<bytes>, now: nat, stage: Stage)

  // What the cache keeps for a key: an item, or the reservation of a call that found it vacant.
  datatype Cell = Reserved(owner: nat) | Full(item: Item)

  datatype World = World(
    cells: map<bytes, Cell>, nextCas: nat, oldestLive: nat, clock: nat,
    calls: map<nat, Call>, flushes: map<nat, nat>, nextId: nat, history: History)
  {
    function Cutoff(): Option<nat> {
      if oldestLive == 0 then None else Some(oldestLive)
    }

    function Held(k: bytes): Option<Item> {
      if k in cells && cells[k].Full? then Some(cells[k].item) else None
    }

    /** A cell that only the call that reserved it may act on. */
    predicate Blocked(k: bytes) {
      k in cells && cells[k].Reserved?
    }

    function Put(k: bytes, slot: Option<Item>): World {
      this.(cells := if slot.Some? then cells[k := Full(slot.value)] else cells - {k})
    }

    function Log(e: Event): World {
      this.(history := history + [e])
    }

    /** The call is done with its first key. */
    function Advance(id: nat): World
      requires id in calls && calls[id].todo != []
    {
      this.(calls := if |calls[id].todo| == 1 then calls - {id}
                     else calls[id := calls[id].(todo := calls[id].todo[1..])])
    }
  }

  const START := World(map[], 1, 0, 0, map[], map[], 0, [])

  datatype Label =
    | Tick(secs: nat)
    | Begin(op: KeyOp, keys: seq<bytes>)
    | LoadCutoff(id: nat)
    | TakeToken(id: nat)
    | Enter(id: nat, cancels: bool)
    | InsertGuard(id: nat)
    | Drop(key: bytes)
    | BeginFlush(delay: nat)
    | StoreCutoff(id: nat)

  /** Whether the operation takes a token before it acts; `gat` takes its tokens inside the action. */
  predicate NeedsToken(op: KeyOp) {
    op.Put? || op.Adjust? || op.Retouch?
  }

  /** The whole event of an action. */
  function Acted(id: nat, c: Call, k: bytes, at: nat, cutoff: Option<nat>, token: nat, before: Option<Item>): Event {
    var (after, reply) := Act(c.op, before, c.now, cutoff, token);
    Did(id, k, c.op, at, c.now, cutoff, token, before, after, reply)
  }

  predicate MayEnter(w: World, id: nat) {
    && id in w.calls && w.calls[id].todo != []
    && var c := w.calls[id];
       (if NeedsToken(c.op) then c.stage.Armed? else c.stage.Bounded?)
       // `insert` and `remove` do not wait for a reservation; every other action does.
       && (!w.Blocked(c.todo[0]) || c.op.Erase? || (c.op.Put? && c.op.op == Set))
  }

  /** The atomic action of a call on its next key. A removal may or may not cancel a reservation. */
  function EnterStep(w: World, id: nat, cancels: bool): World
    requires MayEnter(w, id)
  {
    var c := w.calls[id];
    var k := c.todo[0];
    var token := if c.stage.Armed? then c.stage.token else w.nextCas;
    if c.op.Put? && c.op.op == Add && k !in w.cells then
      w.(cells := w.cells[k := Reserved(id)], calls := w.calls[id := c.(stage := Holding(c.stage.cutoff, token))])
    else
      var e := Acted(id, c, k, w.clock, c.stage.cutoff, token, w.Held(k));
      var w1 := if w.Blocked(k) && c.op.Erase? && !cancels then w else w.Put(k, e.after);
      var taken := if c.op.FetchTouch? && e.reply.Hit? then 1 else 0;
      w1.(nextCas := w1.nextCas + taken).Log(e).Advance(id)
  }

  predicate MayInsert(w: World, id: nat) {
    id in w.calls && w.calls[id].stage.Holding? && w.calls[id].todo != []
  }

  /** The insertion through a reservation, which fails when the reservation is gone. */
  function InsertStep(w: World, id: nat): World
    requires MayInsert(w, id)
  {
    var c := w.calls[id];
    var k := c.todo[0];
    if k in w.cells && w.cells[k] == Reserved(id) then
      var e := Acted(id, c, k, w.clock, c.stage.cutoff, c.stage.token, None);
      w.Put(k, e.after).Log(e).Advance(id)
    else w.Log(Superseded(id, k, Says(NotStored))).Advance(id)
  }

  /** One step of the system; a step that is not possible changes nothing. */
  function Step(w: World, l: Label): World {
    match l
    case Tick(secs) => w.(clock := w.clock + secs)
    case Begin(op, keys) =>
      if NeedsToken(op) && |keys| != 1 then w
      else w.(calls := w.calls[w.nextId := Call(op, keys, w.clock, Started)], nextId := w.nextId + 1)
    case LoadCutoff(id) =>
      if id in w.calls && w.calls[id].stage.Started?
      then w.(calls := w.calls[id := w.calls[id].(stage := Bounded(w.Cutoff()))])
      else w
    case TakeToken(id) =>
      if id in w.calls && w.calls[id].stage.Bounded? && NeedsToken(w.calls[id].op)
      then w.(calls := w.calls[id := w.calls[id].(stage := Armed(w.calls[id].stage.cutoff, w.nextCas))],
              nextCas := w.nextCas + 1)
      else w
    case Enter(id, cancels) => if MayEnter(w, id) then EnterStep(w, id, cancels) else w
    case InsertGuard(id) => if MayInsert(w, id) then InsertStep(w, id) else w
    case Drop(k) => w.Put(k, None).Log(Dropped(k))
    case BeginFlush(delay) => w.(flushes := w.flushes[w.nextId := w.clock + delay], nextId := w.nextId + 1)
    case StoreCutoff(id) =>
      if id in w.flushes then w.(oldestLive := w.flushes[id], flushes := w.flushes - {id}) else w
  }

  function Exec(w: World, ls: seq<Label>): World {
    if ls == [] then w else Step(Exec(w, ls[..|ls| - 1]), ls[|ls| - 1])
  }

  // ---- The invariant ----

  /** The history accounts for what the cache holds. */
  ghost predicate Faithful(w: World) {
    Sound(w.history) && forall k :: w.Held(k) == Content(w.history, k)
  }

  /** A token an event or a call already has: it is out, and no other may have it. */
  predicate Spent(h: History, token: nat) {
    exists i :: 0 <= i < |h| && Spends(h[i], token)
  }

  predicate Spends(e: Event, token: nat) {
    Installs(e) && e.token == token
  }

  predicate Holds(w: World, id: nat) {
    id in w.calls && w.calls[id].stage.HasToken()
  }

  /** Every token in an item or in a call was taken once, and before the next one. */
  ghost predicate TokensApart(w: World) {
    && DistinctTokens(w.history)
    && (forall t: nat :: Spent(w.history, t) ==> t < w.nextCas)
    && (forall id :: Holds(w, id) ==> w.calls[id].stage.token < w.nextCas && !Spent(w.history, w.calls[id].stage.token))
    && (forall a, b :: Holds(w, a) && Holds(w, b) && a != b ==> w.calls[a].stage.token != w.calls[b].stage.token)
  }

  /** Calls are known by fresh numbers, began in the past, and only operations on one key hold a token. */
  ghost predicate WellFormed(w: World) {
    forall id :: id in w.calls ==>
      && id < w.nextId && w.calls[id].now <= w.clock
      && (NeedsToken(w.calls[id].op) ==> |w.calls[id].todo| == 1)
      && (w.calls[id].stage.HasToken() ==> NeedsToken(w.calls[id].op))
      && (w.calls[id].stage.Holding? ==> w.calls[id].op.Put? && w.calls[id].op.op == Add)
  }

  ghost predicate Inv(w: World) {
    Faithful(w) && TokensApart(w) && WellFormed(w)
  }

  lemma SpentExtends(h: History, e: Event)
    ensures forall t: nat :: Spent(h + [e], t) <==> Spent(h, t) || Spends(e, t)
  {
    hide Spends;
    forall t: nat ensures Spent(h + [e], t) <==> Spent(h, t) || Spends(e, t) {
      if Spent(h, t) {
        var i :| 0 <= i < |h| && Spends(h[i], t);
        assert (h + [e])[i] == h[i];
      }
      assert (h + [e])[|h|] == e;
    }
  }

  lemma DistinctExtends(h: History, e: Event)
    requires DistinctTokens(h) && (Installs(e) ==> !Spent(h, e.token))
    ensures DistinctTokens(h + [e])
  {
    forall i | 0 <= i < |h| && Installs(e) && Installs(h[i]) ensures h[i].token != e.token {
      assert Spends(h[i], h[i].token);
    }
  }

  /** An event that takes effect keeps the history faithful. */
  lemma Recorded(w: World, w1: World, e: Event)
    requires Faithful(w) && EventOk(w.history, e) && w1.history == w.history + [e]
    requires forall k :: w1.Held(k) ==
               if k != e.key || e.Superseded? then w.Held(k) else if e.Did? then e.after else None
    ensures Faithful(w1)
  {
    hide EventOk;
    SoundExtends(w.history, e);
    assert w1.history[..|w.history|] == w.history;
  }

  /** The call `id` has used its token up, if it had one, and the others are as they were. */
  ghost predicate OthersKept(w: World, w1: World, id: nat) {
    forall a :: Holds(w1, a) ==> a != id && Holds(w, a) && w1.calls[a].stage.token == w.calls[a].stage.token
  }

  lemma TokensKept(w: World, w1: World, id: nat, e: Event)
    requires TokensApart(w) && w1.history == w.history + [e] && OthersKept(w, w1, id) && w.nextCas <= w1.nextCas
    requires Installs(e) ==>
               if Holds(w, id) then e.token == w.calls[id].stage.token
               else e.token == w.nextCas < w1.nextCas
    ensures TokensApart(w1)
  {
    hide DistinctTokens, Spent;
    SpentExtends(w.history, e);
    DistinctExtends(w.history, e);
  }

  /** Reads and removals install nothing; `gat` does so exactly on a hit. */
  lemma ActedInstalls(id: nat, c: Call, k: bytes, at: nat, cutoff: Option<nat>, token: nat, before: Option<Item>)
    ensures var e := Acted(id, c, k, at, cutoff, token, before);
            && (c.op.Fetch? || c.op.Erase? ==> !Installs(e))
            && (c.op.FetchTouch? ==> (Installs(e) <==> e.reply.Hit?))
            && (c.op.Erase? ==> e.after == None)
  {
    hide ParseNumber, Decimal, ResolveExpiry, Joined;
  }

  lemma BegunInThePast(w: World, id: nat)
    requires WellFormed(w) && id in w.calls
    ensures w.calls[id].now <= w.clock
  {
  }

  lemma EnterFaithful(w: World, id: nat, cancels: bool)
    requires Inv(w) && MayEnter(w, id)
    ensures Faithful(EnterStep(w, id, cancels))
  {
    hide Act, Sound, Content, TokensApart, WellFormed;
    var c := w.calls[id];
    var k := c.todo[0];
    var w1 := EnterStep(w, id, cancels);
    if c.op.Put? && c.op.op == Add && k !in w.cells {
      assert forall j :: w1.Held(j) == w.Held(j);
    } else {
      var token := if c.stage.Armed? then c.stage.token else w.nextCas;
      ActedInstalls(id, c, k, w.clock, c.stage.cutoff, token, w.Held(k));
      BegunInThePast(w, id);
      Recorded(w, w1, Acted(id, c, k, w.clock, c.stage.cutoff, token, w.Held(k)));
    }
  }

  /** The call reserves its key instead of acting on it. */
  predicate Reserves(w: World, id: nat)
    requires MayEnter(w, id)
  {
    w.calls[id].op.Put? && w.calls[id].op.op == Add && w.calls[id].todo[0] !in w.cells
  }

  lemma ReserveTokens(w: World, id: nat, cancels: bool)
    requires Inv(w) && MayEnter(w, id) && Reserves(w, id)
    ensures TokensApart(EnterStep(w, id, cancels))
  {
    hide Act, Faithful, DistinctTokens, Spent;
    var w1 := EnterStep(w, id, cancels);
    assert forall a :: Holds(w1, a) <==> Holds(w, a);
    assert forall a :: Holds(w, a) ==> w1.calls[a].stage.token == w.calls[a].stage.token;
  }

  lemma ActTokens(w: World, id: nat, cancels: bool)
    requires Inv(w) && MayEnter(w, id) && !Reserves(w, id)
    ensures TokensApart(EnterStep(w, id, cancels))
  {
    hide Act, Faithful, TokensApart, Installs;
    var c := w.calls[id];
    var k := c.todo[0];
    var w1 := EnterStep(w, id, cancels);
    var token := if c.stage.Armed? then c.stage.token else w.nextCas;
    ActedInstalls(id, c, k, w.clock, c.stage.cutoff, token, w.Held(k));
    TokensKept(w, w1, id, Acted(id, c, k, w.clock, c.stage.cutoff, token, w.Held(k)));
  }

  lemma EnterWellFormed(w: World, id: nat, cancels: bool)
    requires WellFormed(w) && MayEnter(w, id)
    ensures WellFormed(EnterStep(w, id, cancels))
  {
    hide Act;
  }

  lemma InsertKeeps(w: World, id: nat)
    requires Inv(w) && MayInsert(w, id)
    ensures Inv(InsertStep(w, id))
  {
    hide Act, Sound, Content, Installs, DistinctTokens, Spent;
    var c := w.calls[id];
    var k := c.todo[0];
    var w1 := InsertStep(w, id);
    if k in w.cells && w.cells[k] == Reserved(id) {
      var e := Acted(id, c, k, w.clock, c.stage.cutoff, c.stage.token, None);
      assert w.Held(k) == None;
      Recorded(w, w1, e);
      TokensKept(w, w1, id, e);
    } else {
      Recorded(w, w1, Superseded(id, k, Says(NotStored)));
      SupersededInstallsNothing(id, k);
      TokensKept(w, w1, id, Superseded(id, k, Says(NotStored)));
    }
  }

  lemma SupersededInstallsNothing(id: nat, k: bytes)
    ensures !Installs(Superseded(id, k, Says(NotStored))) && !Installs(Dropped(k))
  {
  }

  lemma DropKeeps(w: World, k: bytes)
    requires Inv(w)
    ensures Inv(Step(w, Drop(k)))
  {
    hide Sound, Content, Installs, DistinctTokens, Spent, Act;
    var w1 := Step(w, Drop(k));
    Recorded(w, w1, Dropped(k));
    SupersededInstallsNothing(0, k);
    SpentExtends(w.history, Dropped(k));
    DistinctExtends(w.history, Dropped(k));
    assert forall a :: Holds(w1, a) <==> Holds(w, a);
  }

  lemma TakeTokenKeeps(w: World, id: nat)
    requires Inv(w)
    ensures Inv(Step(w, TakeToken(id)))
  {
    hide Sound, Content, Installs, DistinctTokens, Spent;
    var w1 := Step(w, TakeToken(id));
    assert forall a :: a != id ==> (Holds(w1, a) <==> Holds(w, a));
    assert forall j :: w1.Held(j) == w.Held(j);
  }

  /** Nothing was recorded, taken or moved. */
  lemma NothingHappened(w: World, w1: World)
    requires Faithful(w) && TokensApart(w)
    requires w1.cells == w.cells && w1.nextCas == w.nextCas && w1.history == w.history
    requires forall a :: Holds(w1, a) ==> Holds(w, a) && w1.calls[a].stage == w.calls[a].stage
    ensures Faithful(w1) && TokensApart(w1)
  {
    hide Sound, Content, DistinctTokens, Spent;
    assert forall j :: w1.Held(j) == w.Held(j);
  }

  lemma BeginKeeps(w: World, op: KeyOp, keys: seq<bytes>)
    requires Inv(w)
    ensures Inv(Step(w, Begin(op, keys)))
  {
    hide Faithful, TokensApart;
    NothingHappened(w, Step(w, Begin(op, keys)));
  }

  lemma LoadCutoffKeeps(w: World, id: nat)
    requires Inv(w)
    ensures Inv(Step(w, LoadCutoff(id)))
  {
    hide Faithful, TokensApart;
    NothingHappened(w, Step(w, LoadCutoff(id)));
  }

  lemma ClockAndFlushKeep(w: World, l: Label)
    requires Inv(w) && (l.Tick? || l.BeginFlush? || l.StoreCutoff?)
    ensures Inv(Step(w, l))
  {
    hide Faithful, TokensApart;
    NothingHappened(w, Step(w, l));
  }

  lemma StepKeeps(w: World, l: Label)
    requires Inv(w)
    ensures Inv(Step(w, l))
  {
    hide Inv, EnterStep, InsertStep;
    match l
    case Enter(id, cancels) =>
      if MayEnter(w, id) {
        EnterKeeps(w, id, cancels);
      }
    case InsertGuard(id) =>
      if MayInsert(w, id) {
        InsertKeeps(w, id);
      }
    case Drop(k) => DropKeeps(w, k);
    case TakeToken(id) => TakeTokenKeeps(w, id);
    case Begin(op, keys) => BeginKeeps(w, op, keys);
    case LoadCutoff(id) => LoadCutoffKeeps(w, id);
    case _ => ClockAndFlushKeep(w, l);
  }

  lemma EnterKeeps(w: World, id: nat, cancels: bool)
    requires Inv(w) && MayEnter(w, id)
    ensures Inv(EnterStep(w, id, cancels))
  {
    hide Faithful, TokensApart, WellFormed, EnterStep;
    EnterFaithful(w, id, cancels);
    EnterWellFormed(w, id, cancels);
    if Reserves(w, id) {
      ReserveTokens(w, id, cancels);
    } else {
      ActTokens(w, id, cancels);
    }
  }

  lemma {:induction false} ExecKeeps(w: World, ls: seq<Label>)
    requires Inv(w)
    ensures Inv(Exec(w, ls))
  {
    hide Inv, Step;
    if ls != [] {
      ExecKeeps(w, ls[..|ls| - 1]);
      StepKeeps(Exec(w, ls[..|ls| - 1]), ls[|ls| - 1]);
    }
  }

  /** Every interleaving of any calls, evictions and flushes from an empty store keeps the invariant. */
  lemma EveryRun(ls: seq<Label>)
    ensures Inv(Exec(START, ls))
  {
    ExecKeeps(START, ls);
  }

  // ---- What holds in every run ----

  lemma StepGrows(w: World, l: Label)
    ensures w.history <= Step(w, l).history
  {
    hide Act;
  }

  lemma {:induction false} HistoryGrows(w: World, ls: seq<Label>)
    ensures w.history <= Exec(w, ls).history
  {
    hide Step;
    if ls != [] {
      HistoryGrows(w, ls[..|ls| - 1]);
      StepGrows(Exec(w, ls[..|ls| - 1]), ls[|ls| - 1]);
    }
  }

  /**
   * In every interleaving a hit reports the clients' own view of the key, and nothing has removed it since its
   * last base.
   */
  lemma HitsAreFresh(ls: seq<Label>, i: nat)
    requires var h := Exec(START, ls).history; i < |h| && h[i].Did? && h[i].reply.Hit?
    ensures var h := Exec(START, ls).history;
            var worth := WorthOf(h[..i], h[i].key);
            worth.Some? && worth.value.data == h[i].reply.data && worth.value.flags == h[i].reply.flags
    ensures var h := Exec(START, ls).history;
            exists m: nat :: LastBase(h[..i], h[i].key, m) && Unbroken(h[..i], h[i].key, m)
  {
    hide Exec, WorthOf;
    EveryRun(ls);
    HitIsFresh(Exec(START, ls).history, i);
  }

  /** In every interleaving no two writes install the same token. */
  lemma TokensAreUnique(ls: seq<Label>, i: nat, j: nat)
    requires var h := Exec(START, ls).history; i < j < |h| && Installs(h[i]) && Installs(h[j])
    ensures var w := Exec(START, ls);
            w.history[i].token != w.history[j].token && w.history[i].token < w.nextCas && w.history[j].token < w.nextCas
  {
    hide Exec;
    EveryRun(ls);
    var h := Exec(START, ls).history;
    assert Spends(h[i], h[i].token) && Spends(h[j], h[j].token);
    assert Spent(h, h[i].token) && Spent(h, h[j].token);
  }

  /** Every token in the cache is below the next one, and no two keys share one. */
  lemma HeldTokens(w: World, k1: bytes, k2: bytes)
    requires Inv(w) && w.Held(k1).Some? && w.Held(k2).Some?
    ensures w.Held(k1).value.cas < w.nextCas
    ensures k1 != k2 ==> w.Held(k1).value.cas != w.Held(k2).value.cas
  {
    hide Sound, Content;
    var h := w.history;
    assert h[..|h|] == h;
    ItemHasOrigin(h, k1, w.Held(k1).value);
    var m: nat :| Origin(h, k1, w.Held(k1).value, m);
    assert Spends(h[m], h[m].token);
    assert Spent(h, h[m].token);
    if w.Held(k1).value.cas == w.Held(k2).value.cas {
      SameTokenSameItem(h, |h|, |h|, k1, k2);
    }
  }

  /** In every interleaving a stored `cas` replaces exactly what the retrieval of its token saw. */
  lemma NoLostUpdate(ls: seq<Label>, i: nat, j: nat)
    requires var h := Exec(START, ls).history;
             && i < j < |h| && h[i].Did? && h[i].reply.Hit?
             && h[j].Did? && h[j].op.Put? && h[j].op.op == Cas && h[j].reply == Says(Stored)
             && h[j].op.args.cas == Some(h[i].reply.cas)
    ensures var h := Exec(START, ls).history;
            && h[i].key == h[j].key && h[j].before.Some? && h[i].after == h[j].before
            && forall l :: i < l <= j ==> Content(h[..l], h[j].key) == h[j].before
  {
    hide Exec, Content;
    EveryRun(ls);
    CasReplacesWhatWasRead(Exec(START, ls).history, i, j);
  }

  /**
   * Arithmetic by any number of callers on a key that holds a number: until another write, a removal
   * or expiry it always succeeds, and every reply is the number as changed by what came before it.
   */
  lemma ArithmeticSucceeds(w: World, ls: seq<Label>, k: bytes, v: u64)
    requires Inv(w) && w.Held(k).Some? && ParseNumber(w.Held(k).value.data) == Some(v)
    requires var h := Exec(w, ls).history; |w.history| <= |h| ==> Undisturbed(h, |w.history|, |h|, k)
    ensures |w.history| <= |Exec(w, ls).history|
    ensures var w1, i := Exec(w, ls), |w.history|;
            && w1.Held(k).Some?
            && ParseNumber(w1.Held(k).value.data) == Some(Computed(v, Changes(w1.history, i, |w1.history|, k)))
            && forall l | i <= l < |w1.history| && w1.history[l].Did? && w1.history[l].key == k
                          && w1.history[l].op.Adjust? ::
                 w1.history[l].reply == Says(Number(Computed(v, Changes(w1.history, i, l + 1, k))))
  {
    hide Exec, ParseNumber, Content, Sound, Computed, Changes, Undisturbed;
    var w1 := Exec(w, ls);
    Stretch(w, ls, k);
    ArithmeticConserved(w1.history, |w.history|, |w1.history|, k, v);
  }

  /** What a key holds before and after a run is what it holds at two points of the later history. */
  lemma Stretch(w: World, ls: seq<Label>, k: bytes)
    requires Inv(w)
    ensures var w1 := Exec(w, ls);
            && Sound(w1.history) && |w.history| <= |w1.history|
            && Content(w1.history[..|w.history|], k) == w.Held(k)
            && Content(w1.history[..|w1.history|], k) == w1.Held(k)
  {
    hide Exec, Content, Sound;
    var w1 := Exec(w, ls);
    ExecKeeps(w, ls);
    HistoryGrows(w, ls);
    assert w1.history[..|w.history|] == w.history && w1.history[..|w1.history|] == w1.history;
  }

  /** Increments by any number of callers: the number grows by their sum, and the replies are the partial sums. */
  lemma IncrementsAddUp(w: World, ls: seq<Label>, k: bytes, v: u64)
    requires Inv(w) && w.Held(k).Some? && ParseNumber(w.Held(k).value.data) == Some(v)
    requires var h, i := Exec(w, ls).history, |w.history|;
             i <= |h| ==> Undisturbed(h, i, |h|, k) && AllOf(Changes(h, i, |h|, k), Incr)
    ensures |w.history| <= |Exec(w, ls).history|
    ensures var w1, i := Exec(w, ls), |w.history|;
            && w1.Held(k).Some?
            && ParseNumber(w1.Held(k).value.data) == Some((v + Sum(Changes(w1.history, i, |w1.history|, k))) % TWO_64)
            && forall l | i <= l < |w1.history| && w1.history[l].Did? && w1.history[l].key == k
                          && w1.history[l].op.Adjust? ::
                 w1.history[l].reply == Says(Number((v + Sum(Changes(w1.history, i, l + 1, k))) % TWO_64))
  {
    hide Exec, ParseNumber, Content, Sound, Sum, Changes, Undisturbed, AllOf;
    var w1 := Exec(w, ls);
    Stretch(w, ls, k);
    IncrementsConserved(w1.history, |w.history|, |w1.history|, k, v);
  }

  /** Decrements by any number of callers: the number falls by their sum, down to zero. */
  lemma DecrementsAddUp(w: World, ls: seq<Label>, k: bytes, v: u64)
    requires Inv(w) && w.Held(k).Some? && ParseNumber(w.Held(k).value.data) == Some(v)
    requires var h, i := Exec(w, ls).history, |w.history|;
             i <= |h| ==> Undisturbed(h, i, |h|, k) && AllOf(Changes(h, i, |h|, k), Decr)
    ensures |w.history| <= |Exec(w, ls).history|
    ensures var w1, i := Exec(w, ls), |w.history|;
            && w1.Held(k).Some?
            && ParseNumber(w1.Held(k).value.data) == Some(Less(v, Sum(Changes(w1.history, i, |w1.history|, k))))
            && forall l | i <= l < |w1.history| && w1.history[l].Did? && w1.history[l].key == k
                          && w1.history[l].op.Adjust? ::
                 w1.history[l].reply == Says(Number(Less(v, Sum(Changes(w1.history, i, l + 1, k)))))
  {
    hide Exec, ParseNumber, Content, Sound, Sum, Changes, Undisturbed, AllOf;
    var w1 := Exec(w, ls);
    Stretch(w, ls, k);
    DecrementsConserved(w1.history, |w.history|, |w1.history|, k, v);
  }

  /**
   * In every interleaving a hit shows the prepends since the last base, last one first, the base, the appends in
   * order.
   */
  lemma HitsShowPieces(ls: seq<Label>, i: nat, m: nat)
    requires var h := Exec(START, ls).history;
             && i < |h| && h[i].Did? && h[i].reply.Hit?
             && LastBase(h[..i], h[i].key, m) && NoArithmeticSince(h[..i], h[i].key, m)
    ensures var h := Exec(START, ls).history;
            var ps := PiecesSince(h[..i], h[i].key, m);
            h[i].reply.data == InFront(ps) + h[m].op.args.data + Behind(ps)
  {
    hide Exec, WorthOf, InFront, Behind, PiecesSince, NoArithmeticSince;
    var h := Exec(START, ls).history;
    HitsAreFresh(ls, i);
    WorthIsPieces(h[..i], h[i].key, m);
  }

  /**
   * In every interleaving, between two removals of a key, at most one `add` of it is stored, whatever else is
   * done to it.
   */
  lemma AddsAreExclusive(ls: seq<Label>, i: nat, j: nat, k: bytes, a: nat, b: nat)
    requires var h := Exec(START, ls).history;
             && i <= a < b < j <= |h| && Unremoved(h, i, j, k) && h[a].key == k && h[b].key == k
             && (h[a].Superseded? || IsAdd(h[a])) && (h[b].Superseded? || IsAdd(h[b]))
    ensures var h := Exec(START, ls).history; !(h[a].reply == Says(Stored) && h[b].reply == Says(Stored))
  {
    hide Exec;
    EveryRun(ls);
    AddIsExclusive(Exec(START, ls).history, i, j, k, a, b);
  }

  /** An `add` that lost its reservation is not stored. */
  lemma SupersededIsNotStored(ls: seq<Label>, i: nat)
    requires i < |Exec(START, ls).history| && Exec(START, ls).history[i].Superseded?
    ensures Exec(START, ls).history[i].reply == Says(NotStored)
  {
    hide Exec, Content, Act;
    EveryRun(ls);
    var h := Exec(START, ls).history;
    assert EventOk(h[..i], h[i]);
  }

  // ---- Delayed flushes over whole runs ----

  /** The calls that had read a cutoff before this moment. */
  predicate Early(w: World, id: nat) {
    id in w.calls && !w.calls[id].stage.Started?
  }

  /** Since `w0`, whose cutoff was `c`, only calls that were early then know another cutoff. */
  ghost predicate SinceFlush(w0: World, w: World, c: nat) {
    && w.oldestLive == c && w0.history <= w.history
    && (forall id :: Early(w, id) ==> Early(w0, id) || w.calls[id].stage.cutoff == Some(c))
    && (forall i :: |w0.history| <= i < |w.history| && w.history[i].Did? ==>
          Early(w0, w.history[i].call) || w.history[i].cutoff == Some(c))
  }

  /** A call keeps the cutoff it read; a call that reads one now reads the current one. */
  ghost predicate CutoffsKept(w: World, w1: World) {
    && w1.oldestLive == w.oldestLive
    && forall id :: Early(w1, id) ==>
         if Early(w, id) then w1.calls[id].stage.cutoff == w.calls[id].stage.cutoff
         else w1.calls[id].stage.cutoff == w.Cutoff()
  }

  /** An event is recorded by a call that has read a cutoff, and carries it. */
  ghost predicate RecordsWithCutoff(w: World, w1: World) {
    || w1.history == w.history
    || exists e :: w1.history == w.history + [e]
         && (e.Did? ==> Early(w, e.call) && e.cutoff == w.calls[e.call].stage.cutoff)
  }

  lemma EnterCutoffs(w: World, id: nat, cancels: bool)
    requires MayEnter(w, id)
    ensures CutoffsKept(w, EnterStep(w, id, cancels)) && RecordsWithCutoff(w, EnterStep(w, id, cancels))
  {
    hide Act;
    var c := w.calls[id];
    var w1 := EnterStep(w, id, cancels);
    if !Reserves(w, id) {
      var token := if c.stage.Armed? then c.stage.token else w.nextCas;
      assert w1.history == w.history + [Acted(id, c, c.todo[0], w.clock, c.stage.cutoff, token, w.Held(c.todo[0]))];
    }
  }

  lemma InsertCutoffs(w: World, id: nat)
    requires MayInsert(w, id)
    ensures CutoffsKept(w, InsertStep(w, id)) && RecordsWithCutoff(w, InsertStep(w, id))
  {
    hide Act;
  }

  lemma StepCutoffs(w: World, l: Label)
    requires !l.StoreCutoff?
    ensures CutoffsKept(w, Step(w, l)) && RecordsWithCutoff(w, Step(w, l))
  {
    hide EnterStep, InsertStep;
    if l.Enter? && MayEnter(w, l.id) {
      EnterCutoffs(w, l.id, l.cancels);
    } else if l.InsertGuard? && MayInsert(w, l.id) {
      InsertCutoffs(w, l.id);
    } else if l.Drop? {
      assert Step(w, l).history == w.history + [Dropped(l.key)];
    }
  }

  lemma SinceFlushStep(w0: World, w: World, l: Label, c: nat)
    requires SinceFlush(w0, w, c) && c > 0 && !l.StoreCutoff?
    ensures SinceFlush(w0, Step(w, l), c)
  {
    hide Step;
    StepCutoffs(w, l);
  }

  lemma {:induction false} SinceFlushRun(w0: World, ls: seq<Label>, c: nat)
    requires w0.oldestLive == c > 0
    requires forall l :: l in ls ==> !l.StoreCutoff?
    ensures SinceFlush(w0, Exec(w0, ls), c)
  {
    hide Step;
    if ls != [] {
      SinceFlushRun(w0, ls[..|ls| - 1], c);
      SinceFlushStep(w0, Exec(w0, ls[..|ls| - 1]), ls[|ls| - 1], c);
    }
  }

  /** A run in which the cutoff stands at `c`, and a retrieval in it of a key whose last base is `m`. */
  ghost predicate RetrievalUnder(w0: World, ls: seq<Label>, c: nat, i: nat, m: nat) {
    && Inv(w0) && w0.oldestLive == c > 0 && (forall l :: l in ls ==> !l.StoreCutoff?)
    && var h := Exec(w0, ls).history;
       && |w0.history| <= i < |h| && h[i].Did? && (h[i].op.Fetch? || h[i].op.FetchTouch?)
       && Content(h[..i], h[i].key).Some? && LastBase(h[..i], h[i].key, m)
  }

  /** The cutoff the call has read does not hide a base of the time `since`. */
  predicate ShownBy(e: Event, since: nat)
    requires e.Did?
  {
    e.cutoff == None || e.now < e.cutoff.value || since >= e.cutoff.value
  }

  /** Such a retrieval goes by the cutoff it has read, which is `c` unless it was read before `c` was set. */
  lemma FlushHides(w0: World, ls: seq<Label>, c: nat, i: nat, m: nat)
    requires RetrievalUnder(w0, ls, c, i, m)
    ensures var h := Exec(w0, ls).history;
            && (h[i].cutoff == Some(c) || Early(w0, h[i].call))
            && (h[i].reply.Hit? <==>
                  !Content(h[..i], h[i].key).value.TimedOut(h[i].now) && ShownBy(h[i], h[m].now))
  {
    hide Exec, Content, SinceFlush;
    ExecKeeps(w0, ls);
    SinceFlushRun(w0, ls, c);
    CutoffOf(w0, Exec(w0, ls), c, i);
    RetrievalSees(Exec(w0, ls).history, i, m);
  }

  /**
   * An item from before the cutoff, and not past its own expiry, is returned exactly to a call that
   * read its clock before the cutoff was due, or that had read another cutoff before this one was
   * set, which does not hide the item from it.
   */
  lemma StaleExactly(w0: World, ls: seq<Label>, c: nat, i: nat, m: nat)
    requires RetrievalUnder(w0, ls, c, i, m)
    requires var h := Exec(w0, ls).history;
             h[m].now < c && !Content(h[..i], h[i].key).value.TimedOut(h[i].now)
    ensures var h := Exec(w0, ls).history;
            h[i].reply.Hit? <==>
              || (h[i].cutoff == Some(c) && h[i].now < c)
              || (Early(w0, h[i].call) && h[i].cutoff != Some(c) && ShownBy(h[i], h[m].now))
  {
    hide Exec, Content;
    FlushHides(w0, ls, c, i, m);
  }

  lemma CutoffOf(w0: World, w: World, c: nat, i: nat)
    requires SinceFlush(w0, w, c) && |w0.history| <= i < |w.history| && w.history[i].Did?
    ensures Early(w0, w.history[i].call) || w.history[i].cutoff == Some(c)
  {
  }

  /**
   * A call that read its clock at or after the cutoff, and the cutoff after the flush, misses an item
   * not past its own expiry exactly when the clock reading of the item's last base is before the
   * cutoff, however late that base was done.
   */
  lemma MissedExactly(w0: World, ls: seq<Label>, c: nat, i: nat, m: nat)
    requires RetrievalUnder(w0, ls, c, i, m)
    requires var h := Exec(w0, ls).history;
             && !Early(w0, h[i].call) && h[i].now >= c
             && !Content(h[..i], h[i].key).value.TimedOut(h[i].now)
    ensures var h := Exec(w0, ls).history; !h[i].reply.Hit? <==> h[m].now < c
  {
    hide Exec, Content;
    FlushHides(w0, ls, c, i, m);
  }

  /**
   * To a call that read its cutoff after the flush, the cutoff hides nothing whose base read its clock at or
   * after it.
   */
  lemma NothingNewerHidden(w0: World, ls: seq<Label>, c: nat, i: nat, m: nat)
    requires RetrievalUnder(w0, ls, c, i, m)
    requires var h := Exec(w0, ls).history; h[m].now >= c && !Early(w0, h[i].call)
    ensures var h := Exec(w0, ls).history;
            h[i].reply.Hit? <==> !Content(h[..i], h[i].key).value.TimedOut(h[i].now)
  {
    hide Exec, Content;
    FlushHides(w0, ls, c, i, m);
  }

  /**
   * A value returned in the run that does not descend from a set, add, replace or cas done at or
   * after the cutoff goes to a call that read its clock before the cutoff was due, or had read
   * another cutoff before this one was set; to no other.
   */
  lemma DelayedFlushHolds(w0: World, ls: seq<Label>, c: nat, i: nat)
    requires Inv(w0) && w0.oldestLive == c > 0
    requires forall l :: l in ls ==> !l.StoreCutoff?
    requires var h := Exec(w0, ls).history; |w0.history| <= i < |h| && h[i].Did? && h[i].reply.Hit?
    ensures var h := Exec(w0, ls).history;
            || (exists m: nat :: LastBase(h[..i], h[i].key, m) && h[..i][m].now >= c)
            || h[i].now < c
            || (Early(w0, h[i].call) && h[i].cutoff != Some(c))
  {
    hide Exec, Content;
    ExecKeeps(w0, ls);
    var h := Exec(w0, ls).history;
    HitHasBase(h, i);
    var m: nat :| LastBase(h[..i], h[i].key, m);
    FlushHides(w0, ls, c, i, m);
  }
}
