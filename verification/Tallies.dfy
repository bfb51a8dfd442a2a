// The statistics counters under concurrent callers: between the call and its result they are out of
// balance, and they are back in balance whenever no call is under way.
module Tallies {
  import opened Bytes
  import opened Commands
  import opened Items
  import opened Stores
  import opened Eager
  import opened Histories
  import opened Interleavings

  datatype Kind = Retrieval | Storage | Increment | Decrement | Touching | Removal

  function KindOf(op: KeyOp): Kind {
    match op
    case Fetch => Retrieval
    case FetchTouch(_) => Retrieval
    case Put(_, _) => Storage
    case Erase => Removal
    case Adjust(aop, _) => if aop == Incr then Increment else Decrement
    case Retouch(_) => Touching
  }

  /** The counter of calls is bumped before a call acts: for `n` keys of one kind. */
  function Asked(s: Counters, kind: Kind, n: nat): Counters {
    match kind
    case Retrieval => s.(cmdGet := s.cmdGet + n)
    case Storage => s.(cmdSet := s.cmdSet + n)
    case Increment => s.(cmdIncr := s.cmdIncr + n)
    case Decrement => s.(cmdDecr := s.cmdDecr + n)
    case Touching => s.(cmdTouch := s.cmdTouch + n)
    case Removal => s
  }

  /** The counters of results are bumped after an action, by what it was and how it went. */
  function Scored(s: Counters, e: Event): Counters {
    if !e.Did? then s
    else
      match e.op
      case Fetch => Seen(s, e.reply)
      case FetchTouch(_) => Seen(s, e.reply)
      case Put(op, _) =>
        s.(totalItems := s.totalItems + One(e.reply == Says(Stored)),
           casHits := s.casHits + One(op == Cas && e.reply == Says(Stored)),
           casBadval := s.casBadval + One(op == Cas && e.reply == Says(Exists)),
           casMisses := s.casMisses + One(op == Cas && e.reply == Says(NotFound)))
      case Erase =>
        s.(deleteHits := s.deleteHits + One(e.reply == Says(Deleted)),
           deleteMisses := s.deleteMisses + One(e.reply == Says(NotFound)))
      case Adjust(Incr, _) =>
        s.(incrHits := s.incrHits + One(e.reply.Says? && e.reply.response.Number?),
           incrMisses := s.incrMisses + One(e.reply == Says(NotFound)))
      case Adjust(Decr, _) =>
        s.(decrHits := s.decrHits + One(e.reply.Says? && e.reply.response.Number?),
           decrMisses := s.decrMisses + One(e.reply == Says(NotFound)))
      case Retouch(_) =>
        s.(touchHits := s.touchHits + One(e.reply == Says(Touched)),
           touchMisses := s.touchMisses + One(e.reply == Says(NotFound)))
  }

  /** For a command on one key the two together are what the sequential store counts. */
  lemma SameTally(s: Counters, c: Command, e: Event)
    requires SingleOp(c).Some? && e.Did? && e.op == SingleOp(c).value.1 && e.reply.Says?
    ensures Scored(Asked(s, KindOf(e.op), 1), e) == Tally(s, c, e.reply.response)
  {
  }

  // ---- The counters along a run ----

  datatype Counted = Counted(world: World, stats: Counters)

  /** What a step asks for: a call counts when it begins, a touch when it has its token. */
  function AskedBy(w: World, l: Label): (Kind, nat) {
    match l
    case Begin(op, keys) =>
      if (NeedsToken(op) && |keys| != 1) || op.Retouch? then (Removal, 0) else (KindOf(op), |keys|)
    case TakeToken(id) =>
      if id in w.calls && w.calls[id].stage.Bounded? && w.calls[id].op.Retouch? then (Touching, 1) else (Removal, 0)
    case _ => (Removal, 0)
  }

  function CountStep(x: Counted, l: Label): Counted {
    var w1 := Step(x.world, l);
    var (kind, n) := AskedBy(x.world, l);
    var s := Asked(x.stats, kind, n);
    Counted(w1, if |w1.history| > |x.world.history| then Scored(s, w1.history[|w1.history| - 1]) else s)
  }

  function CountRun(ls: seq<Label>): Counted {
    if ls == [] then Counted(START, NO_COUNTS) else CountStep(CountRun(ls[..|ls| - 1]), ls[|ls| - 1])
  }

  lemma {:induction false} CountsAside(ls: seq<Label>)
    ensures CountRun(ls).world == Exec(START, ls)
  {
    hide Step, Scored, Asked;
    if ls != [] {
      CountsAside(ls[..|ls| - 1]);
    }
  }

  // ---- Books ----

  predicate Finishes(e: Event, kind: Kind) {
    match e
    case Did(_, _, op, _, _, _, _, _, _, _) => KindOf(op) == kind
    case Superseded(_, _, _) => kind == Storage
    case Dropped(_) => false
  }

  /** How many actions of a kind a history has. */
  function Finished(h: History, kind: Kind): nat {
    if h == [] then 0 else Finished(h[..|h| - 1], kind) + One(Finishes(h[|h| - 1], kind))
  }

  /** How many actions a counted call has still to do. */
  function Weight(c: Call, kind: Kind): nat {
    if KindOf(c.op) == kind && (c.op.Retouch? ==> c.stage.HasToken()) then |c.todo| else 0
  }

  function WeightAt(calls: map<nat, Call>, id: nat, kind: Kind): nat {
    if id in calls then Weight(calls[id], kind) else 0
  }

  function Pending(calls: map<nat, Call>, n: nat, kind: Kind): nat {
    if n == 0 then 0 else Pending(calls, n - 1, kind) + WeightAt(calls, n - 1, kind)
  }

  lemma {:induction false} PendingMoves(calls: map<nat, Call>, calls1: map<nat, Call>, n: nat, id: nat, kind: Kind)
    requires forall a: nat | a < n && a != id :: WeightAt(calls1, a, kind) == WeightAt(calls, a, kind)
    ensures Pending(calls1, n, kind) - Pending(calls, n, kind) ==
            if id < n then WeightAt(calls1, id, kind) - WeightAt(calls, id, kind) else 0
  {
    hide WeightAt;
    if n > 0 {
      PendingMoves(calls, calls1, n - 1, id, kind);
    }
  }

  function CallsOf(s: Counters, kind: Kind): nat {
    match kind
    case Retrieval => s.cmdGet
    case Storage => s.cmdSet
    case Increment => s.cmdIncr
    case Decrement => s.cmdDecr
    case Touching => s.cmdTouch
    case Removal => 0
  }

  /** Every action asked for is done or under way. */
  ghost predicate CallsBalance(x: Counted) {
    forall kind: Kind :: kind != Removal ==>
      CallsOf(x.stats, kind) == Finished(x.world.history, kind) + Pending(x.world.calls, x.world.nextId, kind)
  }

  lemma CallsCounted(s: Counters, kind: Kind, n: nat, k: Kind)
    requires k != Removal
    ensures CallsOf(Asked(s, kind, n), k) == CallsOf(s, k) + (if k == kind then n else 0)
  {
  }

  lemma CallsScored(s: Counters, e: Event, k: Kind)
    requires k != Removal
    ensures CallsOf(Scored(s, e), k) == CallsOf(s, k)
  {
  }

  /** What a step changes: the weight of one call at most, and one event at most. */
  ghost predicate OneMoves(w: World, w1: World, l: Label, kind: Kind, id: nat) {
    var done := |w1.history| > |w.history| && Finishes(w1.history[|w1.history| - 1], kind);
    var (k, n) := AskedBy(w, l);
    && (forall a: nat :: a != id ==> WeightAt(w1.calls, a, kind) == WeightAt(w.calls, a, kind))
    && WeightAt(w1.calls, id, kind) + One(done) == WeightAt(w.calls, id, kind) + (if k == kind then n else 0)
    && (id in w1.calls ==> id < w1.nextId) && w.nextId <= w1.nextId <= w.nextId + 1
  }

  lemma EnterMoves(w: World, id: nat, cancels: bool, kind: Kind)
    requires WellFormed(w) && MayEnter(w, id) && kind != Removal
    ensures OneMoves(w, EnterStep(w, id, cancels), Enter(id, cancels), kind, id)
  {
    hide OneMoves, EnterStep, WellFormed;
    if Reserves(w, id) {
      ReserveMoves(w, id, cancels, kind);
    } else {
      ActMoves(w, id, cancels, kind);
    }
  }

  lemma ReserveMoves(w: World, id: nat, cancels: bool, kind: Kind)
    requires WellFormed(w) && MayEnter(w, id) && Reserves(w, id) && kind != Removal
    ensures OneMoves(w, EnterStep(w, id, cancels), Enter(id, cancels), kind, id)
  {
  }

  lemma ActMoves(w: World, id: nat, cancels: bool, kind: Kind)
    requires WellFormed(w) && MayEnter(w, id) && !Reserves(w, id) && kind != Removal
    ensures OneMoves(w, EnterStep(w, id, cancels), Enter(id, cancels), kind, id)
  {
    hide Act;
  }

  lemma InsertMoves(w: World, id: nat, kind: Kind)
    requires WellFormed(w) && MayInsert(w, id) && kind != Removal
    ensures OneMoves(w, InsertStep(w, id), InsertGuard(id), kind, id)
  {
    hide Act;
  }

  /** The call a step is about. */
  function Mover(w: World, l: Label): nat {
    match l
    case LoadCutoff(id) => id
    case TakeToken(id) => id
    case Enter(id, _) => id
    case InsertGuard(id) => id
    case _ => w.nextId
  }

  lemma StepMoves(w: World, l: Label, kind: Kind)
    requires WellFormed(w) && kind != Removal
    ensures OneMoves(w, Step(w, l), l, kind, Mover(w, l))
  {
    hide EnterStep, InsertStep, OneMoves;
    if l.Enter? && MayEnter(w, l.id) {
      EnterMoves(w, l.id, l.cancels, kind);
    } else if l.InsertGuard? && MayInsert(w, l.id) {
      InsertMoves(w, l.id, kind);
    } else {
      OtherMoves(w, l, kind);
    }
  }

  lemma OtherMoves(w: World, l: Label, kind: Kind)
    requires WellFormed(w) && kind != Removal
    requires !(l.Enter? && MayEnter(w, l.id)) && !(l.InsertGuard? && MayInsert(w, l.id))
    ensures OneMoves(w, Step(w, l), l, kind, Mover(w, l))
  {
    hide OneMoves, Step, WellFormed, MayEnter, MayInsert;
    if l.Begin? {
      BeginMoves(w, l.op, l.keys, kind);
    } else if l.TakeToken? {
      TakeTokenMoves(w, l.id, kind);
    } else {
      RestMoves(w, l, kind);
    }
  }

  lemma BeginMoves(w: World, op: KeyOp, keys: seq<bytes>, kind: Kind)
    requires WellFormed(w) && kind != Removal
    ensures OneMoves(w, Step(w, Begin(op, keys)), Begin(op, keys), kind, w.nextId)
  {
  }

  lemma TakeTokenMoves(w: World, id: nat, kind: Kind)
    requires WellFormed(w) && kind != Removal
    ensures OneMoves(w, Step(w, TakeToken(id)), TakeToken(id), kind, id)
  {
  }

  lemma RestMoves(w: World, l: Label, kind: Kind)
    requires WellFormed(w) && kind != Removal && !l.Begin? && !l.TakeToken?
    requires !(l.Enter? && MayEnter(w, l.id)) && !(l.InsertGuard? && MayInsert(w, l.id))
    ensures OneMoves(w, Step(w, l), l, kind, Mover(w, l))
  {
    hide EnterStep, InsertStep;
  }

  lemma StepBalances(x: Counted, l: Label)
    requires CallsBalance(x) && WellFormed(x.world)
    ensures CallsBalance(CountStep(x, l))
  {
    var w, y := x.world, CountStep(x, l);
    var w1 := y.world;
    forall kind: Kind | kind != Removal
      ensures CallsOf(y.stats, kind) == Finished(w1.history, kind) + Pending(w1.calls, w1.nextId, kind)
    {
      KindBalances(x, l, kind);
    }
  }

  lemma KindBalances(x: Counted, l: Label, kind: Kind)
    requires CallsBalance(x) && WellFormed(x.world) && kind != Removal
    ensures var y := CountStep(x, l);
            CallsOf(y.stats, kind) == Finished(y.world.history, kind) + Pending(y.world.calls, y.world.nextId, kind)
  {
    hide Step, WeightAt, Scored, Asked, AskedBy, CallsOf, Finishes;
    var w, w1, id := x.world, Step(x.world, l), Mover(x.world, l);
    StepMoves(w, l, kind);
    PendingMoves(w.calls, w1.calls, w.nextId, id, kind);
    AbsentWeighsNothing(w.calls, w.nextId, kind);
    AbsentWeighsNothing(w.calls, id, kind);
    AbsentWeighsNothing(w1.calls, id, kind);
    StepAppends(w, l);
    var (k, n) := AskedBy(w, l);
    CallsCounted(x.stats, k, n, kind);
    if w1.history != w.history {
      CallsScored(Asked(x.stats, k, n), w1.history[|w1.history| - 1], kind);
    }
  }

  lemma AbsentWeighsNothing(calls: map<nat, Call>, id: nat, kind: Kind)
    ensures id !in calls ==> WeightAt(calls, id, kind) == 0
  {
  }

  lemma StepAppends(w: World, l: Label)
    ensures var h1 := Step(w, l).history; h1 == w.history || (h1 != [] && h1[..|h1| - 1] == w.history)
  {
    hide Act;
  }

  // ---- Results ----

  /** How many arithmetic commands of a kind found something that is no number. */
  function Failed(h: History, op: ArithmeticOp): nat {
    if h == [] then 0
    else
      var e := h[|h| - 1];
      Failed(h[..|h| - 1], op) + One(e.Did? && e.op.Adjust? && e.op.arith == op && e.reply == Says(NonNumeric(op)))
  }

  /** How many STORED replies a history has. */
  function StoredReplies(h: History): nat {
    if h == [] then 0
    else StoredReplies(h[..|h| - 1]) + One(h[|h| - 1].Did? && h[|h| - 1].reply == Says(Stored))
  }

  /** Every action done is counted by how it went. */
  predicate ResultsBalance(s: Counters, h: History) {
    && s.getHits + s.getMisses == Finished(h, Retrieval)
    && s.touchHits + s.touchMisses == Finished(h, Touching)
    && s.incrHits + s.incrMisses + Failed(h, Incr) == Finished(h, Increment)
    && s.decrHits + s.decrMisses + Failed(h, Decr) == Finished(h, Decrement)
    && s.deleteHits + s.deleteMisses == Finished(h, Removal)
    && s.totalItems == StoredReplies(h)
    && s.casHits + s.casBadval + s.casMisses <= Finished(h, Storage)
  }

  /** The replies each operation can get. */
  lemma RepliesOf(op: KeyOp, slot: Option<Item>, now: nat, cutoff: Option<nat>, token: nat)
    ensures var r := Act(op, slot, now, cutoff, token).1;
            match op
            case Fetch => !r.Says?
            case FetchTouch(_) => !r.Says?
            case Put(_, _) => r.Says?
            case Erase => r == Says(Deleted) || r == Says(NotFound)
            case Adjust(aop, _) => r.Says?
                && (r.response.Number? || r.response == NotFound || r.response == NonNumeric(aop))
            case Retouch(_) => r == Says(Touched) || r == Says(NotFound)
  {
    hide ParseNumber, Decimal, ResolveExpiry, Joined, NonNumeric;
  }

  lemma OneMoreResult(s: Counters, h: History, e: Event)
    requires ResultsBalance(s, h)
    requires e.Did? ==> exists slot :: e.reply == Act(e.op, slot, e.now, e.cutoff, e.token).1
    ensures ResultsBalance(Scored(s, e), h + [e])
  {
    hide Act, Finished, Failed, StoredReplies;
    BooksExtend(h, e);
    if e.Did? {
      var slot :| e.reply == Act(e.op, slot, e.now, e.cutoff, e.token).1;
      RepliesOf(e.op, slot, e.now, e.cutoff, e.token);
    }
  }

  lemma BooksExtend(h: History, e: Event)
    ensures forall kind: Kind :: Finished(h + [e], kind) == Finished(h, kind) + One(Finishes(e, kind))
    ensures forall op: ArithmeticOp :: Failed(h + [e], op) == Failed(h, op)
              + One(e.Did? && e.op.Adjust? && e.op.arith == op && e.reply == Says(NonNumeric(op)))
    ensures StoredReplies(h + [e]) == StoredReplies(h) + One(e.Did? && e.reply == Says(Stored))
  {
    assert (h + [e])[..|h|] == h;
  }

  lemma AskingKeepsResults(s: Counters, h: History, kind: Kind, n: nat)
    requires ResultsBalance(s, h)
    ensures ResultsBalance(Asked(s, kind, n), h)
  {
    hide Finished, Failed, StoredReplies;
  }

  lemma StepResults(x: Counted, l: Label)
    requires ResultsBalance(x.stats, x.world.history) && Inv(x.world)
    ensures ResultsBalance(CountStep(x, l).stats, CountStep(x, l).world.history)
  {
    hide Step, ResultsBalance, Scored, Asked, AskedBy, Inv, Act;
    var w, w1 := x.world, Step(x.world, l);
    var (k, n) := AskedBy(w, l);
    AskingKeepsResults(x.stats, w.history, k, n);
    StepAppends(w, l);
    StepKeeps(w, l);
    if w1.history != w.history {
      var e := w1.history[|w1.history| - 1];
      LastIsSound(w1);
      assert w1.history == w.history + [e];
      OneMoreResult(Asked(x.stats, k, n), w.history, e);
    }
  }

  lemma LastIsSound(w: World)
    requires Inv(w) && w.history != []
    ensures var e := w.history[|w.history| - 1];
            e.Did? ==> exists slot :: e.reply == Act(e.op, slot, e.now, e.cutoff, e.token).1
  {
    hide Act, TokensApart, WellFormed, Content;
    var n := |w.history| - 1;
    assert EventOk(w.history[..n], w.history[n]);
  }

  ghost predicate Balances(x: Counted) {
    CallsBalance(x) && ResultsBalance(x.stats, x.world.history)
  }

  lemma {:induction false} RunBalances(ls: seq<Label>)
    ensures Balances(CountRun(ls))
  {
    hide CountStep, Balances, Inv, Exec;
    if ls == [] {
      StartBalances();
    } else {
      var before := ls[..|ls| - 1];
      RunBalances(before);
      CountsAside(before);
      EveryRun(before);
      CountBalances(CountRun(before), ls[|ls| - 1]);
    }
  }

  lemma CountBalances(x: Counted, l: Label)
    requires Balances(x) && Inv(x.world)
    ensures Balances(CountStep(x, l))
  {
    hide CountStep, CallsBalance, ResultsBalance, Inv;
    InvWellFormed(x.world);
    StepBalances(x, l);
    StepResults(x, l);
  }

  lemma InvWellFormed(w: World)
    requires Inv(w)
    ensures WellFormed(w)
  {
  }

  lemma StartBalances()
    ensures Balances(Counted(START, NO_COUNTS))
  {
    hide ResultsBalance, Finished, Pending, CallsOf;
    NoResults(NO_COUNTS, START.history);
    forall kind: Kind ensures CallsOf(NO_COUNTS, kind)
        == Finished(START.history, kind) + Pending(START.calls, 0, kind) {
      NothingFinished(START.history, kind);
      NothingCalled(START.calls, kind);
    }
  }

  lemma NothingCalled(calls: map<nat, Call>, kind: Kind)
    ensures CallsOf(NO_COUNTS, kind) == 0 && Pending(calls, 0, kind) == 0
  {
  }

  lemma NothingFinished(h: History, kind: Kind)
    requires h == []
    ensures Finished(h, kind) == 0
  {
  }

  lemma NothingFailed(h: History, op: ArithmeticOp)
    requires h == []
    ensures Failed(h, op) == 0 && StoredReplies(h) == 0
  {
  }

  lemma NoResults(s: Counters, h: History)
    requires s == NO_COUNTS && h == []
    ensures ResultsBalance(s, h)
  {
    hide Finished, Failed, StoredReplies;
    NothingFinished(h, Retrieval);
    NothingFinished(h, Touching);
    NothingFinished(h, Increment);
    NothingFinished(h, Decrement);
    NothingFinished(h, Removal);
    NothingFailed(h, Incr);
    NothingFailed(h, Decr);
  }

  /** No call has anything left to do. */
  predicate Quiet(w: World) {
    forall id :: id in w.calls ==> w.calls[id].todo == []
  }

  lemma {:induction false} QuietPendsNothing(calls: map<nat, Call>, n: nat, kind: Kind)
    requires forall id :: id in calls ==> calls[id].todo == []
    ensures Pending(calls, n, kind) == 0
  {
    if n > 0 {
      QuietPendsNothing(calls, n - 1, kind);
    }
  }

  /** In every interleaving the counters add up whenever no call is under way. */
  lemma CountersSettle(ls: seq<Label>)
    requires Quiet(Exec(START, ls))
    ensures var s, h := CountRun(ls).stats, Exec(START, ls).history;
            && s.cmdGet == s.getHits + s.getMisses
            && s.cmdTouch == s.touchHits + s.touchMisses
            && s.cmdIncr == s.incrHits + s.incrMisses + Failed(h, Incr)
            && s.cmdDecr == s.decrHits + s.decrMisses + Failed(h, Decr)
            && s.totalItems == StoredReplies(h)
            && s.casHits + s.casBadval + s.casMisses <= s.cmdSet
  {
    hide CountRun, Exec, Finished, Failed, StoredReplies;
    CountsAside(ls);
    RunBalances(ls);
    var w := Exec(START, ls);
    forall kind: Kind ensures Pending(w.calls, w.nextId, kind) == 0 {
      QuietPendsNothing(w.calls, w.nextId, kind);
    }
    assert forall kind: Kind :: kind != Removal ==> CallsOf(CountRun(ls).stats, kind) == Finished(w.history, kind);
    assert CallsOf(CountRun(ls).stats, Retrieval) == CountRun(ls).stats.cmdGet;
  }
}
