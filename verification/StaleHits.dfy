// Two runs in which an item from before a delayed flush is returned after the flush has come due, the
// two causes that Interleavings.StaleExactly leaves, and one in which an item from after it is missed,
// as Interleavings.MissedExactly says.
module StaleHits {
  import opened Bytes
  import opened Commands
  import opened Items
  import opened Histories
  import opened Interleavings

  const KEY: bytes := "a"
  const SET: KeyOp := Put(Set, StoreArgs(KEY, 0, 0, "x", false, None))
  const ITEM: Item := Item("x", 0, None, 1, 100)
  const SET_EVENT: Event := Did(0, KEY, SET, 100, 100, None, 1, None, Some(ITEM), Says(Stored))

  // At 100 the key is set.
  const SETTING: seq<Label> := [Tick(100), Begin(SET, [KEY]), LoadCutoff(0), TakeToken(0), Enter(0, false)]
  const AFTER_SET: World := World(map[KEY := Full(ITEM)], 2, 0, 100, map[], map[], 1, [SET_EVENT])

  lemma SettingDone()
    ensures Exec(START, SETTING) == AFTER_SET
  {
    var w1 := Step(START, Tick(100));
    var w2 := Step(w1, Begin(SET, [KEY]));
    var w3 := Step(w2, LoadCutoff(0));
    var w4 := Step(w3, TakeToken(0));
    assert w4 == World(map[], 2, 0, 100, map[0 := Call(SET, [KEY], 100, Armed(None, 1))], map[], 1, []);
    var w5 := Step(w4, Enter(0, false));
    assert w5.calls == map[];
    Unrolled(START, SETTING);
  }

  lemma Unrolled(w: World, ls: seq<Label>)
    requires |ls| == 5
    ensures Exec(w, ls) == Step(Step(Step(Step(Step(w, ls[0]), ls[1]), ls[2]), ls[3]), ls[4])
  {
    hide Step;
    assert ls[..4][..3] == ls[..3] && ls[..3][..2] == ls[..2] && ls[..2][..1] == ls[..1] && ls[..1][..0] == [];
    assert Exec(w, ls[..1]) == Step(w, ls[0]);
    assert Exec(w, ls[..2]) == Step(Exec(w, ls[..1]), ls[1]);
    assert Exec(w, ls[..3]) == Step(Exec(w, ls[..2]), ls[2]);
    assert Exec(w, ls[..4]) == Step(Exec(w, ls[..3]), ls[3]);
  }

  lemma ExecMore(w: World, ls: seq<Label>, l: Label)
    ensures Exec(w, ls + [l]) == Step(Exec(w, ls), l)
  {
    hide Step;
    assert (ls + [l])[..|ls|] == ls;
  }

  lemma ExecOne(w: World, l: Label)
    ensures Exec(w, [l]) == Step(w, l)
  {
    hide Step;
    assert [l][..0] == [];
  }

  /** In `ls` from `w0` on, whose cutoff is 110, the item stored at 100 is returned at the time `at`. */
  ghost predicate ReturnsStale(w0: World, ls: seq<Label>, at: nat) {
    && w0.oldestLive == 110 && w0.history == [SET_EVENT] && (forall l :: l in ls ==> !l.StoreCutoff?)
    && var h := Exec(w0, ls).history;
       && |h| == 2 && h[0] == SET_EVENT && LastBase(h[..1], KEY, 0)
       && h[1].Did? && h[1].key == KEY && h[1].op == Fetch && h[1].reply.Hit? && h[1].reply.data == "x" && h[1].at == at
  }

  // The call has read the clock at 100; the flush sets 110; the call reads that cutoff, and acts at 150.
  const SLOW_BEFORE: seq<Label> := SETTING + [Begin(Fetch, [KEY])] + [BeginFlush(10)] + [StoreCutoff(2)]
  const SLOW_AFTER: seq<Label> := [LoadCutoff(1)] + [Tick(50)] + [Enter(1, false)]

  const SLOW_WORLD: World :=
    World(map[KEY := Full(ITEM)], 2, 110, 100, map[1 := Call(Fetch, [KEY], 100, Started)], map[], 3, [SET_EVENT])

  lemma SlowBefore()
    ensures Exec(START, SLOW_BEFORE) == SLOW_WORLD
  {
    hide Exec;
    SettingDone();
    ExecMore(START, SETTING, Begin(Fetch, [KEY]));
    ExecMore(START, SETTING + [Begin(Fetch, [KEY])], BeginFlush(10));
    ExecMore(START, SETTING + [Begin(Fetch, [KEY])] + [BeginFlush(10)], StoreCutoff(2));
    assert Step(Step(Step(AFTER_SET, Begin(Fetch, [KEY])), BeginFlush(10)), StoreCutoff(2)) == SLOW_WORLD;
  }

  lemma SlowClockRun()
    ensures var w0 := Exec(START, SLOW_BEFORE);
            && ReturnsStale(w0, SLOW_AFTER, 150)
            && var e := Exec(w0, SLOW_AFTER).history[1];
               !Early(w0, e.call) && e.cutoff == Some(110) && e.now == 100
  {
    hide Exec;
    SlowBefore();
    var w0 := SLOW_WORLD;
    ExecOne(w0, LoadCutoff(1));
    ExecMore(w0, [LoadCutoff(1)], Tick(50));
    ExecMore(w0, [LoadCutoff(1)] + [Tick(50)], Enter(1, false));
    var w2 := Step(Step(w0, LoadCutoff(1)), Tick(50));
    assert w2 == World(map[KEY := Full(ITEM)], 2, 110, 150, map[1 := Call(Fetch, [KEY], 100, Bounded(Some(110)))],
        map[], 3, [SET_EVENT]);
    FetchShows(w2, 1, 100, Some(110));
    BaseIsFirst(Step(w2, Enter(1, false)).history);
  }

  lemma FetchShows(w: World, id: nat, now: nat, cutoff: Option<nat>)
    requires w.cells == map[KEY := Full(ITEM)] && w.history == [SET_EVENT]
    requires id in w.calls && w.calls[id] == Call(Fetch, [KEY], now, Bounded(cutoff)) && !ITEM.IsExpired(now, cutoff)
    ensures Step(w, Enter(id, false)).history
         == [SET_EVENT, Did(id, KEY, Fetch, w.clock, now, cutoff, w.nextCas, Some(ITEM), Some(ITEM), Hit(0, "x", 1))]
  {
  }

  lemma BaseIsFirst(h: History)
    requires |h| == 2 && h[0] == SET_EVENT
    ensures LastBase(h[..1], KEY, 0)
  {
  }

  // The flush works out 110 at 100; the call reads the clock at 120 and no cutoff; then the flush sets
  // its cutoff, and the call acts.
  const EARLY_BEFORE: seq<Label> :=
    SETTING + [BeginFlush(10)] + [Tick(20)] + [Begin(Fetch, [KEY])] + [LoadCutoff(2)] + [StoreCutoff(1)]
  const EARLY_AFTER: seq<Label> := [Enter(2, false)]

  const EARLY_WORLD: World :=
    World(map[KEY := Full(ITEM)], 2, 110, 120, map[2 := Call(Fetch, [KEY], 120, Bounded(None))], map[], 3, [SET_EVENT])

  lemma EarlyBefore()
    ensures Exec(START, EARLY_BEFORE) == EARLY_WORLD
  {
    hide Exec;
    SettingDone();
    var r1 := SETTING + [BeginFlush(10)];
    var r2 := r1 + [Tick(20)];
    var r3 := r2 + [Begin(Fetch, [KEY])];
    ExecMore(START, SETTING, BeginFlush(10));
    ExecMore(START, r1, Tick(20));
    ExecMore(START, r2, Begin(Fetch, [KEY]));
    ExecMore(START, r3, LoadCutoff(2));
    ExecMore(START, r3 + [LoadCutoff(2)], StoreCutoff(1));
    var w3 := Step(Step(Step(AFTER_SET, BeginFlush(10)), Tick(20)), Begin(Fetch, [KEY]));
    assert w3 == World(map[KEY := Full(ITEM)], 2, 0, 120, map[2 := Call(Fetch, [KEY], 120, Started)], map[1 := 110], 3,
        [SET_EVENT]);
    assert Step(Step(w3, LoadCutoff(2)), StoreCutoff(1)) == EARLY_WORLD;
  }

  lemma EarlyCutoffRun()
    ensures var w0 := Exec(START, EARLY_BEFORE);
            && ReturnsStale(w0, EARLY_AFTER, 120)
            && var e := Exec(w0, EARLY_AFTER).history[1];
               Early(w0, e.call) && e.cutoff == None && e.now == 120
  {
    hide Exec;
    EarlyBefore();
    var w0 := EARLY_WORLD;
    ExecOne(w0, Enter(2, false));
    FetchShows(w0, 2, 120, None);
    BaseIsFirst(Step(w0, Enter(2, false)).history);
  }

  // ---- The same on the side of the writer ----

  // The writing call has read the clock at 100; the flush sets 110; the write is done at 150.
  const LATE_EVENT: Event := Did(0, KEY, SET, 150, 100, Some(110), 1, None, Some(ITEM), Says(Stored))
  const LATE_BEFORE: seq<Label> := [Tick(100)] + [Begin(SET, [KEY])] + [BeginFlush(10)] + [StoreCutoff(1)]
  const LATE_AFTER: seq<Label> :=
    [LoadCutoff(0)] + [TakeToken(0)] + [Tick(50)] + [Enter(0, false)] + [Begin(Fetch, [KEY])] + [LoadCutoff(2)]
        + [Enter(2, false)]
  const LATE_WORLD: World := World(map[], 1, 110, 100, map[0 := Call(SET, [KEY], 100, Started)], map[], 2, [])
  const WRITTEN_WORLD: World := World(map[KEY := Full(ITEM)], 2, 110, 150, map[], map[], 2, [LATE_EVENT])
  const ASKED_WORLD: World :=
    World(map[KEY := Full(ITEM)], 2, 110, 150, map[2 := Call(Fetch, [KEY], 150, Bounded(Some(110)))], map[], 3,
        [LATE_EVENT])

  lemma LateBefore()
    ensures Exec(START, LATE_BEFORE) == LATE_WORLD
  {
    hide Exec;
    var r1: seq<Label> := [Tick(100)];
    var r2 := r1 + [Begin(SET, [KEY])];
    ExecOne(START, Tick(100));
    ExecMore(START, r1, Begin(SET, [KEY]));
    ExecMore(START, r2, BeginFlush(10));
    ExecMore(START, r2 + [BeginFlush(10)], StoreCutoff(1));
    assert Step(Step(Step(Step(START, Tick(100)), Begin(SET, [KEY])), BeginFlush(10)), StoreCutoff(1)) == LATE_WORLD;
  }

  lemma LateWrite()
    ensures Exec(LATE_WORLD, [LoadCutoff(0)] + [TakeToken(0)] + [Tick(50)] + [Enter(0, false)]) == WRITTEN_WORLD
  {
    hide Exec;
    var r1: seq<Label> := [LoadCutoff(0)];
    var r2 := r1 + [TakeToken(0)];
    ExecOne(LATE_WORLD, LoadCutoff(0));
    ExecMore(LATE_WORLD, r1, TakeToken(0));
    ExecMore(LATE_WORLD, r2, Tick(50));
    ExecMore(LATE_WORLD, r2 + [Tick(50)], Enter(0, false));
    var w3 := Step(Step(Step(LATE_WORLD, LoadCutoff(0)), TakeToken(0)), Tick(50));
    assert w3 == World(map[], 2, 110, 150, map[0 := Call(SET, [KEY], 100, Armed(Some(110), 1))], map[], 2, []);
    assert Step(w3, Enter(0, false)).calls == map[];
  }

  /** An item stored at 150, without an expiry, is missed by a call that begins then: the cutoff was 110. */
  lemma LateWriteRun()
    ensures var w0 := Exec(START, LATE_BEFORE);
            var h := Exec(w0, LATE_AFTER).history;
            && w0.oldestLive == 110 && (forall l :: l in LATE_AFTER ==> !l.StoreCutoff?)
            && |h| == 2 && h[0] == LATE_EVENT && LastBase(h[..1], KEY, 0) && h[0].at == 150 && ITEM.expiresAt == None
            && h[1].Did? && h[1].key == KEY && h[1].op == Fetch && h[1].now == 150 && h[1].cutoff == Some(110)
            && !Early(w0, h[1].call) && h[1].reply == Miss
  {
    hide Exec;
    LateBefore();
    LateWrite();
    var r4 := [LoadCutoff(0)] + [TakeToken(0)] + [Tick(50)] + [Enter(0, false)];
    ExecMore(LATE_WORLD, r4, Begin(Fetch, [KEY]));
    ExecMore(LATE_WORLD, r4 + [Begin(Fetch, [KEY])], LoadCutoff(2));
    ExecMore(LATE_WORLD, r4 + [Begin(Fetch, [KEY])] + [LoadCutoff(2)], Enter(2, false));
    assert Step(Step(WRITTEN_WORLD, Begin(Fetch, [KEY])), LoadCutoff(2)) == ASKED_WORLD;
    FetchMisses();
  }

  lemma FetchMisses()
    ensures Step(ASKED_WORLD, Enter(2, false)).history
         == [LATE_EVENT, Did(2, KEY, Fetch, 150, 150, Some(110), 2, Some(ITEM), None, Miss)]
  {
  }
}
