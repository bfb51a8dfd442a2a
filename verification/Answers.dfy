// What every command answers and leaves behind, told from the items alone (src/store.rs, src/handler.rs).
module Answers {
  import opened Bytes
  import opened Commands
  import opened Items
  import opened Stores
  import opened Numbers

  /** The key holds an item that is neither past its expiry nor older than a flush that has come due. */
  predicate Alive(m: Model, k: bytes, now: nat) {
    && k in m.items
    && !(m.items[k].expiresAt.Some? && m.items[k].expiresAt.value <= now)
    && !(0 < m.oldestLive <= now && m.items[k].storedAt < m.oldestLive)
  }

  /** What a set, add, replace or cas stores. */
  function Fresh(m: Model, a: StoreArgs, now: nat): Item {
    Item(a.data, a.flags, ResolveExpiry(a.exptime, now), m.nextCas, now)
  }

  /** The key holds `item`, with the next token. */
  function Holding(m: Model, k: bytes, item: Item): Model {
    m.(items := m.items[k := item.(cas := m.nextCas)], nextCas := m.nextCas + 1)
  }

  /** The key holds nothing. */
  function Without(m: Model, k: bytes): Model {
    m.(items := m.items - {k})
  }

  /** A token was taken and not used. */
  function Spending(m: Model): Model {
    m.(nextCas := m.nextCas + 1)
  }

  lemma LiveIsAlive(m: Model, k: bytes, now: nat)
    ensures Alive(m, k, now) <==> k in m.items && !m.items[k].IsExpired(now, m.Cutoff())
  {
  }

  // ---- Storage ----

  lemma SetAnswers(m: Model, a: StoreArgs, now: nat)
    ensures Effect(m, Command.Store(Set, a), now) == (Holding(m, a.key, Fresh(m, a, now)), Stored)
  {
  }

  lemma AddAnswers(m: Model, a: StoreArgs, now: nat)
    ensures Effect(m, Command.Store(Add, a), now) ==
            if Alive(m, a.key, now) then (Spending(m), NotStored) else (Holding(m, a.key, Fresh(m, a, now)), Stored)
  {
    LiveIsAlive(m, a.key, now);
  }

  lemma ReplaceAnswers(m: Model, a: StoreArgs, now: nat)
    ensures Effect(m, Command.Store(Replace, a), now) ==
            if Alive(m, a.key, now) then (Holding(m, a.key, Fresh(m, a, now)), Stored)
            else (Spending(Without(m, a.key)), NotStored)
  {
    LiveIsAlive(m, a.key, now);
  }

  lemma AppendAnswers(m: Model, a: StoreArgs, now: nat)
    ensures Effect(m, Command.Store(Append, a), now) ==
            if Alive(m, a.key, now)
            then (Holding(m, a.key, m.items[a.key].(data := m.items[a.key].data + a.data)), Stored)
            else (Spending(Without(m, a.key)), NotStored)
  {
    LiveIsAlive(m, a.key, now);
  }

  lemma PrependAnswers(m: Model, a: StoreArgs, now: nat)
    ensures Effect(m, Command.Store(Prepend, a), now) ==
            if Alive(m, a.key, now)
            then (Holding(m, a.key, m.items[a.key].(data := a.data + m.items[a.key].data)), Stored)
            else (Spending(Without(m, a.key)), NotStored)
  {
    LiveIsAlive(m, a.key, now);
  }

  lemma CasAnswers(m: Model, a: StoreArgs, now: nat)
    ensures Effect(m, Command.Store(Cas, a), now) ==
            if a.cas == None then (Spending(m), ServerError("missing cas value"))
            else if !Alive(m, a.key, now) then (Spending(Without(m, a.key)), NotFound)
            else if a.cas == Some(m.items[a.key].cas) then (Holding(m, a.key, Fresh(m, a, now)), Stored)
            else (Spending(m), Exists)
  {
    LiveIsAlive(m, a.key, now);
  }

  // ---- Other commands on one key ----

  lemma DeleteAnswers(m: Model, k: bytes, noreply: bool, now: nat)
    ensures Effect(m, Command.Delete(k, noreply), now) ==
            (Without(m, k), if Alive(m, k, now) then Deleted else NotFound)
  {
    LiveIsAlive(m, k, now);
  }

  lemma TouchAnswers(m: Model, k: bytes, exptime: i64, noreply: bool, now: nat)
    ensures Effect(m, Command.Touch(k, exptime, noreply), now) ==
            if Alive(m, k, now)
            then (Holding(m, k, m.items[k].(expiresAt := ResolveExpiry(exptime, now))), Touched)
            else (Spending(Without(m, k)), NotFound)
  {
    LiveIsAlive(m, k, now);
  }

  /** Incrementing wraps around at 2^64. */
  lemma IncrAnswers(m: Model, k: bytes, delta: u64, noreply: bool, now: nat, n: u64)
    requires Alive(m, k, now) && Writes(m.items[k].data, n)
    ensures var sum: u64 := (n + delta) % 0x1_0000_0000_0000_0000;
            Effect(m, Command.Arithmetic(Incr, k, delta, noreply), now) ==
            (Holding(m, k, m.items[k].(data := Decimal(sum))), Number(sum))
  {
    hide ParseNumber, Writes, Decimal;
    LiveIsAlive(m, k, now);
    NumberIsWritten(m.items[k].data, n);
  }

  /** Decrementing stops at zero. */
  lemma DecrAnswers(m: Model, k: bytes, delta: u64, noreply: bool, now: nat, n: u64)
    requires Alive(m, k, now) && Writes(m.items[k].data, n)
    ensures var rest: u64 := if n >= delta then n - delta else 0;
            Effect(m, Command.Arithmetic(Decr, k, delta, noreply), now) ==
            (Holding(m, k, m.items[k].(data := Decimal(rest))), Number(rest))
  {
    hide ParseNumber, Writes, Decimal;
    LiveIsAlive(m, k, now);
    NumberIsWritten(m.items[k].data, n);
  }

  function NotNumeric(op: ArithmeticOp): Response {
    ClientError(if op == Incr then "cannot increment non-numeric value" else "cannot decrement non-numeric value")
  }

  ghost predicate Numeric(data: bytes) {
    exists n: nat :: n <= U64_MAX && Writes(data, n)
  }

  /** On anything else neither changes the item. */
  lemma TextAnswers(m: Model, op: ArithmeticOp, k: bytes, delta: u64, noreply: bool, now: nat)
    requires Alive(m, k, now) && !Numeric(m.items[k].data)
    ensures Effect(m, Command.Arithmetic(op, k, delta, noreply), now) ==
            (Spending(m), NotNumeric(op))
  {
    hide ParseNumber, Writes, Decimal;
    LiveIsAlive(m, k, now);
    if ParseNumber(m.items[k].data).Some? {
      NumberIsWritten(m.items[k].data, ParseNumber(m.items[k].data).value);
    }
  }

  lemma NothingAnswers(m: Model, op: ArithmeticOp, k: bytes, delta: u64, noreply: bool, now: nat)
    requires !Alive(m, k, now)
    ensures Effect(m, Command.Arithmetic(op, k, delta, noreply), now) == (Spending(Without(m, k)), NotFound)
  {
    LiveIsAlive(m, k, now);
  }

  // ---- Retrieval ----

  /**
   * One value for each key that is alive in `m`, in order, with its own flags and data; the tokens are
   * those of `after`.
   */
  function Shown(m: Model, after: Model, keys: seq<bytes>, withCas: bool, now: nat): seq<Value>
    requires forall k :: k in keys && Alive(m, k, now) ==> k in after.items
  {
    if keys == [] then []
    else
      var k := keys[|keys| - 1];
      Shown(m, after, keys[..|keys| - 1], withCas, now)
      + (if Alive(m, k, now)
         then [Value(k, m.items[k].flags, m.items[k].data, if withCas then Some(after.items[k].cas) else None)] else [])
  }

  /** The items that are alive in `m`, and those of other keys than `keys`, are as they were. */
  ghost predicate Kept(m: Model, m1: Model, keys: seq<bytes>, now: nat) {
    && m1 == m.(items := m1.items)
    && (forall k :: k in m1.items <==> k in m.items && (k in keys ==> Alive(m, k, now)))
    && (forall k :: k in m1.items ==> m1.items[k] == m.items[k])
  }

  lemma {:induction false} GetShows(m: Model, keys: seq<bytes>, withCas: bool, now: nat)
    ensures var (m1, r) := Effect(m, Get(keys, withCas), now);
            Kept(m, m1, keys, now) && r == Values(Shown(m, m, keys, withCas, now))
    decreases |keys|
  {
    if keys == [] {
    } else {
      var n := |keys| - 1;
      var k := keys[n];
      GetShows(m, keys[..n], withCas, now);
      var m1 := Effect(m, Get(keys[..n], withCas), now).0;
      assert keys == keys[..n] + [k];
      GetStep(m1, keys[..n], withCas, now, m, k);
      LiveIsAlive(m1, k, now);
      assert Alive(m1, k, now) <==> Alive(m, k, now);
    }
  }

  lemma GetStep(m1: Model, keys: seq<bytes>, withCas: bool, now: nat, m: Model, k: bytes)
    requires m1 == Effect(m, Get(keys, withCas), now).0
    ensures var (m2, r) := Effect(m, Get(keys + [k], withCas), now);
            if Alive(m1, k, now)
            then m2 == m1 && r == Values(Effect(m, Get(keys, withCas), now).1.values
                   + [Value(k, m1.items[k].flags, m1.items[k].data, if withCas then Some(m1.items[k].cas) else None)])
            else m2 == Without(m1, k) && r == Effect(m, Get(keys, withCas), now).1
  {
    hide Retrieve;
    OneMoreKey(m, keys, k, Fetch, withCas, now);
    LiveIsAlive(m1, k, now);
  }

  lemma OneMoreKey(m: Model, keys: seq<bytes>, k: bytes, op: KeyOp, withCas: bool, now: nat)
    ensures var (m1, vs) := Retrieve(m, keys, op, withCas, now);
            var (m2, reply) := OnKey(m1, k, op, now);
            Retrieve(m, keys + [k], op, withCas, now) == (m2, vs + ValuesOf(k, reply, withCas))
  {
    hide OnKey;
    assert (keys + [k])[..|keys|] == keys;
  }

  /** A gat of no keys shows nothing, and each further key is shown as the keys before it have left it. */
  lemma GatStep(m: Model, keys: seq<bytes>, k: bytes, exptime: i64, withCas: bool, now: nat)
    ensures Effect(m, GetAndTouch([], exptime, withCas), now) == (m, Values([]))
    ensures var (m1, r1) := Effect(m, GetAndTouch(keys, exptime, withCas), now);
            var (m2, r2) := Effect(m, GetAndTouch(keys + [k], exptime, withCas), now);
            if Alive(m1, k, now)
            then && m2 == Holding(m1, k, m1.items[k].(expiresAt := ResolveExpiry(exptime, now)))
                 && r2 == Values(r1.values
                      + [Value(k, m1.items[k].flags, m1.items[k].data,
                               if withCas then Some(m2.items[k].cas) else None)])
            else m2 == Without(m1, k) && r2 == r1
  {
    hide ResolveExpiry;
    OneMoreKey(m, keys, k, FetchTouch(exptime), withCas, now);
    LiveIsAlive(Effect(m, GetAndTouch(keys, exptime, withCas), now).0, k, now);
  }

  predicate Distinct(keys: seq<bytes>) {
    forall i, j :: 0 <= i < j < |keys| ==> keys[i] != keys[j]
  }

  /** Each key that was alive has the new expiry and a token of its own, not taken before; the others are gone. */
  ghost predicate Retouched(m: Model, m1: Model, keys: seq<bytes>, exptime: i64, now: nat) {
    && m1.oldestLive == m.oldestLive && m1.stats == m.stats && m.nextCas <= m1.nextCas
    && (forall k :: k !in keys ==> (k in m1.items <==> k in m.items) && (k in m.items ==> m1.items[k] == m.items[k]))
    && (forall k :: k in keys ==> (k in m1.items <==> Alive(m, k, now)))
    && (forall k :: k in keys && k in m1.items ==>
          && m1.items[k] == m.items[k].(expiresAt := ResolveExpiry(exptime, now), cas := m1.items[k].cas)
          && m.nextCas <= m1.items[k].cas < m1.nextCas)
  }

  lemma {:induction false} GatShows(m: Model, keys: seq<bytes>, exptime: i64, withCas: bool, now: nat)
    requires Distinct(keys)
    ensures var (m1, r) := Effect(m, GetAndTouch(keys, exptime, withCas), now);
            Retouched(m, m1, keys, exptime, now) && r == Values(Shown(m, m1, keys, withCas, now))
    decreases |keys|
  {
    hide ResolveExpiry, Effect, Retouched, Distinct;
    GatStep(m, [], [], exptime, withCas, now);
    if keys == [] {
      NoneRetouched(m, exptime, now);
    } else {
      var n := |keys| - 1;
      var init, k := keys[..n], keys[n];
      assert keys == init + [k];
      DistinctInit(keys);
      GatShows(m, init, exptime, withCas, now);
      GatStep(m, init, k, exptime, withCas, now);
      var m1 := Effect(m, GetAndTouch(init, exptime, withCas), now).0;
      var m2 := Effect(m, GetAndTouch(keys, exptime, withCas), now).0;
      RetouchedMore(m, m1, m2, init, k, exptime, now);
      ShownSame(m, m1, m2, init, withCas, now);
    }
  }

  lemma DistinctInit(keys: seq<bytes>)
    requires Distinct(keys) && keys != []
    ensures Distinct(keys[..|keys| - 1]) && keys[|keys| - 1] !in keys[..|keys| - 1]
  {
  }

  lemma NoneRetouched(m: Model, exptime: i64, now: nat)
    ensures Retouched(m, m, [], exptime, now)
  {
  }

  lemma RetouchedMore(m: Model, m1: Model, m2: Model, init: seq<bytes>, k: bytes, exptime: i64, now: nat)
    requires Retouched(m, m1, init, exptime, now) && k !in init
    requires m2 == if Alive(m1, k, now) then Holding(m1, k, m1.items[k].(expiresAt := ResolveExpiry(exptime, now)))
                   else Without(m1, k)
    ensures Retouched(m, m2, init + [k], exptime, now)
    ensures Alive(m1, k, now) <==> Alive(m, k, now)
    ensures Alive(m, k, now) ==> m1.items[k] == m.items[k]
    ensures forall j :: j in init && Alive(m, j, now) ==> j in m1.items && j in m2.items && m1.items[j] == m2.items[j]
  {
    hide ResolveExpiry;
  }

  lemma {:induction false} ShownSame(m: Model, m1: Model, m2: Model, keys: seq<bytes>, withCas: bool, now: nat)
    requires forall k :: k in keys && Alive(m, k, now) ==> k in m1.items && k in m2.items && m1.items[k] == m2.items[k]
    ensures Shown(m, m1, keys, withCas, now) == Shown(m, m2, keys, withCas, now)
    decreases |keys|
  {
    if keys != [] {
      ShownSame(m, m1, m2, keys[..|keys| - 1], withCas, now);
    }
  }

  // ---- The rest ----

  lemma FlushAnswers(m: Model, delay: Option<u32>, noreply: bool, now: nat)
    ensures Effect(m, FlushAll(delay, noreply), now) ==
            (if delay.Some? && delay.value > 0 then m.(oldestLive := now + delay.value) else m.(items := map[]), Okay)
  {
  }

  lemma OtherAnswers(m: Model, level: u32, noreply: bool, now: nat)
    ensures Effect(m, Command.Version, now) == (m, VersionIs("0.2.0"))
    ensures Effect(m, Command.Verbosity(level, noreply), now) == (m, Okay)
    ensures var (m1, r) := Effect(m, Command.Stats, now);
            && m1 == m && r.StatsReport?
            && ("cmd_get", Decimal(m.stats.cmdGet)) in r.entries && ("cmd_set", Decimal(m.stats.cmdSet)) in r.entries
            && ("get_hits", Decimal(m.stats.getHits)) in r.entries
            && ("get_misses", Decimal(m.stats.getMisses)) in r.entries
            && ("curr_items", Decimal(|m.items|)) in r.entries
            && ("total_items", Decimal(m.stats.totalItems)) in r.entries
  {
    hide Decimal;
    var all := Report(m);
    assert all[0] == ("cmd_get", Decimal(m.stats.cmdGet)) && all[1] == ("cmd_set", Decimal(m.stats.cmdSet));
    assert all[2] == ("get_hits", Decimal(m.stats.getHits)) && all[3] == ("get_misses", Decimal(m.stats.getMisses));
    assert all[4] == ("curr_items", Decimal(|m.items|)) && all[5] == ("total_items", Decimal(m.stats.totalItems));
  }

  // ---- Counters ----

  function Once(b: bool): nat {
    if b then 1 else 0
  }

  lemma RetrievalCounts(m: Model, c: Command, now: nat)
    requires c.Get? || c.GetAndTouch?
    ensures var (m1, r) := Apply(m, c, now);
            && r.Values? && |r.values| <= |c.keys|
            && m1.stats == m.stats.(cmdGet := m.stats.cmdGet + |c.keys|, getHits := m.stats.getHits + |r.values|,
                                    getMisses := m.stats.getMisses + (|c.keys| - |r.values|))
  {
  }

  lemma StorageCounts(m: Model, op: StoreOp, a: StoreArgs, now: nat)
    ensures var (m1, r) := Apply(m, Command.Store(op, a), now);
            var s, isCas, alive := m.stats, op == Cas && a.cas.Some?, Alive(m, a.key, now);
            m1.stats == s.(
              cmdSet := s.cmdSet + 1, totalItems := s.totalItems + Once(r == Stored),
              casHits := s.casHits + Once(isCas && alive && a.cas.value == m.items[a.key].cas),
              casBadval := s.casBadval + Once(isCas && alive && a.cas.value != m.items[a.key].cas),
              casMisses := s.casMisses + Once(isCas && !alive))
  {
    hide Effect;
    match op
    case Cas => CasAnswers(m, a, now);
    case _ =>
  }

  lemma DeleteCounts(m: Model, k: bytes, noreply: bool, now: nat)
    ensures var s, alive := m.stats, Alive(m, k, now);
            Apply(m, Command.Delete(k, noreply), now).0.stats ==
            s.(deleteHits := s.deleteHits + Once(alive), deleteMisses := s.deleteMisses + Once(!alive))
  {
    hide Effect;
    DeleteAnswers(m, k, noreply, now);
  }

  lemma TouchCounts(m: Model, k: bytes, exptime: i64, noreply: bool, now: nat)
    ensures var s, alive := m.stats, Alive(m, k, now);
            Apply(m, Command.Touch(k, exptime, noreply), now).0.stats ==
            s.(cmdTouch := s.cmdTouch + 1,
               touchHits := s.touchHits + Once(alive), touchMisses := s.touchMisses + Once(!alive))
  {
    hide Effect;
    TouchAnswers(m, k, exptime, noreply, now);
  }

  lemma ArithmeticCounts(m: Model, k: bytes, delta: u64, noreply: bool, now: nat)
    ensures var s, alive, number := m.stats, Alive(m, k, now), Alive(m, k, now) && Numeric(m.items[k].data);
            && Apply(m, Command.Arithmetic(Incr, k, delta, noreply), now).0.stats ==
               s.(cmdIncr := s.cmdIncr + 1,
                  incrHits := s.incrHits + Once(number), incrMisses := s.incrMisses + Once(!alive))
            && Apply(m, Command.Arithmetic(Decr, k, delta, noreply), now).0.stats ==
               s.(cmdDecr := s.cmdDecr + 1,
                  decrHits := s.decrHits + Once(number), decrMisses := s.decrMisses + Once(!alive))
  {
    hide Effect, Writes;
    if !Alive(m, k, now) {
      NothingAnswers(m, Incr, k, delta, noreply, now);
      NothingAnswers(m, Decr, k, delta, noreply, now);
    } else if Numeric(m.items[k].data) {
      var n: nat :| n <= U64_MAX && Writes(m.items[k].data, n);
      IncrAnswers(m, k, delta, noreply, now, n);
      DecrAnswers(m, k, delta, noreply, now, n);
    } else {
      TextAnswers(m, Incr, k, delta, noreply, now);
      TextAnswers(m, Decr, k, delta, noreply, now);
    }
  }

  // ---- Runs of commands ----

  /** An item is there right after it has been set, unless it was set to be gone. */
  predicate Lasts(exptime: i64, now: nat) {
    exptime == 0 || 0 < exptime <= 2592000 || (exptime > 2592000 && exptime > now)
  }

  /** After a set, gets shows what was set and a token, with which a cas is stored and without which it is not. */
  lemma SetGetsCas(m: Model, a: StoreArgs, b: StoreArgs, now: nat)
    requires b.key == a.key && b.cas.Some?
    ensures var m1 := Effect(m, Command.Store(Set, a), now).0;
            var (m2, r) := Effect(m1, Get([a.key], true), now);
            if !Lasts(a.exptime, now) then r == Values([])
            else
              && r == Values([Value(a.key, a.flags, a.data, Some(m.nextCas))])
              && Effect(m2, Command.Store(Cas, b), now).1 == if b.cas.value == m.nextCas then Stored else Exists
  {
    hide Effect;
    var m1 := Effect(m, Command.Store(Set, a), now).0;
    SetAnswers(m, a, now);
    GetShows(m1, [a.key], true, now);
    assert [a.key][..0] == [];
    assert Shown(m1, m1, [], true, now) == [];
    var m2 := Effect(m1, Get([a.key], true), now).0;
    CasAnswers(m2, b, now);
  }
}
