// The store as one caller at a time sees it (src/store.rs).
module Stores {
  import opened Bytes
  import opened Commands
  import opened Items

  datatype Counters = Counters(
    cmdGet: nat, cmdSet: nat, cmdIncr: nat, cmdDecr: nat, cmdTouch: nat, cmdFlush: nat,
    getHits: nat, getMisses: nat, casHits: nat, casMisses: nat, casBadval: nat,
    incrHits: nat, incrMisses: nat, decrHits: nat, decrMisses: nat,
    touchHits: nat, touchMisses: nat, deleteHits: nat, deleteMisses: nat, totalItems: nat)

  const NO_COUNTS := Counters(0, 0, 0, 0, 0, 0, 0, 0, 0, 0, 0, 0, 0, 0, 0, 0, 0, 0, 0, 0)

  // `oldestLive` is the cutoff of the last delayed flush, zero when there was none.
  datatype Model = Model(items: map<bytes, Item>, nextCas: nat, oldestLive: nat, stats: Counters) {
    function Cutoff(): Option<nat> {
      if oldestLive == 0 then None else Some(oldestLive)
    }
  }

  const EMPTY := Model(map[], 1, 0, NO_COUNTS)

  function Slot(items: map<bytes, Item>, key: bytes): Option<Item> {
    if key in items then Some(items[key]) else None
  }

  function WithSlot(items: map<bytes, Item>, key: bytes, slot: Option<Item>): (r: map<bytes, Item>)
    ensures Slot(r, key) == slot
    ensures forall k :: k != key ==> Slot(r, k) == Slot(items, k)
    ensures Slot(items, key) == slot ==> r == items
  {
    if slot.Some? then items[key := slot.value] else items - {key}
  }

  /** One key operation; those that take a token up front use it up whatever they find. */
  function OnKey(m: Model, key: bytes, op: KeyOp, now: nat): (Model, KeyReply) {
    var (slot, reply) := Act(op, Slot(m.items, key), now, m.Cutoff(), m.nextCas);
    var taken := if op.Fetch? || op.Erase? || (op.FetchTouch? && reply == Miss) then 0 else 1;
    (m.(items := WithSlot(m.items, key, slot), nextCas := m.nextCas + taken), reply)
  }

  lemma OnKeyIgnoresStats(m: Model, n: Model, key: bytes, op: KeyOp, now: nat)
    requires m.items == n.items && m.nextCas == n.nextCas && m.oldestLive == n.oldestLive
    ensures OnKey(m, key, op, now).1 == OnKey(n, key, op, now).1
    ensures OnKey(m, key, op, now).0 == OnKey(n, key, op, now).0.(stats := m.stats)
  {
    hide Act, WithSlot;
  }

  function ValuesOf(key: bytes, reply: KeyReply, withCas: bool): seq<Value> {
    if reply.Hit? then [Value(key, reply.flags, reply.data, if withCas then Some(reply.cas) else None)] else []
  }

  /** Retrieval of several keys, one after the other. */
  function Retrieve(m: Model, keys: seq<bytes>, op: KeyOp, withCas: bool, now: nat): (r: (Model, seq<Value>))
    ensures |r.1| <= |keys|
    decreases |keys|
  {
    if keys == [] then (m, [])
    else
      var (m1, values) := Retrieve(m, keys[..|keys| - 1], op, withCas, now);
      var key := keys[|keys| - 1];
      var (m2, reply) := OnKey(m1, key, op, now);
      (m2, values + ValuesOf(key, reply, withCas))
  }

  function Said(r: KeyReply): Response {
    if r.Says? then r.response else Values([])
  }

  const VERSION: bytes := "0.2.0"

  function CommandReport(s: Counters): seq<(bytes, bytes)> {
    [("cmd_get", Decimal(s.cmdGet)), ("cmd_set", Decimal(s.cmdSet)),
     ("get_hits", Decimal(s.getHits)), ("get_misses", Decimal(s.getMisses))]
  }

  function ItemReport(m: Model): seq<(bytes, bytes)> {
    [("curr_items", Decimal(|m.items|)), ("total_items", Decimal(m.stats.totalItems))]
  }

  /** The entries of the statistics report that this model keeps. */
  function Report(m: Model): seq<(bytes, bytes)> {
    CommandReport(m.stats) + ItemReport(m)
  }

  /** What a command does to the items, the tokens and the cutoff, and what it answers. */
  function Effect(m: Model, c: Command, now: nat): (Model, Response) {
    match c
    case Get(keys, withCas) =>
      var (m1, values) := Retrieve(m, keys, Fetch, withCas, now);
      (m1, Values(values))
    case GetAndTouch(keys, exptime, withCas) =>
      var (m1, values) := Retrieve(m, keys, FetchTouch(exptime), withCas, now);
      (m1, Values(values))
    case Store(op, a) =>
      var (m1, reply) := OnKey(m, a.key, Put(op, a), now);
      (m1, Said(reply))
    case Delete(key, _) =>
      var (m1, reply) := OnKey(m, key, Erase, now);
      (m1, Said(reply))
    case Arithmetic(op, key, delta, _) =>
      var (m1, reply) := OnKey(m, key, Adjust(op, delta), now);
      (m1, Said(reply))
    case Touch(key, exptime, _) =>
      var (m1, reply) := OnKey(m, key, Retouch(exptime), now);
      (m1, Said(reply))
    case FlushAll(delay, _) =>
      if delay == None || delay == Some(0) then (m.(items := map[]), Okay)
      else (m.(oldestLive := now + delay.value), Okay)
    case Version => (m, VersionIs(VERSION))
    case Verbosity(_, _) => (m, Okay)
    case Stats => (m, StatsReport(Report(m)))
  }

  function One(b: bool): nat {
    if b then 1 else 0
  }

  /** The counters after a command, from what was asked and what was answered alone. */
  function Tally(s: Counters, c: Command, r: Response): Counters {
    match c
    case Get(keys, _) => TallyValues(s, |keys|, r)
    case GetAndTouch(keys, _, _) => TallyValues(s, |keys|, r)
    case Store(op, a) =>
      var isCas := op == Cas;
      s.(cmdSet := s.cmdSet + 1,
         totalItems := s.totalItems + One(r == Stored),
         casHits := s.casHits + One(isCas && r == Stored),
         casBadval := s.casBadval + One(isCas && r == Exists),
         casMisses := s.casMisses + One(isCas && r == NotFound))
    case Delete(_, _) =>
      s.(deleteHits := s.deleteHits + One(r == Deleted), deleteMisses := s.deleteMisses + One(r == NotFound))
    case Arithmetic(Incr, _, _, _) =>
      s.(cmdIncr := s.cmdIncr + 1, incrHits := s.incrHits + One(r.Number?),
          incrMisses := s.incrMisses + One(r == NotFound))
    case Arithmetic(Decr, _, _, _) =>
      s.(cmdDecr := s.cmdDecr + 1, decrHits := s.decrHits + One(r.Number?),
          decrMisses := s.decrMisses + One(r == NotFound))
    case Touch(_, _, _) =>
      s.(cmdTouch := s.cmdTouch + 1,
         touchHits := s.touchHits + One(r == Touched), touchMisses := s.touchMisses + One(r == NotFound))
    case FlushAll(_, _) => s.(cmdFlush := s.cmdFlush + 1)
    case _ => s
  }

  function TallyValues(s: Counters, asked: nat, r: Response): Counters {
    var found := if r.Values? then Min(|r.values|, asked) else 0;
    Looked(s, asked, found, asked - found)
  }

  function Looked(s: Counters, asked: nat, hits: nat, misses: nat): Counters {
    s.(cmdGet := s.cmdGet + asked, getHits := s.getHits + hits, getMisses := s.getMisses + misses)
  }

  /** One key looked up. */
  function Seen(s: Counters, reply: KeyReply): Counters {
    if reply.Hit? then s.(getHits := s.getHits + 1) else s.(getMisses := s.getMisses + 1)
  }

  lemma AskedOnly(s: Counters, asked: nat)
    ensures s.(cmdGet := s.cmdGet + asked) == Looked(s, asked, 0, 0)
  {
  }

  lemma LookedAdds(s: Counters, asked: nat, hits: nat, misses: nat, reply: KeyReply)
    ensures Seen(Looked(s, asked, hits, misses), reply)
         == if reply.Hit? then Looked(s, asked, hits + 1, misses) else Looked(s, asked, hits, misses + 1)
  {
  }

  function Apply(m: Model, c: Command, now: nat): (Model, Response) {
    var (m1, r) := Effect(m, c, now);
    (m1.(stats := Tally(m.stats, c, r)), r)
  }

  class Store {
    var items: map<bytes, Item>
    var nextCas: nat
    var oldestLive: nat
    var stats: Counters
    var clock: nat

    constructor (clock: nat)
      ensures State() == EMPTY && this.clock == clock
    {
      items, nextCas, oldestLive, stats := map[], 1, 0, NO_COUNTS;
      this.clock := clock;
    }

    ghost function State(): Model
      reads this
    {
      Model(items, nextCas, oldestLive, stats)
    }

    function OldestLive(): Option<nat>
      reads this
    {
      if oldestLive == 0 then None else Some(oldestLive)
    }

    method NextCas() returns (token: nat)
      modifies this`nextCas
      ensures token == old(nextCas) && nextCas == old(nextCas) + 1
    {
      token := nextCas;
      nextCas := nextCas + 1;
    }

    /** The part of the state that retrievals work on is that of `m`. */
    ghost predicate Agrees(m: Model)
      reads this
    {
      items == m.items && nextCas == m.nextCas && oldestLive == m.oldestLive
    }

    method Get(keys: seq<bytes>, withCas: bool) returns (r: Response)
      modifies this`items, this`stats
      ensures (State(), r) == Apply(old(State()), Command.Get(keys, withCas), clock)
    {
      hide Act, OnKey, Looked, Seen;
      var now := clock;
      stats := stats.(cmdGet := stats.cmdGet + |keys|);
      var values: seq<Value> := [];
      ghost var m := old(State());
      AskedOnly(m.stats, |keys|);
      for i := 0 to |keys|
        invariant var (m1, vs) := Retrieve(m, keys[..i], Fetch, withCas, now);
                  Agrees(m1) && values == vs && stats == Looked(m.stats, |keys|, |vs|, i - |vs|)
      {
        assert keys[..i + 1][..i] == keys[..i];
        ghost var (m1, _) := Retrieve(m, keys[..i], Fetch, withCas, now);
        OnKeyIgnoresStats(m1, State(), keys[i], Fetch, now);
        var reply := GetKey(keys[i], now);
        LookedAdds(m.stats, |keys|, |values|, i - |values|, reply);
        values := values + ValuesOf(keys[i], reply, withCas);
      }
      assert keys[..|keys|] == keys;
      r := Values(values);
    }

    method GetAndTouch(keys: seq<bytes>, exptime: i64, withCas: bool) returns (r: Response)
      modifies this`items, this`nextCas, this`stats
      ensures (State(), r) == Apply(old(State()), Command.GetAndTouch(keys, exptime, withCas), clock)
    {
      hide Act, OnKey, Looked, Seen;
      var now := clock;
      stats := stats.(cmdGet := stats.cmdGet + |keys|);
      var values: seq<Value> := [];
      ghost var m := old(State());
      AskedOnly(m.stats, |keys|);
      for i := 0 to |keys|
        invariant var (m1, vs) := Retrieve(m, keys[..i], FetchTouch(exptime), withCas, now);
                  Agrees(m1) && values == vs && stats == Looked(m.stats, |keys|, |vs|, i - |vs|)
      {
        assert keys[..i + 1][..i] == keys[..i];
        ghost var (m1, _) := Retrieve(m, keys[..i], FetchTouch(exptime), withCas, now);
        OnKeyIgnoresStats(m1, State(), keys[i], FetchTouch(exptime), now);
        var reply := TouchKey(keys[i], exptime, now);
        LookedAdds(m.stats, |keys|, |values|, i - |values|, reply);
        values := values + ValuesOf(keys[i], reply, withCas);
      }
      assert keys[..|keys|] == keys;
      r := Values(values);
    }

    method GetKey(key: bytes, now: nat) returns (reply: KeyReply)
      modifies this`items, this`stats
      ensures Agrees(OnKey(old(State()), key, Fetch, now).0) && reply == OnKey(old(State()), key, Fetch, now).1
      ensures !reply.Says?
      ensures stats == Seen(old(stats), reply)
    {
      if key !in items {
        stats := stats.(getMisses := stats.getMisses + 1);
        reply := Miss;
      } else if items[key].IsExpired(now, OldestLive()) {
        items := items - {key};
        stats := stats.(getMisses := stats.getMisses + 1);
        reply := Miss;
      } else {
        var item := items[key];
        stats := stats.(getHits := stats.getHits + 1);
        reply := Hit(item.flags, item.data, item.cas);
      }
    }

    method TouchKey(key: bytes, exptime: i64, now: nat) returns (reply: KeyReply)
      modifies this`items, this`nextCas, this`stats
      ensures Agrees(OnKey(old(State()), key, FetchTouch(exptime), now).0)
      ensures reply == OnKey(old(State()), key, FetchTouch(exptime), now).1 && !reply.Says?
      ensures stats == Seen(old(stats), reply)
    {
      if key !in items {
        stats := stats.(getMisses := stats.getMisses + 1);
        reply := Miss;
      } else if items[key].IsExpired(now, OldestLive()) {
        items := items - {key};
        stats := stats.(getMisses := stats.getMisses + 1);
        reply := Miss;
      } else {
        var token := NextCas();
        var item := items[key].(expiresAt := ResolveExpiry(exptime, now), cas := token);
        items := items[key := item];
        stats := stats.(getHits := stats.getHits + 1);
        reply := Hit(item.flags, item.data, item.cas);
      }
    }

    method Put(op: StoreOp, args: StoreArgs) returns (r: Response)
      modifies this`items, this`nextCas, this`stats
      ensures (State(), r) == Apply(old(State()), Command.Store(op, args), clock)
    {
      hide Act, WithSlot, Tally, NewItem;
      var now := clock;
      var cutoff := OldestLive();
      var cas := NextCas();
      r := PutEntry(op, args, now, cutoff, cas);
      CountPut(op, args, r);
    }

    method CountPut(op: StoreOp, args: StoreArgs, r: Response)
      modifies this`stats
      ensures stats == Tally(old(stats), Command.Store(op, args), r)
    {
      stats := stats.(cmdSet := stats.cmdSet + 1);
      if r == Stored {
        stats := stats.(totalItems := stats.totalItems + 1);
      }
      if op == Cas {
        if r == Stored {
          stats := stats.(casHits := stats.casHits + 1);
        } else if r == Exists {
          stats := stats.(casBadval := stats.casBadval + 1);
        } else if r == NotFound {
          stats := stats.(casMisses := stats.casMisses + 1);
        }
      }
    }

    /** The action on the entry of the key, and the answer it leads to. */
    method PutEntry(op: StoreOp, args: StoreArgs, now: nat, cutoff: Option<nat>, cas: nat) returns (r: Response)
      modifies this`items
      ensures var (slot, reply) := Act(KeyOp.Put(op, args), Slot(old(items), args.key), now, cutoff, cas);
              items == WithSlot(old(items), args.key, slot) && Says(r) == reply
    {
      var key := args.key;
      var item := NewItem(args, cas, now);
      var live := key in items && !items[key].IsExpired(now, cutoff);
      match op
      case Set =>
        items := items[key := item];
        r := Stored;
      case Add =>
        if live {
          r := NotStored;
        } else {
          items := items[key := item];
          r := Stored;
        }
      case Replace =>
        if live {
          items := items[key := item];
          r := Stored;
        } else {
          items := items - {key};
          r := NotStored;
        }
      case Cas =>
        if args.cas == None {
          r := MISSING_CAS;
        } else if !live {
          items := items - {key};
          r := NotFound;
        } else if items[key].cas != args.cas.value {
          r := Exists;
        } else {
          items := items[key := item];
          r := Stored;
        }
      case _ =>
        if live {
          var first, second := items[key].data, args.data;
          if op != Append {
            first, second := second, first;
          }
          items := items[key := items[key].(data := first + second, cas := cas)];
          r := Stored;
        } else {
          items := items - {key};
          r := NotStored;
        }
    }

    method Delete(key: bytes) returns (r: Response)
      modifies this`items, this`stats
      ensures forall noreply :: (State(), r) == Apply(old(State()), Command.Delete(key, noreply), clock)
    {
      var now := clock;
      var cutoff := OldestLive();
      if key !in items {
        stats := stats.(deleteMisses := stats.deleteMisses + 1);
        return NotFound;
      }
      var item := items[key];
      items := items - {key};
      if item.IsExpired(now, cutoff) {
        stats := stats.(deleteMisses := stats.deleteMisses + 1);
        r := NotFound;
      } else {
        stats := stats.(deleteHits := stats.deleteHits + 1);
        r := Deleted;
      }
    }

    method Arithmetic(op: ArithmeticOp, key: bytes, delta: u64) returns (r: Response)
      modifies this`items, this`nextCas, this`stats
      ensures forall noreply :: (State(), r) == Apply(old(State()), Command.Arithmetic(op, key, delta, noreply), clock)
    {
      hide Act, WithSlot;
      var now := clock;
      stats := if op == Incr then stats.(cmdIncr := stats.cmdIncr + 1) else stats.(cmdDecr := stats.cmdDecr + 1);
      var cutoff := OldestLive();
      var cas := NextCas();
      r := AdjustEntry(op, key, delta, now, cutoff, cas);
      if r.Number? {
        stats := if op == Incr then stats.(incrHits := stats.incrHits + 1) else stats.(decrHits := stats.decrHits + 1);
      } else if r == NotFound {
        stats := if op == Incr then stats.(incrMisses := stats.incrMisses + 1)
                 else stats.(decrMisses := stats.decrMisses + 1);
      }
    }

    method AdjustEntry(op: ArithmeticOp, key: bytes, delta: u64, now: nat, cutoff: Option<nat>, cas: nat)
      returns (r: Response)
      modifies this`items
      ensures var (slot, reply) := Act(Adjust(op, delta), Slot(old(items), key), now, cutoff, cas);
              items == WithSlot(old(items), key, slot) && Says(r) == reply
    {
      if key !in items || items[key].IsExpired(now, cutoff) {
        items := items - {key};
        return NotFound;
      }
      var value := ParseNumber(items[key].data);
      if value == None {
        return NonNumeric(op);
      }
      var newValue := Adjusted(op, value.value, delta);
      items := items[key := items[key].(data := Decimal(newValue), cas := cas)];
      r := Number(newValue);
    }

    method Touch(key: bytes, exptime: i64) returns (r: Response)
      modifies this`items, this`nextCas, this`stats
      ensures forall noreply :: (State(), r) == Apply(old(State()), Command.Touch(key, exptime, noreply), clock)
    {
      var now := clock;
      var cutoff := OldestLive();
      var cas := NextCas();
      stats := stats.(cmdTouch := stats.cmdTouch + 1);
      if key !in items || items[key].IsExpired(now, cutoff) {
        items := items - {key};
        stats := stats.(touchMisses := stats.touchMisses + 1);
        return NotFound;
      }
      items := items[key := items[key].(expiresAt := ResolveExpiry(exptime, now), cas := cas)];
      stats := stats.(touchHits := stats.touchHits + 1);
      r := Touched;
    }

    method Flush(delay: Option<u32>) returns (r: Response)
      modifies this`items, this`oldestLive, this`stats
      ensures forall noreply :: (State(), r) == Apply(old(State()), Command.FlushAll(delay, noreply), clock)
    {
      stats := stats.(cmdFlush := stats.cmdFlush + 1);
      if delay == None || delay == Some(0) {
        items := map[];
      } else {
        oldestLive := clock + delay.value;
      }
      r := Okay;
    }
  }

  /** The dispatch from commands to store operations (src/handler.rs). */
  method Handle(c: Command, store: Store) returns (r: Response)
    modifies store
    ensures (store.State(), r) == Apply(old(store.State()), c, store.clock) && store.clock == old(store.clock)
  {
    match c
    case Get(keys, withCas) => r := store.Get(keys, withCas);
    case GetAndTouch(keys, exptime, withCas) => r := store.GetAndTouch(keys, exptime, withCas);
    case Store(op, args) => r := store.Put(op, args);
    case Delete(key, _) => r := store.Delete(key);
    case Arithmetic(op, key, delta, _) => r := store.Arithmetic(op, key, delta);
    case Touch(key, exptime, _) => r := store.Touch(key, exptime);
    case FlushAll(delay, _) => r := store.Flush(delay);
    case Version => r := VersionIs(VERSION);
    case Verbosity(_, _) => r := Okay;
    case Stats => r := StatsReport(Report(Model(store.items, store.nextCas, store.oldestLive, store.stats)));
  }
}
