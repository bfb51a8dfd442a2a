// What concurrent callers do to the store, as one list of atomic key actions in the order in which
// they took effect, and what every such history guarantees.
module Histories {
  import opened Bytes
  import opened Commands
  import opened Items

  datatype Event =
    // The entry action of a call at the time `at`, with the clock reading, the cutoff and the token
    // the call held.
    | Did(call: nat, key: bytes, op: KeyOp, at: nat, now: nat, cutoff: Option<nat>, token: nat,
          before: Option<Item>, after: Option<Item>, reply: KeyReply)
    // An `add` that found its key vacant but lost the reservation before it could insert.
    | Superseded(call: nat, key: bytes, reply: KeyReply)
    // The key was evicted, or cleared by an immediate flush.
    | Dropped(key: bytes)

  type History = seq<Event>

  /** What a key holds after a history. */
  function Content(h: History, k: bytes): Option<Item> {
    if h == [] then None
    else
      var e := h[|h| - 1];
      if e.key != k || e.Superseded? then Content(h[..|h| - 1], k)
      else if e.Did? then e.after
      else None
  }

  predicate EventOk(h: History, e: Event) {
    match e
    case Did(_, _, _, _, _, _, _, _, _, _) =>
      && e.before == Content(h, e.key) && e.now <= e.at
      && (e.after, e.reply) == Act(e.op, e.before, e.now, e.cutoff, e.token)
    case Superseded(_, _, reply) => reply == Says(NotStored)
    case Dropped(_) => true
  }

  /** Every action found what the history before it left, and did what its operation does. */
  predicate Sound(h: History) {
    forall i | 0 <= i < |h| :: EventOk(h[..i], h[i])
  }

  lemma SoundExtends(h: History, e: Event)
    requires Sound(h) && EventOk(h, e)
    ensures Sound(h + [e])
  {
    forall i | 0 <= i < |h + [e]| ensures EventOk((h + [e])[..i], (h + [e])[i]) {
      assert (h + [e])[..i] == h[..i];
      assert h[..|h|] == h;
    }
  }

  lemma SoundPrefix(h: History, n: nat)
    requires Sound(h) && n <= |h|
    ensures Sound(h[..n])
  {
    forall i | 0 <= i < n ensures EventOk(h[..n][..i], h[..n][i]) {
      assert h[..n][..i] == h[..i];
    }
  }

  lemma ContentStep(h: History, i: nat, k: bytes)
    requires i < |h|
    ensures Content(h[..i + 1], k) ==
            if h[i].key != k || h[i].Superseded? then Content(h[..i], k)
            else if h[i].Did? then h[i].after else None
  {
    assert h[..i + 1][..i] == h[..i];
  }

  // ---- Freshness: what a client reads is what clients wrote ----

  datatype Worth = Worth(data: bytes, flags: u32, since: nat)

  predicate IsBase(e: Event) {
    e.Did? && e.op.Put? && e.op.op != Append && e.op.op != Prepend && e.reply == Says(Stored)
  }

  /**
   * The value of a key as its clients can work it out from their own requests and replies: the
   * last set, add, replace or cas that was stored, with every later append, prepend and arithmetic
   * result applied in order. Removals play no part.
   */
  function WorthOf(h: History, k: bytes): Option<Worth> {
    if h == [] then None
    else
      var e, earlier := h[|h| - 1], WorthOf(h[..|h| - 1], k);
      if !e.Did? || e.key != k then earlier
      else if IsBase(e) then Some(Worth(e.op.args.data, e.op.args.flags, e.now))
      else if earlier == None then None
      else if e.op.Put? && e.reply == Says(Stored) then
        Some(earlier.value.(data := Joined(e.op.op, earlier.value.data, e.op.args.data)))
      else if e.op.Adjust? && e.reply.Says? && e.reply.response.Number? then
        Some(earlier.value.(data := Decimal(e.reply.response.number)))
      else earlier
  }

  /** One action carries the clients' view of a key along. */
  lemma WorthKept(op: KeyOp, slot: Option<Item>, now: nat, cutoff: Option<nat>, token: nat)
    ensures var (after, reply) := Act(op, slot, now, cutoff, token);
            after.Some? ==>
              if op.Put? && op.op != Append && op.op != Prepend && reply == Says(Stored) then
                after.value.data == op.args.data && after.value.flags == op.args.flags && after.value.storedAt == now
              else
                && slot.Some? && after.value.flags == slot.value.flags && after.value.storedAt == slot.value.storedAt
                && after.value.data ==
                   if op.Put? && reply == Says(Stored) then Joined(op.op, slot.value.data, op.args.data)
                   else if op.Adjust? && reply.Says? && reply.response.Number? then Decimal(reply.response.number)
                   else slot.value.data
  {
    hide ParseNumber, Decimal, Joined, ResolveExpiry, Adjusted;
  }

  /** Whatever is evicted in between, a key that holds something holds what its clients wrote. */
  lemma {:induction false} ContentIsWorth(h: History, k: bytes)
    requires Sound(h)
    ensures var c := Content(h, k);
            c.Some? ==> WorthOf(h, k) == Some(Worth(c.value.data, c.value.flags, c.value.storedAt))
  {
    hide Act, Joined, Decimal;
    if h != [] {
      var n := |h| - 1;
      var e := h[n];
      SoundPrefix(h, n);
      ContentIsWorth(h[..n], k);
      assert EventOk(h[..n], e);
      if e.Did? {
        WorthKept(e.op, e.before, e.now, e.cutoff, e.token);
      }
    }
  }

  /** What a hit reports, for both kinds of retrieval. */
  lemma HitShowsContent(op: KeyOp, slot: Option<Item>, now: nat, cutoff: Option<nat>, token: nat)
    ensures var (after, reply) := Act(op, slot, now, cutoff, token);
            reply.Hit? ==>
              && slot.Some? && !slot.value.IsExpired(now, cutoff) && after.Some?
              && reply == Hit(slot.value.flags, slot.value.data, after.value.cas)
              && reply == Hit(after.value.flags, after.value.data, after.value.cas)
  {
    hide ParseNumber, Decimal, ResolveExpiry;
  }

  predicate LastBase(h: History, k: bytes, m: nat) {
    m < |h| && IsBase(h[m]) && h[m].key == k && forall l :: m < l < |h| && h[l].key == k ==> !IsBase(h[l])
  }

  /** Since the event `m` nothing has removed `k`: no eviction, and no action that left it empty. */
  predicate Unbroken(h: History, k: bytes, m: nat) {
    forall l :: m < l < |h| && h[l].key == k && !h[l].Superseded? ==> h[l].Did? && h[l].after.Some?
  }

  lemma {:induction false} WorthHasBase(h: History, k: bytes)
    requires WorthOf(h, k).Some?
    ensures exists m: nat :: LastBase(h, k, m) && h[m].now == WorthOf(h, k).value.since
  {
    hide Joined, Decimal;
    var n := |h| - 1;
    if IsBase(h[n]) && h[n].key == k {
      assert LastBase(h, k, n);
    } else {
      WorthHasBase(h[..n], k);
      var m: nat :| LastBase(h[..n], k, m) && h[..n][m].now == WorthOf(h[..n], k).value.since;
      assert LastBase(h, k, m);
    }
  }

  /** What a key holds has been there, in one form or another, since its last base. */
  lemma {:induction false} HeldSinceBase(h: History, k: bytes, m: nat)
    requires Sound(h) && Content(h, k).Some? && LastBase(h, k, m)
    ensures Unbroken(h, k, m)
  {
    hide Act, Sound, EventOk, IsBase;
    var n := |h| - 1;
    if m < n {
      SoundPrefix(h, n);
      assert LastBase(h[..n], k, m);
      HeldBefore(h, k);
      HeldSinceBase(h[..n], k, m);
    }
  }

  lemma HeldBefore(h: History, k: bytes)
    requires Sound(h) && Content(h, k).Some? && !(h[|h| - 1].key == k && IsBase(h[|h| - 1]))
    ensures Content(h[..|h| - 1], k).Some?
    ensures h[|h| - 1].key == k && !h[|h| - 1].Superseded? ==> h[|h| - 1].Did? && h[|h| - 1].after.Some?
  {
    hide Act, Joined, Decimal;
    var n := |h| - 1;
    var e := h[n];
    assert EventOk(h[..n], e);
    if e.key == k && e.Did? {
      WorthKept(e.op, e.before, e.now, e.cutoff, e.token);
    }
  }

  /**
   * Eviction can cause a miss but never a stale value: every hit reports the clients' own view of the
   * key, and no removal, eviction or expiry has come since the last base of that view.
   */
  lemma HitIsFresh(h: History, i: nat)
    requires Sound(h) && i < |h| && h[i].Did? && h[i].reply.Hit?
    ensures var w := WorthOf(h[..i], h[i].key);
            w.Some? && w.value.data == h[i].reply.data && w.value.flags == h[i].reply.flags
    ensures exists m: nat :: LastBase(h[..i], h[i].key, m) && Unbroken(h[..i], h[i].key, m)
  {
    hide Act;
    var e := h[i];
    assert EventOk(h[..i], e);
    HitShowsContent(e.op, e.before, e.now, e.cutoff, e.token);
    SoundPrefix(h, i);
    ContentIsWorth(h[..i], e.key);
    WorthHasBase(h[..i], e.key);
    var m: nat :| LastBase(h[..i], e.key, m);
    HeldSinceBase(h[..i], e.key, m);
  }

  // ---- Delayed flushes ----

  lemma OneLastBase(h: History, k: bytes, m: nat, n: nat)
    requires LastBase(h, k, m) && LastBase(h, k, n)
    ensures m == n
  {
  }

  /**
   * What a retrieval sees of a key whose last base is `m`: the item, unless it is past its own
   * expiry, or a cutoff the call has read is due by its clock reading and the base older than that.
   */
  lemma RetrievalSees(h: History, i: nat, m: nat)
    requires Sound(h) && i < |h| && h[i].Did? && (h[i].op.Fetch? || h[i].op.FetchTouch?)
    requires Content(h[..i], h[i].key).Some? && LastBase(h[..i], h[i].key, m)
    ensures var e, c := h[i], h[i].cutoff;
            e.reply.Hit? <==> !Content(h[..i], e.key).value.TimedOut(e.now)
                              && (c == None || e.now < c.value || h[m].now >= c.value)
  {
    assert EventOk(h[..i], h[i]);
    SoundPrefix(h, i);
    ContentIsWorth(h[..i], h[i].key);
    WorthHasBase(h[..i], h[i].key);
    var n: nat :| LastBase(h[..i], h[i].key, n) && h[..i][n].now == WorthOf(h[..i], h[i].key).value.since;
    OneLastBase(h[..i], h[i].key, m, n);
  }

  /** A hit has a last base to show. */
  lemma HitHasBase(h: History, i: nat)
    requires Sound(h) && i < |h| && h[i].Did? && h[i].reply.Hit?
    ensures (h[i].op.Fetch? || h[i].op.FetchTouch?) && Content(h[..i], h[i].key).Some?
    ensures exists m: nat :: LastBase(h[..i], h[i].key, m)
  {
    hide Act;
    var e := h[i];
    assert EventOk(h[..i], e);
    HitShowsContent(e.op, e.before, e.now, e.cutoff, e.token);
    OnlyRetrievalsHit(e.op, e.before, e.now, e.cutoff, e.token);
    SoundPrefix(h, i);
    ContentIsWorth(h[..i], e.key);
    WorthHasBase(h[..i], e.key);
  }

  lemma OnlyRetrievalsHit(op: KeyOp, slot: Option<Item>, now: nat, cutoff: Option<nat>, token: nat)
    ensures Act(op, slot, now, cutoff, token).1.Hit? ==> op.Fetch? || op.FetchTouch?
  {
    hide ParseNumber, Decimal, ResolveExpiry, Joined;
  }

  // ---- Appends and prepends ----

  /** The pieces that were joined to `k` after the event `m`, in order. */
  function PiecesSince(h: History, k: bytes, m: nat): seq<Piece> {
    if |h| <= m + 1 then []
    else
      var e, earlier := h[|h| - 1], PiecesSince(h[..|h| - 1], k, m);
      if e.Did? && e.key == k && e.op.Put? && e.reply == Says(Stored) then earlier + [Piece(e.op.op, e.op.args.data)]
      else earlier
  }

  /** No incr or decr of `k` has succeeded since the event `m`. */
  predicate NoArithmeticSince(h: History, k: bytes, m: nat) {
    forall l :: m < l < |h| && h[l].key == k && h[l].Did? && h[l].op.Adjust? ==>
      !(h[l].reply.Says? && h[l].reply.response.Number?)
  }

  /**
   * In any history the value of a key is the prepends since its last base, last one first, the base, the appends
   * in order.
   */
  lemma {:induction false} WorthIsPieces(h: History, k: bytes, m: nat)
    requires LastBase(h, k, m) && NoArithmeticSince(h, k, m)
    ensures var ps := PiecesSince(h, k, m);
            WorthOf(h, k).Some? && WorthOf(h, k).value.data == InFront(ps) + h[m].op.args.data + Behind(ps)
  {
    hide Joined, InFront, Behind, Piece.Tail, Piece.Lead;
    var n := |h| - 1;
    if m == n {
      NoPieces();
      assert [] + h[m].op.args.data + [] == h[m].op.args.data;
    } else {
      var e, ps := h[n], PiecesSince(h[..n], k, m);
      assert LastBase(h[..n], k, m);
      assert NoArithmeticSince(h[..n], k, m);
      WorthIsPieces(h[..n], k, m);
      if e.Did? && e.key == k && e.op.Put? && e.reply == Says(Stored) {
        var p := Piece(e.op.op, e.op.args.data);
        PieceAtEnd(ps, p);
        JoinedAround(p, InFront(ps), h[m].op.args.data, Behind(ps));
      }
    }
  }

  lemma NoPieces()
    ensures InFront([]) == [] && Behind([]) == []
  {
  }

  // ---- Tokens ----

  /** The call put an item with its token in place. */
  predicate Installs(e: Event) {
    e.Did? &&
    match e.reply
    case Hit(_, _, _) => e.op.FetchTouch?
    case Miss => false
    case Says(r) => r == Stored || r == Touched || r.Number?
  }

  predicate DistinctTokens(h: History) {
    forall i, j | 0 <= i < j < |h| && Installs(h[i]) && Installs(h[j]) :: h[i].token != h[j].token
  }

  lemma ActInstalls(e: Event)
    requires e.Did? && (e.after, e.reply) == Act(e.op, e.before, e.now, e.cutoff, e.token)
    ensures if Installs(e) then e.after.Some? && e.after.value.cas == e.token
            else e.after == None || e.after == e.before
  {
    hide ParseNumber, Decimal, ResolveExpiry, Joined;
  }

  lemma EventInstalls(h: History, e: Event)
    requires EventOk(h, e) && e.Did?
    ensures if Installs(e) then e.after.Some? && e.after.value.cas == e.token
            else e.after == None || e.after == Content(h, e.key)
  {
    hide Act, Installs;
    ActInstalls(e);
  }

  /** The event that put `x` under `k`, where it has stayed ever since. */
  predicate Origin(h: History, k: bytes, x: Item, m: nat) {
    && m < |h| && Installs(h[m]) && h[m].key == k && h[m].after == Some(x) && h[m].token == x.cas
    && forall l :: m < l <= |h| ==> Content(h[..l], k) == Some(x)
  }

  lemma {:induction false} ItemHasOrigin(h: History, k: bytes, x: Item)
    requires Sound(h) && Content(h, k) == Some(x)
    ensures exists m: nat :: Origin(h, k, x, m)
  {
    hide Act, Installs, EventOk;
    var n := |h| - 1;
    var e := h[n];
    assert EventOk(h[..n], e);
    assert h[..n + 1] == h;
    if e.Did? {
      EventInstalls(h[..n], e);
    }
    if e.key == k && e.Did? && Installs(e) {
      assert Origin(h, k, x, n);
    } else {
      SoundPrefix(h, n);
      ItemHasOrigin(h[..n], k, x);
      var m: nat :| Origin(h[..n], k, x, m);
      forall l | m < l <= |h| ensures Content(h[..l], k) == Some(x) {
        if l <= n {
          assert h[..n][..l] == h[..l];
        }
      }
      assert Origin(h, k, x, m);
    }
  }

  /** No ABA: one token stands for one item under one key, in place without interruption. */
  lemma SameTokenSameItem(h: History, i: nat, j: nat, k1: bytes, k2: bytes)
    requires Sound(h) && DistinctTokens(h) && i <= j <= |h|
    requires Content(h[..i], k1).Some? && Content(h[..j], k2).Some?
    requires Content(h[..i], k1).value.cas == Content(h[..j], k2).value.cas
    ensures k1 == k2
    ensures forall l :: i <= l <= j ==> Content(h[..l], k1) == Content(h[..i], k1)
  {
    hide Installs, Content;
    var x, y := Content(h[..i], k1).value, Content(h[..j], k2).value;
    SoundPrefix(h, i);
    SoundPrefix(h, j);
    ItemHasOrigin(h[..i], k1, x);
    ItemHasOrigin(h[..j], k2, y);
    var m: nat :| Origin(h[..i], k1, x, m);
    var n: nat :| Origin(h[..j], k2, y, n);
    assert h[..i][m] == h[m] && h[..j][n] == h[n];
    assert m == n;
    forall l | i <= l <= j ensures Content(h[..l], k1) == Some(x) {
      assert h[..j][..l] == h[..l];
    }
  }

  /** What a successful `cas` found: an item with the expected token. */
  lemma CasFound(e: Event)
    requires e.Did? && (e.after, e.reply) == Act(e.op, e.before, e.now, e.cutoff, e.token)
    requires e.op.Put? && e.op.op == Cas && e.op.args.cas.Some? && e.reply == Says(Stored)
    ensures e.before.Some? && e.before.value.cas == e.op.args.cas.value
  {
  }

  /**
   * No lost update: when a `cas` is stored with a token some retrieval reported, that retrieval
   * was of the same key, the item replaced is the one it saw, and nothing happened to it in between.
   */
  lemma CasReplacesWhatWasRead(h: History, i: nat, j: nat)
    requires Sound(h) && DistinctTokens(h) && i < j < |h|
    requires h[i].Did? && h[i].reply.Hit?
    requires h[j].Did? && h[j].op.Put? && h[j].op.op == Cas && h[j].reply == Says(Stored)
    requires h[j].op.args.cas == Some(h[i].reply.cas)
    ensures h[i].key == h[j].key
    ensures h[j].before.Some? && h[i].after == h[j].before
    ensures h[i].reply == Hit(h[j].before.value.flags, h[j].before.value.data, h[j].before.value.cas)
    ensures forall l :: i < l <= j ==> Content(h[..l], h[j].key) == h[j].before
  {
    hide Act, Content;
    assert EventOk(h[..i], h[i]) && EventOk(h[..j], h[j]);
    HitShowsContent(h[i].op, h[i].before, h[i].now, h[i].cutoff, h[i].token);
    CasFound(h[j]);
    ContentStep(h, i, h[i].key);
    SameTokenSameItem(h, i + 1, j, h[i].key, h[j].key);
  }

  // ---- Arithmetic ----

  /** The incrs and decrs of `k` among the events from `i` up to `j`. */
  function Changes(h: History, i: nat, j: nat, k: bytes): seq<Change>
    requires i <= j <= |h|
    decreases j
  {
    if i == j then []
    else
      var e := h[j - 1];
      Changes(h, i, j - 1, k) + (if e.Did? && e.key == k && e.op.Adjust? then [Change(e.op.arith, e.op.delta)] else [])
  }

  /** In this stretch nothing but arithmetic is stored under `k`, and it is neither removed nor found expired. */
  predicate Undisturbed(h: History, i: nat, j: nat, k: bytes)
    requires i <= j <= |h|
  {
    forall l :: i <= l < j && h[l].key == k && !h[l].Superseded? ==>
      && h[l].Did? && !h[l].op.Erase? && h[l].reply != Says(Stored)
      && !(h[l].before.Some? && h[l].before.value.IsExpired(h[l].now, h[l].cutoff))
  }

  /** On a live number arithmetic succeeds, and leaves a number behind. */
  lemma AdjustStep(e: Event, v: u64)
    requires e.Did? && (e.after, e.reply) == Act(e.op, e.before, e.now, e.cutoff, e.token) && e.op.Adjust?
    requires e.before.Some? && !e.before.value.IsExpired(e.now, e.cutoff) && ParseNumber(e.before.value.data) == Some(v)
    ensures e.reply == Says(Number(Adjusted(e.op.arith, v, e.op.delta)))
    ensures e.after.Some? && ParseNumber(e.after.value.data) == Some(Adjusted(e.op.arith, v, e.op.delta))
  {
    hide ParseNumber, Adjusted;
    NumberRoundTrip(Adjusted(e.op.arith, v, e.op.delta));
  }

  /** Whatever else does not store or remove a live item leaves its data. */
  lemma DataStays(e: Event)
    requires e.Did? && (e.after, e.reply) == Act(e.op, e.before, e.now, e.cutoff, e.token)
    requires e.before.Some? && !e.before.value.IsExpired(e.now, e.cutoff)
    requires !e.op.Adjust? && !e.op.Erase? && e.reply != Says(Stored)
    ensures e.after.Some? && e.after.value.data == e.before.value.data
  {
    hide ResolveExpiry, Joined;
  }

  /**
   * Interleaved arithmetic succeeds and loses nothing: from a number on, until another write, a
   * removal or expiry, every incr and decr is answered with the initial number as changed by those
   * up to it, in the order of the entry actions, and the key goes on holding that number.
   */
  lemma {:induction false} ArithmeticConserved(h: History, i: nat, j: nat, k: bytes, v: u64)
    requires Sound(h) && i <= j <= |h| && Undisturbed(h, i, j, k)
    requires Content(h[..i], k).Some? && ParseNumber(Content(h[..i], k).value.data) == Some(v)
    ensures Content(h[..j], k).Some?
    ensures ParseNumber(Content(h[..j], k).value.data) == Some(Computed(v, Changes(h, i, j, k)))
    ensures forall l :: i <= l < j && h[l].Did? && h[l].key == k && h[l].op.Adjust? ==>
              h[l].reply == Says(Number(Computed(v, Changes(h, i, l + 1, k))))
    decreases j
  {
    hide Act, ParseNumber, Computed, Adjusted, Content;
    if i == j {
      NothingComputed(v);
    } else {
      var e := h[j - 1];
      ArithmeticConserved(h, i, j - 1, k, v);
      ContentStep(h, j - 1, k);
      assert EventOk(h[..j - 1], e);
      var cs := Changes(h, i, j - 1, k);
      assert cs + [] == cs;
      if e.Did? && e.key == k {
        if e.op.Adjust? {
          AdjustStep(e, Computed(v, cs));
          ComputedMore(v, cs, Change(e.op.arith, e.op.delta));
        } else {
          DataStays(e);
        }
      }
    }
  }

  lemma NothingComputed(v: u64)
    ensures Computed(v, []) == v
  {
  }

  lemma ComputedMore(v: u64, cs: seq<Change>, c: Change)
    ensures Computed(v, cs + [c]) == Adjusted(c.op, Computed(v, cs), c.delta)
  {
    assert (cs + [c])[..|cs|] == cs;
  }

  lemma {:induction false} ChangesGrow(h: History, i: nat, n: nat, j: nat, k: bytes)
    requires i <= n <= j <= |h|
    ensures Changes(h, i, n, k) <= Changes(h, i, j, k)
    decreases j
  {
    if n < j {
      ChangesGrow(h, i, n, j - 1, k);
    }
  }

  /** In closed form: increments from any number of callers add up modulo 2^64. */
  lemma IncrementsConserved(h: History, i: nat, j: nat, k: bytes, v: u64)
    requires Sound(h) && i <= j <= |h| && Undisturbed(h, i, j, k) && AllOf(Changes(h, i, j, k), Incr)
    requires Content(h[..i], k).Some? && ParseNumber(Content(h[..i], k).value.data) == Some(v)
    ensures Content(h[..j], k).Some?
    ensures ParseNumber(Content(h[..j], k).value.data) == Some((v + Sum(Changes(h, i, j, k))) % TWO_64)
    ensures forall l :: i <= l < j && h[l].Did? && h[l].key == k && h[l].op.Adjust? ==>
              h[l].reply == Says(Number((v + Sum(Changes(h, i, l + 1, k))) % TWO_64))
  {
    hide Act, ParseNumber, Computed, Sum, Changes, Content;
    ArithmeticConserved(h, i, j, k, v);
    forall n | i <= n <= j ensures Computed(v, Changes(h, i, n, k)) == (v + Sum(Changes(h, i, n, k))) % TWO_64 {
      ChangesGrow(h, i, n, j, k);
      ArithmeticComposes(Incr, v, Changes(h, i, n, k));
    }
  }

  /** Zero when `taken` is more than there is. */
  function Less(v: u64, taken: nat): u64 {
    if v >= taken then v - taken else 0
  }

  /** And decrements subtract down to zero. */
  lemma DecrementsConserved(h: History, i: nat, j: nat, k: bytes, v: u64)
    requires Sound(h) && i <= j <= |h| && Undisturbed(h, i, j, k) && AllOf(Changes(h, i, j, k), Decr)
    requires Content(h[..i], k).Some? && ParseNumber(Content(h[..i], k).value.data) == Some(v)
    ensures Content(h[..j], k).Some?
    ensures ParseNumber(Content(h[..j], k).value.data) == Some(Less(v, Sum(Changes(h, i, j, k))))
    ensures forall l :: i <= l < j && h[l].Did? && h[l].key == k && h[l].op.Adjust? ==>
              h[l].reply == Says(Number(Less(v, Sum(Changes(h, i, l + 1, k)))))
  {
    hide Act, ParseNumber, Computed, Sum, Changes, Content;
    ArithmeticConserved(h, i, j, k, v);
    forall n | i <= n <= j ensures Computed(v, Changes(h, i, n, k)) == Less(v, Sum(Changes(h, i, n, k))) {
      ChangesGrow(h, i, n, j, k);
      ArithmeticComposes(Decr, v, Changes(h, i, n, k));
    }
  }

  // ---- Exclusive adds ----

  predicate IsAdd(e: Event) {
    e.Did? && e.op.Put? && e.op.op == Add
  }

  /** In this stretch `k` is not removed, and never found expired; anything else may happen to it. */
  predicate Unremoved(h: History, i: nat, j: nat, k: bytes)
    requires i <= j <= |h|
  {
    forall l :: i <= l < j && h[l].key == k && !h[l].Superseded? ==>
      && h[l].Did? && !h[l].op.Erase?
      && !(h[l].before.Some? && h[l].before.value.IsExpired(h[l].now, h[l].cutoff))
  }

  lemma AddStep(e: Event)
    requires IsAdd(e) && (e.after, e.reply) == Act(e.op, e.before, e.now, e.cutoff, e.token)
    requires !(e.before.Some? && e.before.value.IsExpired(e.now, e.cutoff))
    ensures e.after.Some? && (e.reply == Says(Stored) <==> e.before == None)
  {
  }

  lemma LiveStays(e: Event)
    requires e.Did? && (e.after, e.reply) == Act(e.op, e.before, e.now, e.cutoff, e.token)
    requires e.before.Some? && !e.before.value.IsExpired(e.now, e.cutoff) && !e.op.Erase?
    ensures e.after.Some?
  {
    hide ParseNumber, Decimal, ResolveExpiry, Joined;
  }

  lemma {:induction false} HeldStays(h: History, i: nat, j: nat, k: bytes)
    requires Sound(h) && i <= j <= |h| && Unremoved(h, i, j, k) && Content(h[..i], k).Some?
    ensures Content(h[..j], k).Some?
    decreases j
  {
    hide Act, Content, EventOk;
    if i < j {
      HeldStays(h, i, j - 1, k);
      ContentStep(h, j - 1, k);
      assert EventOk(h[..j - 1], h[j - 1]);
      if h[j - 1].key == k && h[j - 1].Did? {
        ActionOf(h[..j - 1], h[j - 1]);
        LiveStays(h[j - 1]);
      }
    }
  }

  lemma ActionOf(h: History, e: Event)
    requires EventOk(h, e) && e.Did?
    ensures e.before == Content(h, e.key) && (e.after, e.reply) == Act(e.op, e.before, e.now, e.cutoff, e.token)
  {
    hide Act, Content;
  }

  /** Between two removals of a key, whatever else happens to it, at most one `add` of it is answered STORED. */
  lemma AddIsExclusive(h: History, i: nat, j: nat, k: bytes, a: nat, b: nat)
    requires Sound(h) && i <= a < b < j <= |h| && Unremoved(h, i, j, k)
    requires h[a].key == k && h[b].key == k && (h[a].Superseded? || IsAdd(h[a])) && (h[b].Superseded? || IsAdd(h[b]))
    ensures !(h[a].reply == Says(Stored) && h[b].reply == Says(Stored))
  {
    hide Act, Content;
    assert EventOk(h[..a], h[a]) && EventOk(h[..b], h[b]);
    if h[a].Did? && h[b].Did? {
      AddStep(h[a]);
      AddStep(h[b]);
      ContentStep(h, a, k);
      HeldStays(h, a + 1, b, k);
    }
  }
}
