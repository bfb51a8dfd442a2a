// The statistics counters add up over every run of one caller.
module Counting {
  import opened Commands
  import opened Items
  import opened Stores
  import opened Eager

  /** What the counters must satisfy when `said` holds every response so far. */
  predicate Balanced(s: Counters, said: multiset<Response>) {
    && s.cmdGet == s.getHits + s.getMisses
    && s.cmdTouch == s.touchHits + s.touchMisses
    && s.cmdIncr == s.incrHits + s.incrMisses + said[NonNumeric(Incr)]
    && s.cmdDecr == s.decrHits + s.decrMisses + said[NonNumeric(Decr)]
    && s.totalItems == said[Stored]
    && s.casHits + s.casBadval + s.casMisses <= s.cmdSet
  }

  /** The answers each command can get. */
  lemma Answers(m: Model, c: Command, now: nat)
    ensures var r := Effect(m, c, now).1;
            match c
            case Get(keys, _) => r.Values? && |r.values| <= |keys|
            case GetAndTouch(keys, _, _) => r.Values? && |r.values| <= |keys|
            case Store(_, _) => r == Stored || r == NotStored || r == Exists || r == NotFound || r == MISSING_CAS
            case Delete(_, _) => r == Deleted || r == NotFound
            case Arithmetic(op, _, _, _) => r.Number? || r == NotFound || r == NonNumeric(op)
            case Touch(_, _, _) => r == Touched || r == NotFound
            case FlushAll(_, _) => r == Okay
            case Version => r.VersionIs?
            case Verbosity(_, _) => r == Okay
            case Stats => r.StatsReport?
  {
    hide WithSlot, ParseNumber, Report;
  }

  lemma OneMore(s: Counters, said: multiset<Response>, m: Model, c: Command, now: nat)
    requires Balanced(s, said)
    ensures var r := Effect(m, c, now).1; Balanced(Tally(s, c, r), said + multiset{r})
  {
    hide Effect;
    Answers(m, c, now);
    assert NonNumeric(Incr) != NonNumeric(Decr);
  }

  /** In every run the counters stay in balance with the answers given. */
  lemma {:induction false} BalanceKept(m: Model, rs: seq<Request>, said: multiset<Response>)
    requires Balanced(m.stats, said)
    ensures Balanced(ApplyAll(m, rs).0.stats, said + multiset(ApplyAll(m, rs).1))
    decreases |rs|
  {
    hide Balanced, Tally, Effect;
    if rs == [] {
      assert said + multiset([]) == said;
    } else {
      var (m1, r) := Apply(m, rs[0].command, rs[0].now);
      OneMore(m.stats, said, m, rs[0].command, rs[0].now);
      BalanceKept(m1, rs[1..], said + multiset{r});
      var more := ApplyAll(m1, rs[1..]).1;
      assert said + multiset{r} + multiset(more) == said + multiset([r] + more);
    }
  }
}
