/**
 * The browser login round trip (src/auth/login-flow.js): a signed state carries the hash of
 * a nonce, and a table of consumed hashes makes each state good for one code exchange.
 *
 * Everything completeLogin does before it contacts the identity provider is one atomic step;
 * interleaved callbacks are therefore sequences of such steps. The clock is read three times in
 * it: for the expiry test, for the purge, and for the time of consumption. A state with a good
 * signature is one that was issued.
 */
module LoginFlow {
  import opened Strings

  type Hash = string

  /** A consumed state: the hash of its nonce and the time of consumption. */
  datatype Used = Used(hash: Hash, at: int)

  /** The consumed table, oldest first, as a Map iterates it. */
  type Table = seq<Used>

  datatype Settings = Settings(stateTtlMs: int, maxConsumed: nat)

  /**
   * A callback: the state's payload if its signature is good, the hash of the cookie, and whether a code came
   * along.
   */
  datatype Callback = Callback(hash: Option<Hash>, issuedAt: int, cookieHash: Option<Hash>, hasCode: bool)

  /** The three readings of the clock. */
  datatype Times = Times(now: int, purge: int, stamp: int)

  datatype Answer = StateInvalid | StateExpired | StateUnbound | StateMismatch | StateReused | CodeRequired | Exchange

  // ---------------------------------------------------------------- the step

  predicate Contains(table: Table, hash: Hash) {
    exists i :: 0 <= i < |table| && table[i].hash == hash
  }

  /** purgeConsumed: drops entries from the front while they are old enough, and stops at the first that is not. */
  function Purged(table: Table, cutoff: int): Table {
    if table != [] && table[0].at <= cutoff then Purged(table[1..], cutoff) else table
  }

  function LastOf(table: Table, n: nat): Table {
    if |table| <= n then table else table[|table| - n..]
  }

  /** The checks before the table is touched. */
  function Refusal(cfg: Settings, cb: Callback, now: int): Option<Answer> {
    if cb.hash.None? then Some(StateInvalid)
    else if now - cb.issuedAt > cfg.stateTtlMs then Some(StateExpired)
    else if cb.cookieHash.None? then Some(StateUnbound)
    else if cb.cookieHash != cb.hash then Some(StateMismatch)
    else None
  }

  function Completed(cfg: Settings, table: Table, cb: Callback, t: Times): (Table, Answer) {
    if Refusal(cfg, cb, t.now).Some? then (table, Refusal(cfg, cb, t.now).value)
    else
      var purged := Purged(table, t.purge - cfg.stateTtlMs);
      if Contains(purged, cb.hash.value) then (purged, StateReused)
      else if !cb.hasCode then (purged, CodeRequired)
      else (LastOf(purged + [Used(cb.hash.value, t.stamp)], cfg.maxConsumed), Exchange)
  }

  // ---------------------------------------------------------------- the flow object

  class Flow {
    const cfg: Settings
    var consumed: Table

    constructor (cfg: Settings)
      ensures this.cfg == cfg && consumed == []
    {
      this.cfg, consumed := cfg, [];
    }

    method PurgeConsumed(now: int)
      modifies this
      ensures consumed == Purged(old(consumed), now - cfg.stateTtlMs)
    {
      var cutoff := now - cfg.stateTtlMs;
      var i := 0;
      while i < |consumed|
        invariant 0 <= i <= |consumed|
        invariant Purged(consumed[i..], cutoff) == Purged(consumed, cutoff)
      {
        if consumed[i].at > cutoff { break; }
        assert consumed[i..][1..] == consumed[i + 1..];
        i := i + 1;
      }
      consumed := consumed[i..];
    }

    /** completeLogin up to the code exchange. */
    method CompleteLogin(cb: Callback, t: Times) returns (answer: Answer)
      modifies this
      ensures (consumed, answer) == Completed(cfg, old(consumed), cb, t)
    {
      if cb.hash.None? { return StateInvalid; }
      if t.now - cb.issuedAt > cfg.stateTtlMs { return StateExpired; }
      if cb.cookieHash.None? { return StateUnbound; }
      if cb.cookieHash != cb.hash { return StateMismatch; }
      PurgeConsumed(t.purge);
      if Contains(consumed, cb.hash.value) { return StateReused; }
      if !cb.hasCode { return CodeRequired; }
      consumed := consumed + [Used(cb.hash.value, t.stamp)];
      ghost var full := consumed;
      while |consumed| > cfg.maxConsumed
        invariant |consumed| <= |full| && consumed == full[|full| - |consumed|..]
        invariant |full| > cfg.maxConsumed ==> |consumed| >= cfg.maxConsumed
        invariant |full| <= cfg.maxConsumed ==> consumed == full
        decreases |consumed|
      {
        consumed := consumed[1..];
      }
      return Exchange;
    }
  }

  // ---------------------------------------------------------------- runs

  datatype Step = Step(cb: Callback, times: Times)

  /**
   * The table, when each state was issued (its hash is of a fresh nonce, so it is issued once),
   * the last consumption of each exchanged hash, the hashes the cap has pushed out, the clock,
   * and the code exchanges so far.
   */
  datatype World = World(table: Table, exchanged: map<Hash, int>, pushedOut: set<Hash>, clock: int,
                         exchanges: seq<Hash>)

  function Hashes(table: Table): set<Hash> {
    set i | 0 <= i < |table| :: table[i].hash
  }

  predicate Allowed(issued: map<Hash, int>, w: World, s: Step) {
    && w.clock <= s.times.now <= s.times.purge <= s.times.stamp
    && (s.cb.hash.Some? ==> s.cb.hash.value in issued && issued[s.cb.hash.value] == s.cb.issuedAt <= s.times.now)
  }

  function After(cfg: Settings, w: World, s: Step): World {
    var (table, answer) := Completed(cfg, w.table, s.cb, s.times);
    var stamp := s.times.stamp;
    if answer != Exchange then w.(table := table, clock := stamp)
    else
      var h := s.cb.hash.value;
      var before := Purged(w.table, s.times.purge - cfg.stateTtlMs) + [Used(h, stamp)];
      World(table, w.exchanged[h := stamp], w.pushedOut + (Hashes(before) - Hashes(table)), stamp, w.exchanges + [h])
  }

  function Run(cfg: Settings, w: World, steps: seq<Step>): World
    decreases steps
  {
    if steps == [] then w else Run(cfg, After(cfg, w, steps[0]), steps[1..])
  }

  predicate Possible(cfg: Settings, issued: map<Hash, int>, w: World, steps: seq<Step>)
    decreases steps
  {
    steps == [] || (Allowed(issued, w, steps[0]) && Possible(cfg, issued, After(cfg, w, steps[0]), steps[1..]))
  }

  function Empty(): World {
    World([], map[], {}, 0, [])
  }

  // ---------------------------------------------------------------- purging

  predicate InOrder(table: Table) {
    forall i, j :: 0 <= i < j < |table| ==> table[i].at <= table[j].at
  }

  function Filtered(table: Table, cutoff: int): Table {
    if table == [] then [] else (if table[0].at > cutoff then [table[0]] else []) + Filtered(table[1..], cutoff)
  }

  /** Stopping at the first young entry loses nothing: the early break purges exactly what a full filter would. */
  lemma {:induction false} PurgeIsFilter(table: Table, cutoff: int)
    requires InOrder(table)
    ensures Purged(table, cutoff) == Filtered(table, cutoff)
  {
    if table != [] {
      PurgeIsFilter(table[1..], cutoff);
      if table[0].at > cutoff { AllYoung(table, cutoff); }
    }
  }

  lemma {:induction false} AllYoung(table: Table, cutoff: int)
    requires forall i :: 0 <= i < |table| ==> table[i].at > cutoff
    ensures Filtered(table, cutoff) == table
  {
    if table != [] {
      AllYoung(table[1..], cutoff);
      assert table == [table[0]] + table[1..];
    }
  }

  lemma {:induction false} PurgedIsSuffix(table: Table, cutoff: int)
    ensures |Purged(table, cutoff)| <= |table|
    ensures Purged(table, cutoff) == table[|table| - |Purged(table, cutoff)|..]
  {
    if table != [] && table[0].at <= cutoff { PurgedIsSuffix(table[1..], cutoff); }
  }

  /** What is purged was old. */
  lemma {:induction false} PurgedKeepsYoung(table: Table, cutoff: int, i: nat)
    requires i < |table| && table[i].at > cutoff
    ensures table[i] in Purged(table, cutoff)
  {
    if table[0].at <= cutoff { PurgedKeepsYoung(table[1..], cutoff, i - 1); }
  }

  lemma {:induction false} PurgedDropsOld(table: Table, cutoff: int)
    requires InOrder(table)
    ensures forall i :: 0 <= i < |Purged(table, cutoff)| ==> Purged(table, cutoff)[i].at > cutoff
  {
    if table != [] && table[0].at <= cutoff { PurgedDropsOld(table[1..], cutoff); }
  }

  // ---------------------------------------------------------------- the invariant

  predicate DistinctHashes(table: Table) {
    forall i, j :: 0 <= i < j < |table| ==> table[i].hash != table[j].hash
  }

  /** The table is in time order and holds only true exchanges, each once. */
  ghost predicate TableOk(table: Table, exchanged: map<Hash, int>) {
    && InOrder(table) && DistinctHashes(table)
    && forall i :: 0 <= i < |table| ==> table[i].hash in exchanged && table[i].at == exchanged[table[i].hash]
  }

  /** The table has every exchange after the cutoff that was not pushed out. */
  ghost predicate Remembers(w: World, cutoff: int) {
    forall h :: h in w.exchanged && h !in w.pushedOut && w.exchanged[h] > cutoff ==> Used(h, w.exchanged[h]) in w.table
  }

  ghost predicate Past(exchanged: map<Hash, int>, clock: int) {
    forall h :: h in exchanged ==> exchanged[h] <= clock
  }

  ghost predicate Inv(cfg: Settings, w: World) {
    && TableOk(w.table, w.exchanged) && |w.table| <= cfg.maxConsumed
    && (forall h :: h in w.exchanges <==> h in w.exchanged)
    && Past(w.exchanged, w.clock) && Remembers(w, w.clock - cfg.stateTtlMs)
  }

  lemma SuffixOk(table: Table, exchanged: map<Hash, int>, d: nat)
    requires TableOk(table, exchanged) && d <= |table|
    ensures TableOk(table[d..], exchanged)
  {
    var suffix := table[d..];
    assert forall i :: 0 <= i < |suffix| ==> suffix[i] == table[i + d];
  }

  lemma GrownOk(table: Table, exchanged: map<Hash, int>, h: Hash, now: int)
    requires TableOk(table, exchanged) && !Contains(table, h) && Past(exchanged, now)
    ensures TableOk(table + [Used(h, now)], exchanged[h := now])
  {
  }

  lemma PurgeKeeps(cfg: Settings, w: World, later: int)
    requires Inv(cfg, w) && w.clock <= later
    ensures Inv(cfg, w.(table := Purged(w.table, later - cfg.stateTtlMs), clock := later))
  {
    var cutoff := later - cfg.stateTtlMs;
    PurgedIsSuffix(w.table, cutoff);
    SuffixOk(w.table, w.exchanged, |w.table| - |Purged(w.table, cutoff)|);
    PurgeRemembers(w, w.clock - cfg.stateTtlMs, cutoff);
  }

  lemma PurgeRemembers(w: World, before: int, cutoff: int)
    requires Remembers(w, before) && before <= cutoff
    ensures Remembers(w.(table := Purged(w.table, cutoff)), cutoff)
  {
    forall h | h in w.exchanged && h !in w.pushedOut && w.exchanged[h] > cutoff
      ensures Used(h, w.exchanged[h]) in Purged(w.table, cutoff)
    {
      var i :| 0 <= i < |w.table| && w.table[i] == Used(h, w.exchanged[h]);
      PurgedKeepsYoung(w.table, cutoff, i);
    }
  }

  function Exchanged(cfg: Settings, w: World, h: Hash): World {
    var before := w.table + [Used(h, w.clock)];
    var table := LastOf(before, cfg.maxConsumed);
    World(table, w.exchanged[h := w.clock], w.pushedOut + (Hashes(before) - Hashes(table)), w.clock, w.exchanges + [h])
  }

  lemma ExchangeKeeps(cfg: Settings, w: World, h: Hash)
    requires Inv(cfg, w) && !Contains(w.table, h)
    ensures Inv(cfg, Exchanged(cfg, w, h))
  {
    var before := w.table + [Used(h, w.clock)];
    var after := Exchanged(cfg, w, h);
    GrownOk(w.table, w.exchanged, h, w.clock);
    SuffixOk(before, after.exchanged, |before| - |after.table|);
    assert after.table == before[|before| - |after.table|..];
    forall g | g in after.exchanged && g !in after.pushedOut && after.exchanged[g] > w.clock - cfg.stateTtlMs
      ensures Used(g, after.exchanged[g]) in after.table
    {
      ExchangeRemembers(cfg, w, h, g);
    }
  }

  lemma ExchangeRemembers(cfg: Settings, w: World, h: Hash, g: Hash)
    requires TableOk(w.table, w.exchanged) && Remembers(w, w.clock - cfg.stateTtlMs) && Past(w.exchanged, w.clock)
    requires !Contains(w.table, h)
    requires var after := Exchanged(cfg, w, h);
             g in after.exchanged && g !in after.pushedOut && after.exchanged[g] > w.clock - cfg.stateTtlMs
    ensures Used(g, Exchanged(cfg, w, h).exchanged[g]) in Exchanged(cfg, w, h).table
  {
    var before := w.table + [Used(h, w.clock)];
    var u := Used(g, Exchanged(cfg, w, h).exchanged[g]);
    GrownOk(w.table, w.exchanged, h, w.clock);
    assert before[|w.table|] == Used(h, w.clock);
    assert g != h ==> u in w.table;
    assert u in before;
    var i :| 0 <= i < |before| && before[i] == u;
    assert g in Hashes(before);
    StillThere(before, cfg.maxConsumed, i);
  }

  /** An entry whose hash is still in the table after the cap is itself still there. */
  lemma StillThere(before: Table, n: nat, i: nat)
    requires i < |before| && DistinctHashes(before) && before[i].hash in Hashes(LastOf(before, n))
    ensures before[i] in LastOf(before, n)
  {
    var table := LastOf(before, n);
    var j :| 0 <= j < |table| && table[j].hash == before[i].hash;
    var k := j + (|before| - |table|);
    assert before[k] == table[j];
    assert k == i;
  }

  lemma LaterKeeps(cfg: Settings, w: World, later: int)
    requires Inv(cfg, w) && w.clock <= later
    ensures Inv(cfg, w.(clock := later))
  {
    forall h | h in w.exchanged && h !in w.pushedOut && w.exchanged[h] > later - cfg.stateTtlMs
      ensures Used(h, w.exchanged[h]) in w.table
    {
      assert w.exchanged[h] > w.clock - cfg.stateTtlMs;
    }
  }

  /** The state after the purge of a step, at the time of consumption. */
  function AfterPurge(cfg: Settings, w: World, t: Times): World {
    w.(table := Purged(w.table, t.purge - cfg.stateTtlMs), clock := t.stamp)
  }

  /** A step leaves the state alone, purges the table, or purges it and adds an exchange. */
  lemma StepIs(cfg: Settings, w: World, s: Step)
    ensures var purged := AfterPurge(cfg, w, s.times);
            || After(cfg, w, s) == w.(clock := s.times.stamp)
            || After(cfg, w, s) == purged
            || (s.cb.hash.Some? && !Contains(purged.table, s.cb.hash.value)
                && After(cfg, w, s) == Exchanged(cfg, purged, s.cb.hash.value))
  {
  }

  lemma StepKeeps(cfg: Settings, issued: map<Hash, int>, w: World, s: Step)
    requires Inv(cfg, w) && Allowed(issued, w, s)
    ensures Inv(cfg, After(cfg, w, s))
  {
    var purged := w.(table := Purged(w.table, s.times.purge - cfg.stateTtlMs), clock := s.times.purge);
    LaterKeeps(cfg, w, s.times.stamp);
    PurgeKeeps(cfg, w, s.times.purge);
    LaterKeeps(cfg, purged, s.times.stamp);
    StepIs(cfg, w, s);
    if s.cb.hash.Some? && !Contains(purged.table, s.cb.hash.value) {
      ExchangeKeeps(cfg, AfterPurge(cfg, w, s.times), s.cb.hash.value);
    }
  }

  /** Between calls the table never exceeds its cap and stays in time order, over every run. */
  lemma {:induction false} RunKeeps(cfg: Settings, issued: map<Hash, int>, w: World, steps: seq<Step>)
    requires Inv(cfg, w) && Possible(cfg, issued, w, steps)
    ensures Inv(cfg, Run(cfg, w, steps))
    decreases steps
  {
    if steps != [] {
      StepKeeps(cfg, issued, w, steps[0]);
      RunKeeps(cfg, issued, After(cfg, w, steps[0]), steps[1..]);
    }
  }

  // ---------------------------------------------------------------- single use

  /** A callback that passes every check but the consumed table. */
  predicate Complete(s: Step) {
    s.cb.hash.Some? && s.cb.cookieHash == s.cb.hash && s.cb.hasCode
  }

  /** After a purge the table still knows an exchange, not pushed out, exactly while it is young. */
  lemma RemembersIff(cfg: Settings, w: World, later: int, h: Hash)
    requires Inv(cfg, w) && w.clock <= later && h in w.exchanged && h !in w.pushedOut
    ensures Contains(Purged(w.table, later - cfg.stateTtlMs), h) <==> w.exchanged[h] > later - cfg.stateTtlMs
  {
    var cutoff := later - cfg.stateTtlMs;
    PurgeKeeps(cfg, w, later);
    PurgedDropsOld(w.table, cutoff);
  }

  /**
   * Exactly when a state that was already exchanged, and not pushed out by the cap, reaches the
   * exchange again: it must still be valid while its consumption is already purged.
   */
  lemma SecondExchangeIff(cfg: Settings, issued: map<Hash, int>, w: World, s: Step)
    requires Inv(cfg, w) && Allowed(issued, w, s) && Complete(s)
    requires s.cb.hash.value in w.exchanged && s.cb.hash.value !in w.pushedOut
    ensures var h := s.cb.hash.value;
            Completed(cfg, w.table, s.cb, s.times).1 == Exchange <==>
            s.times.now - issued[h] <= cfg.stateTtlMs && w.exchanged[h] <= s.times.purge - cfg.stateTtlMs
  {
    RemembersIff(cfg, w, s.times.purge, s.cb.hash.value);
  }

  /**
   * With a clock that does not tick between the expiry test and the purge: a second exchange needs a state
   * consumed at the very instant of its issue and replayed at the very last instant of its life.
   */
  lemma ReplayOnlyAtTheBoundary(cfg: Settings, issued: map<Hash, int>, w: World, s: Step)
    requires Inv(cfg, w) && Allowed(issued, w, s) && Complete(s) && s.times.purge == s.times.now
    requires s.cb.hash.value in w.exchanged && s.cb.hash.value !in w.pushedOut
    requires issued[s.cb.hash.value] <= w.exchanged[s.cb.hash.value]
    ensures var h := s.cb.hash.value;
            Completed(cfg, w.table, s.cb, s.times).1 == Exchange <==>
            w.exchanged[h] == issued[h] && s.times.now == issued[h] + cfg.stateTtlMs
  {
    SecondExchangeIff(cfg, issued, w, s);
  }

  lemma PushedOutGrows(cfg: Settings, w: World, s: Step)
    ensures w.pushedOut <= After(cfg, w, s).pushedOut
  {
  }

  lemma {:induction false} PushedOutGrowsOverRuns(cfg: Settings, w: World, steps: seq<Step>)
    ensures w.pushedOut <= Run(cfg, w, steps).pushedOut
    decreases steps
  {
    if steps != [] {
      PushedOutGrows(cfg, w, steps[0]);
      PushedOutGrowsOverRuns(cfg, After(cfg, w, steps[0]), steps[1..]);
    }
  }

  /**
   * Single use: over every run and interleaving, a state once exchanged later than its issue by
   * more than the clock moves between expiry test and purge never reaches the exchange again, unless the cap
   * pushes it out.
   */
  lemma {:induction false} NeverExchangedAgain(cfg: Settings, issued: map<Hash, int>, w: World, steps: seq<Step>,
                                               h: Hash, drift: nat)
    requires Inv(cfg, w) && Possible(cfg, issued, w, steps)
    requires h in issued && h in w.exchanged && w.exchanged[h] - issued[h] > drift
    requires forall i :: 0 <= i < |steps| ==> steps[i].times.purge - steps[i].times.now <= drift
    requires h !in Run(cfg, w, steps).pushedOut
    ensures multiset(Run(cfg, w, steps).exchanges)[h] == multiset(w.exchanges)[h]
    decreases steps
  {
    if steps != [] {
      var after := After(cfg, w, steps[0]);
      PushedOutGrowsOverRuns(cfg, after, steps[1..]);
      PushedOutGrows(cfg, w, steps[0]);
      StepDoesNotRepeat(cfg, issued, w, steps[0], h, drift);
      StepKeeps(cfg, issued, w, steps[0]);
      NeverExchangedAgain(cfg, issued, after, steps[1..], h, drift);
    }
  }

  lemma {:induction false} StepDoesNotRepeat(cfg: Settings, issued: map<Hash, int>, w: World, s: Step, h: Hash,
                                             drift: nat)
    requires Inv(cfg, w) && Allowed(issued, w, s) && s.times.purge - s.times.now <= drift
    requires h in issued && h in w.exchanged && h !in w.pushedOut && w.exchanged[h] - issued[h] > drift
    ensures multiset(After(cfg, w, s).exchanges)[h] == multiset(w.exchanges)[h]
    ensures h in After(cfg, w, s).exchanged && After(cfg, w, s).exchanged[h] == w.exchanged[h]
  {
    if Complete(s) && s.cb.hash.value == h {
      SecondExchangeIff(cfg, issued, w, s);
    }
  }

  lemma NotExchangedYet(exchanges: seq<Hash>, h: Hash)
    requires h !in exchanges
    ensures multiset(exchanges + [h])[h] == 1
  {
    assert multiset(exchanges)[h] == 0;
  }

  /** The first exchange of a state, in any run of a new flow, is then its only one. */
  lemma {:induction false} ExchangedAtMostOnce(cfg: Settings, issued: map<Hash, int>, before: seq<Step>, s: Step,
                                               after: seq<Step>,
                            drift: nat)
    requires Possible(cfg, issued, Empty(), before) && Complete(s)
    requires var w := Run(cfg, Empty(), before);
             && s.cb.hash.value !in w.exchanged && Allowed(issued, w, s)
             && Completed(cfg, w.table, s.cb, s.times).1 == Exchange
             && s.times.stamp - issued[s.cb.hash.value] > drift
             && Possible(cfg, issued, After(cfg, w, s), after)
             && s.cb.hash.value !in Run(cfg, After(cfg, w, s), after).pushedOut
    requires forall i :: 0 <= i < |after| ==> after[i].times.purge - after[i].times.now <= drift
    ensures multiset(Run(cfg, After(cfg, Run(cfg, Empty(), before), s), after).exchanges)[s.cb.hash.value] == 1
  {
    RunKeeps(cfg, issued, Empty(), before);
    var w, h := Run(cfg, Empty(), before), s.cb.hash.value;
    StepKeeps(cfg, issued, w, s);
    NotExchangedYet(w.exchanges, h);
    NeverExchangedAgain(cfg, issued, After(cfg, w, s), after, h, drift);
  }

  // ---------------------------------------------------------------- which answer

  /** The state is signed, in time at the expiry test, and bound to the browser by the cookie. */
  predicate Vouched(cfg: Settings, s: Step) {
    && s.cb.hash.Some? && s.times.now <= s.cb.issuedAt + cfg.stateTtlMs
    && s.cb.cookieHash.Some? && s.cb.cookieHash.value == s.cb.hash.value
  }

  /** The state was exchanged within one lifetime before the purge. */
  predicate UsedLately(cfg: Settings, w: World, s: Step) {
    && s.cb.hash.Some? && s.cb.hash.value in w.exchanged
    && w.exchanged[s.cb.hash.value] > s.times.purge - cfg.stateTtlMs
  }

  lemma ReusedIff(cfg: Settings, w: World, s: Step)
    requires Inv(cfg, w) && w.clock <= s.times.purge && s.cb.hash.Some?
    requires s.cb.hash.value in w.exchanged ==> s.cb.hash.value !in w.pushedOut
    ensures Contains(Purged(w.table, s.times.purge - cfg.stateTtlMs), s.cb.hash.value) <==> UsedLately(cfg, w, s)
  {
    if s.cb.hash.value in w.exchanged {
      RemembersIff(cfg, w, s.times.purge, s.cb.hash.value);
    } else {
      PurgedIsSuffix(w.table, s.times.purge - cfg.stateTtlMs);
    }
  }

  /** What is refused before the consumed table is asked, which then stays as it is. */
  lemma RefusedIff(cfg: Settings, table: Table, s: Step)
    ensures var (after, answer) := Completed(cfg, table, s.cb, s.times);
            var late := s.cb.hash.Some? && s.times.now > s.cb.issuedAt + cfg.stateTtlMs;
            && (answer == StateInvalid <==> s.cb.hash.None?)
            && (answer == StateExpired <==> late)
            && (answer == StateUnbound <==> s.cb.hash.Some? && !late && s.cb.cookieHash.None?)
            && (answer == StateMismatch <==>
                s.cb.hash.Some? && !late && s.cb.cookieHash.Some? && s.cb.cookieHash.value != s.cb.hash.value)
            && (!Vouched(cfg, s) <==> answer in {StateInvalid, StateExpired, StateUnbound, StateMismatch})
            && (!Vouched(cfg, s) ==> after == table)
  {
  }

  /**
   * Over every run: a callback that is not refused for its state or cookie is told that the state was used if
   * it was exchanged within its lifetime, else that it lacks a code if it does, and else is exchanged, as
   * long as the cap has not pushed its state out. Nothing else counts as an exchange.
   */
  lemma AnswerIff(cfg: Settings, issued: map<Hash, int>, before: seq<Step>, s: Step)
    requires Possible(cfg, issued, Empty(), before) && Allowed(issued, Run(cfg, Empty(), before), s)
    requires var w := Run(cfg, Empty(), before);
             s.cb.hash.Some? && s.cb.hash.value in w.exchanged ==> s.cb.hash.value !in w.pushedOut
    ensures var w := Run(cfg, Empty(), before);
            var answer := Completed(cfg, w.table, s.cb, s.times).1;
            && (answer == StateReused <==> Vouched(cfg, s) && UsedLately(cfg, w, s))
            && (answer == CodeRequired <==> Vouched(cfg, s) && !UsedLately(cfg, w, s) && !s.cb.hasCode)
            && (answer == Exchange <==> Vouched(cfg, s) && !UsedLately(cfg, w, s) && s.cb.hasCode)
  {
    RunKeeps(cfg, issued, Empty(), before);
    StepAnswers(cfg, Run(cfg, Empty(), before), s);
  }

  lemma StepAnswers(cfg: Settings, w: World, s: Step)
    requires Inv(cfg, w) && w.clock <= s.times.purge
    requires s.cb.hash.Some? && s.cb.hash.value in w.exchanged ==> s.cb.hash.value !in w.pushedOut
    ensures var answer := Completed(cfg, w.table, s.cb, s.times).1;
            && (answer == StateReused <==> Vouched(cfg, s) && UsedLately(cfg, w, s))
            && (answer == CodeRequired <==> Vouched(cfg, s) && !UsedLately(cfg, w, s) && !s.cb.hasCode)
            && (answer == Exchange <==> Vouched(cfg, s) && !UsedLately(cfg, w, s) && s.cb.hasCode)
  {
    RefusedIff(cfg, w.table, s);
    if Vouched(cfg, s) { ReusedIff(cfg, w, s); }
  }

  /**
   * Over every run: a state never exchanged before, in time, with its cookie and a code, is exchanged and then
   * known.
   */
  lemma FirstExchangeSucceeds(cfg: Settings, issued: map<Hash, int>, before: seq<Step>, s: Step)
    requires Possible(cfg, issued, Empty(), before) && Allowed(issued, Run(cfg, Empty(), before), s)
    requires Vouched(cfg, s) && s.cb.hasCode && s.cb.hash.value !in Run(cfg, Empty(), before).exchanged
    ensures var w := Run(cfg, Empty(), before);
            var (table, answer) := Completed(cfg, w.table, s.cb, s.times);
            answer == Exchange && (cfg.maxConsumed > 0 ==> Contains(table, s.cb.hash.value))
  {
    RunKeeps(cfg, issued, Empty(), before);
    var w := Run(cfg, Empty(), before);
    ReusedIff(cfg, w, s);
    var grown := Purged(w.table, s.times.purge - cfg.stateTtlMs) + [Used(s.cb.hash.value, s.times.stamp)];
    var table := LastOf(grown, cfg.maxConsumed);
    assert grown[|grown| - 1] == Used(s.cb.hash.value, s.times.stamp);
    assert cfg.maxConsumed > 0 ==> table[|table| - 1] == grown[|grown| - 1];
  }
}
