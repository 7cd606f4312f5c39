/**
 * Signed, rotating sessions (src/auth/session.js).
 *
 * A token is its payload: HMAC signatures are taken to be unforgeable, so the tokens that
 * pass the signature check are the payloads that were minted. An operation reads the clock
 * up to three times; the clock never goes back.
 */
module Session {
  import opened Strings

  type SessionId = string
  type AccountId = string

  /** The server-side entry; start and absExp never change across rotations. */
  datatype Entry = Entry(account: AccountId, rotation: nat, start: int, absExp: int)

  /** The signed payload. */
  datatype Token = Token(sid: SessionId, account: AccountId, rotation: nat, iat: int, exp: int, start: int, aexp: int)

  type Table = map<SessionId, Entry>

  datatype Settings = Settings(ttlMs: int, maxLifetimeMs: int)

  /** The readings of the clock in one operation: for the absolute expiry, for the token's own, for a new token. */
  datatype Times = Times(first: int, second: int, third: int)

  function Min(a: int, b: int): int { if a <= b then a else b }

  function Mint(cfg: Settings, sid: SessionId, account: AccountId, rotation: nat, iat: int, start: int, absExp: int)
    : Token
  {
    Token(sid, account, rotation, iat, Min(iat + cfg.ttlMs, absExp), start, absExp)
  }

  // ---------------------------------------------------------------- the table, one operation at a time

  function Issued(cfg: Settings, table: Table, sid: SessionId, account: AccountId, now: int): (Table, Token) {
    var absExp := now + cfg.maxLifetimeMs;
    (table[sid := Entry(account, 0, now, absExp)], Mint(cfg, sid, account, 0, now, now, absExp))
  }

  predicate Accepts(table: Table, token: Token, now: Times) {
    && token.sid in table
    && var e := table[token.sid];
       e.account == token.account && e.rotation == token.rotation
       && now.first < Min(token.aexp, e.absExp) && now.second < token.exp
  }

  /** decode: a stale rotation or a passed absolute expiry removes the session, whatever the answer. */
  function AfterDecode(table: Table, token: Token, now: Times): Table {
    if token.sid !in table then table
    else
      var e := table[token.sid];
      if e.account != token.account then table
      else if token.rotation < e.rotation then table - {token.sid}
      else if token.rotation != e.rotation then table
      else if now.first >= Min(token.aexp, e.absExp) then table - {token.sid}
      else table
  }

  function Rotated(cfg: Settings, table: Table, token: Token, now: Times): (Table, Option<Token>) {
    var after := AfterDecode(table, token, now);
    if Accepts(table, token, now) then
      var e := table[token.sid];
      var next := e.(rotation := e.rotation + 1);
      (after[token.sid := next],
       Some(Mint(cfg, token.sid, token.account, next.rotation, now.third, e.start, e.absExp)))
    else (after, None)
  }

  function Revoked(table: Table, sid: SessionId, account: Option<AccountId>): Table {
    if sid in table && (account.None? || table[sid].account == account.value) then table - {sid} else table
  }

  function Reaped(table: Table, now: int): Table {
    map sid | sid in table && now < table[sid].absExp :: table[sid]
  }

  // ---------------------------------------------------------------- the manager

  class SessionManager {
    const cfg: Settings
    var sessions: Table

    constructor (cfg: Settings)
      ensures this.cfg == cfg && sessions == map[]
    {
      this.cfg, sessions := cfg, map[];
    }

    /** issue, with the fresh id the random source gave. */
    method Issue(account: AccountId, sid: SessionId, now: int) returns (token: Token)
      modifies this
      ensures (sessions, token) == Issued(cfg, old(sessions), sid, account, now)
    {
      var absExp := now + cfg.maxLifetimeMs;
      sessions := sessions[sid := Entry(account, 0, now, absExp)];
      token := Mint(cfg, sid, account, 0, now, now, absExp);
    }

    /** decode and verify of a token whose signature is good. */
    method Decode(token: Token, now: Times) returns (ok: bool)
      modifies this
      ensures ok == Accepts(old(sessions), token, now)
      ensures sessions == AfterDecode(old(sessions), token, now)
    {
      if token.sid in sessions && sessions[token.sid].account == token.account
         && token.rotation < sessions[token.sid].rotation {
        sessions := sessions - {token.sid};
        return false;
      }
      if token.sid !in sessions || sessions[token.sid].rotation != token.rotation
         || sessions[token.sid].account != token.account {
        return false;
      }
      var absExp := Min(token.aexp, sessions[token.sid].absExp);
      if now.first >= absExp {
        sessions := sessions - {token.sid};
        return false;
      }
      return now.second < token.exp;
    }

    method Rotate(token: Token, now: Times) returns (next: Option<Token>)
      modifies this
      ensures (sessions, next) == Rotated(cfg, old(sessions), token, now)
    {
      var ok := Decode(token, now);
      if !ok { return None; }
      var entry := sessions[token.sid];
      var rotation := entry.rotation + 1;
      sessions := sessions[token.sid := Entry(token.account, rotation, entry.start, entry.absExp)];
      return Some(Mint(cfg, token.sid, token.account, rotation, now.third, entry.start, entry.absExp));
    }

    method Revoke(sid: SessionId, account: Option<AccountId>) returns (revoked: bool)
      modifies this
      ensures sessions == Revoked(old(sessions), sid, account)
      ensures revoked <==> sessions != old(sessions)
    {
      if sid !in sessions { return false; }
      if account.Some? && sessions[sid].account != account.value { return false; }
      sessions := sessions - {sid};
      return true;
    }

    method ReapExpired(now: int) returns (reaped: nat)
      modifies this
      ensures sessions == Reaped(old(sessions), now)
      ensures reaped == |old(sessions)| - |sessions|
    {
      reaped := 0;
      var todo := sessions.Keys;
      while todo != {}
        invariant todo <= old(sessions).Keys && todo <= sessions.Keys
        invariant forall sid :: sid in sessions ==> sid in old(sessions) && sessions[sid] == old(sessions)[sid]
        invariant forall sid :: sid in old(sessions) && sid !in todo ==>
                    (sid in sessions <==> now < old(sessions)[sid].absExp)
        invariant |sessions| + reaped == |old(sessions)|
        decreases |todo|
      {
        var sid :| sid in todo;
        todo := todo - {sid};
        if now >= sessions[sid].absExp {
          ghost var before := sessions;
          sessions := sessions - {sid};
          assert before.Keys == sessions.Keys + {sid};
          reaped := reaped + 1;
        }
      }
    }
  }

  // ---------------------------------------------------------------- runs

  datatype Event =
    | Issue(account: AccountId, sid: SessionId)
    | Verify(token: Token)
    | Rotate(presented: Token)
    | Revoke(revoked: SessionId, owner: Option<AccountId>)
    | Reap

  /** The manager, every token minted so far, and the time of the last operation. */
  datatype World = World(table: Table, minted: set<Token>, clock: int)

  /** One event at a time not before the last; only minted tokens carry a signature, and session ids are fresh. */
  predicate Allowed(w: World, e: Event, now: Times) {
    && w.clock <= now.first <= now.second <= now.third
    && match e
       case Issue(_, sid) => forall t :: t in w.minted ==> t.sid != sid
       case Verify(token) => token in w.minted
       case Rotate(token) => token in w.minted
       case _ => true
  }

  function Step(cfg: Settings, w: World, e: Event, now: Times): World {
    match e
    case Issue(account, sid) =>
      var (table, token) := Issued(cfg, w.table, sid, account, now.first);
      World(table, w.minted + {token}, now.third)
    case Verify(token) => World(AfterDecode(w.table, token, now), w.minted, now.third)
    case Rotate(token) =>
      var (table, next) := Rotated(cfg, w.table, token, now);
      World(table, if next.Some? then w.minted + {next.value} else w.minted, now.third)
    case Revoke(sid, owner) => World(Revoked(w.table, sid, owner), w.minted, now.third)
    case Reap => World(Reaped(w.table, now.first), w.minted, now.third)
  }

  /** Events with their times. */
  type Trace = seq<(Event, Times)>

  function Run(cfg: Settings, w: World, trace: Trace): World
    decreases trace
  {
    if trace == [] then w else Run(cfg, Step(cfg, w, trace[0].0, trace[0].1), trace[1..])
  }

  predicate Possible(cfg: Settings, w: World, trace: Trace)
    decreases trace
  {
    trace == [] ||
    (Allowed(w, trace[0].0, trace[0].1) && Possible(cfg, Step(cfg, w, trace[0].0, trace[0].1), trace[1..]))
  }

  ghost predicate HasToken(minted: set<Token>, sid: SessionId) {
    exists t :: t in minted && t.sid == sid
  }

  /** Every minted token is what mint() makes of its own fields. */
  ghost predicate WellMinted(cfg: Settings, minted: set<Token>) {
    forall t :: t in minted ==> t.exp == Min(t.iat + cfg.ttlMs, t.aexp) && t.aexp == t.start + cfg.maxLifetimeMs
  }

  /** Each rotation of a session is minted once. */
  ghost predicate MintedOnce(minted: set<Token>) {
    forall t, u :: t in minted && u in minted && t.sid == u.sid && t.rotation == u.rotation ==> t == u
  }

  /** A session in the table belongs to its tokens, none of which is ahead of it. */
  ghost predicate Backed(table: Table, minted: set<Token>) {
    && (forall sid :: sid in table ==> HasToken(minted, sid))
    && (forall t :: t in minted && t.sid in table ==>
          var e := table[t.sid];
          t.rotation <= e.rotation && t.account == e.account && t.start == e.start && t.aexp == e.absExp)
  }

  ghost predicate Inv(cfg: Settings, w: World) {
    WellMinted(cfg, w.minted) && MintedOnce(w.minted) && Backed(w.table, w.minted)
  }

  lemma MintingOne(minted: set<Token>, next: Token)
    requires MintedOnce(minted) && forall t :: t in minted && t.sid == next.sid ==> t.rotation < next.rotation
    ensures MintedOnce(minted + {next})
  {
  }

  lemma {:induction false} IssueKeeps(cfg: Settings, w: World, account: AccountId, sid: SessionId, now: Times)
    requires Inv(cfg, w) && Allowed(w, Issue(account, sid), now)
    ensures Inv(cfg, Step(cfg, w, Issue(account, sid), now))
  {
    var token := Issued(cfg, w.table, sid, account, now.first).1;
    var after := Step(cfg, w, Issue(account, sid), now);
    MoreTokens(w.minted, token);
    assert token in after.minted;
    assert HasToken(after.minted, sid);
  }

  lemma MoreTokens(minted: set<Token>, token: Token)
    ensures forall sid :: HasToken(minted, sid) ==> HasToken(minted + {token}, sid)
  {
    forall sid | HasToken(minted, sid) ensures HasToken(minted + {token}, sid) {
      var t :| t in minted && t.sid == sid;
      assert t in minted + {token};
    }
  }

  lemma RotateKeeps(cfg: Settings, w: World, token: Token, now: Times)
    requires Inv(cfg, w) && token in w.minted && Accepts(w.table, token, now)
    ensures Inv(cfg, Step(cfg, w, Rotate(token), now))
  {
    var e := w.table[token.sid];
    var next := Mint(cfg, token.sid, token.account, e.rotation + 1, now.third, e.start, e.absExp);
    MintingOne(w.minted, next);
    RotationIsBacked(w.table, w.minted, next);
    assert Step(cfg, w, Rotate(token), now)
        == World(w.table[token.sid := e.(rotation := e.rotation + 1)], w.minted + {next}, now.third);
  }

  lemma RotationIsBacked(table: Table, minted: set<Token>, next: Token)
    requires Backed(table, minted) && next.sid in table
    requires var e := table[next.sid];
             next.rotation == e.rotation + 1 && next.account == e.account && next.start == e.start
                 && next.aexp == e.absExp
    ensures Backed(table[next.sid := table[next.sid].(rotation := next.rotation)], minted + {next})
  {
    MoreTokens(minted, next);
  }

  /** Dropping sessions, minting nothing. */
  lemma DroppingKeeps(cfg: Settings, w: World, after: World)
    requires Inv(cfg, w) && after.minted == w.minted
    requires forall sid :: sid in after.table ==> sid in w.table && after.table[sid] == w.table[sid]
    ensures Inv(cfg, after)
  {
  }

  lemma StepKeeps(cfg: Settings, w: World, e: Event, now: Times)
    requires Inv(cfg, w) && Allowed(w, e, now)
    ensures Inv(cfg, Step(cfg, w, e, now))
  {
    if e.Issue? {
      IssueKeeps(cfg, w, e.account, e.sid, now);
    } else if e.Rotate? && Accepts(w.table, e.presented, now) {
      RotateKeeps(cfg, w, e.presented, now);
    } else {
      DroppingKeeps(cfg, w, Step(cfg, w, e, now));
    }
  }

  lemma {:induction false} RunKeeps(cfg: Settings, w: World, trace: Trace)
    requires Inv(cfg, w) && Possible(cfg, w, trace)
    ensures Inv(cfg, Run(cfg, w, trace))
    decreases trace
  {
    if trace != [] {
      StepKeeps(cfg, w, trace[0].0, trace[0].1);
      RunKeeps(cfg, Step(cfg, w, trace[0].0, trace[0].1), trace[1..]);
    }
  }

  function Fresh(): World {
    World(map[], {}, 0)
  }

  // ---------------------------------------------------------------- the guarantees

  /** After any run, at most one minted token of a session verifies. */
  lemma OneTokenVerifies(cfg: Settings, trace: Trace, t: Token, u: Token, now: Times)
    requires Possible(cfg, Fresh(), trace)
    requires var w := Run(cfg, Fresh(), trace);
             t in w.minted && u in w.minted && t.sid == u.sid && Accepts(w.table, t, now) && Accepts(w.table, u, now)
    ensures t == u
  {
    RunKeeps(cfg, Fresh(), trace);
  }

  /** After any run, whatever verifies or rotates does so before its session's start plus the maximal lifetime. */
  lemma LifetimeIsBounded(cfg: Settings, trace: Trace, t: Token, now: Times)
    requires Possible(cfg, Fresh(), trace)
    requires var w := Run(cfg, Fresh(), trace); t in w.minted && Accepts(w.table, t, now)
    ensures now.first < t.start + cfg.maxLifetimeMs && now.second < t.start + cfg.maxLifetimeMs
    ensures t.sid in Run(cfg, Fresh(), trace).table && Run(cfg, Fresh(), trace).table[t.sid].start == t.start
  {
    RunKeeps(cfg, Fresh(), trace);
  }

  /** A session that had tokens and is gone from the table. */
  ghost predicate Dead(w: World, sid: SessionId) {
    sid !in w.table && HasToken(w.minted, sid)
  }

  lemma {:induction false} DeadStaysDead(cfg: Settings, w: World, trace: Trace, sid: SessionId)
    requires Dead(w, sid) && Possible(cfg, w, trace)
    ensures Dead(Run(cfg, w, trace), sid)
    decreases trace
  {
    if trace != [] {
      var after := Step(cfg, w, trace[0].0, trace[0].1);
      var t :| t in w.minted && t.sid == sid;
      assert t in after.minted;
      assert HasToken(after.minted, sid);
      DeadStaysDead(cfg, after, trace[1..], sid);
    }
  }

  /**
   * Reuse detection: once a rotated-out token of a live session is presented, no token of that
   * session, old or current, verifies at any time after any further run.
   */
  lemma StaleTokenKillsTheFamily(cfg: Settings, before: Trace, stale: Token, rotate: bool, now: Times, after: Trace,
                                 t: Token, later: Times)
    requires Possible(cfg, Fresh(), before)
    requires var w := Run(cfg, Fresh(), before);
             && stale in w.minted && w.clock <= now.first
             && stale.sid in w.table && stale.rotation < w.table[stale.sid].rotation
             && Possible(cfg, Step(cfg, w, if rotate then Rotate(stale) else Verify(stale), now), after)
    requires t.sid == stale.sid
    ensures var w := Run(cfg, Fresh(), before);
            var struck := Step(cfg, w, if rotate then Rotate(stale) else Verify(stale), now);
            !Accepts(Run(cfg, struck, after).table, t, later)
  {
    RunKeeps(cfg, Fresh(), before);
    var w := Run(cfg, Fresh(), before);
    var struck := Step(cfg, w, if rotate then Rotate(stale) else Verify(stale), now);
    assert stale in struck.minted;
    assert Dead(struck, stale.sid);
    DeadStaysDead(cfg, struck, after, stale.sid);
  }

  // ---------------------------------------------------------------- reaping changes nothing

  /** What a caller sees of verify and rotate, in order. */
  function Answers(cfg: Settings, w: World, trace: Trace): seq<Option<Token>>
    decreases trace
  {
    if trace == [] then [] else
      var (e, now) := trace[0];
      var rest := Answers(cfg, Step(cfg, w, e, now), trace[1..]);
      match e
      case Verify(token) => [if Accepts(w.table, token, now) then Some(token) else None] + rest
      case Rotate(token) => [Rotated(cfg, w.table, token, now).1] + rest
      case _ => rest
  }

  function WithoutReaps(trace: Trace): Trace {
    if trace == [] then []
    else if trace[0].0.Reap? then WithoutReaps(trace[1..])
    else [trace[0]] + WithoutReaps(trace[1..])
  }

  /** `lean` is `full` without some sessions that have passed their absolute expiry. */
  ghost predicate Leaner(lean: World, full: World) {
    && lean.minted == full.minted && full.clock <= lean.clock
    && (forall sid :: sid in lean.table ==> sid in full.table && lean.table[sid] == full.table[sid])
    && (forall sid :: sid in full.table && sid !in lean.table ==> full.table[sid].absExp <= lean.clock)
  }

  lemma SameAnswer(lean: World, full: World, token: Token, now: Times)
    requires Leaner(lean, full) && lean.clock <= now.first
    ensures Accepts(lean.table, token, now) == Accepts(full.table, token, now)
  {
  }

  lemma StepStaysLeaner(cfg: Settings, lean: World, full: World, e: Event, now: Times)
    requires Leaner(lean, full) && lean.clock <= now.first <= now.second <= now.third && !e.Reap?
    ensures Leaner(Step(cfg, lean, e, now), Step(cfg, full, e, now))
  {
    match e
    case Rotate(token) => SameAnswer(lean, full, token, now);
    case _ =>
  }

  /** Reaping at any points of any run changes no answer of verify or rotate, and no token minted. */
  lemma {:induction false} ReapingIsInvisible(cfg: Settings, lean: World, full: World, trace: Trace)
    requires Leaner(lean, full) && Possible(cfg, lean, trace)
    ensures Answers(cfg, lean, trace) == Answers(cfg, full, WithoutReaps(trace))
    ensures Run(cfg, lean, trace).minted == Run(cfg, full, WithoutReaps(trace)).minted
    decreases trace
  {
    if trace != [] {
      var (e, now) := trace[0];
      if e.Reap? {
        assert Leaner(Step(cfg, lean, e, now), full);
        ReapingIsInvisible(cfg, Step(cfg, lean, e, now), full, trace[1..]);
      } else {
        StepStaysLeaner(cfg, lean, full, e, now);
        if e.Verify? { SameAnswer(lean, full, e.token, now); }
        if e.Rotate? { SameAnswer(lean, full, e.presented, now); }
        ReapingIsInvisible(cfg, Step(cfg, lean, e, now), Step(cfg, full, e, now), trace[1..]);
        assert WithoutReaps(trace)[1..] == WithoutReaps(trace[1..]);
      }
    }
  }

  // ---------------------------------------------------------------- which token verifies

  /** Before the start plus the maximal lifetime at the first reading, before both expiries at the second. */
  predicate InTime(cfg: Settings, t: Token, now: Times) {
    && now.first < t.start + cfg.maxLifetimeMs
    && now.second < t.iat + cfg.ttlMs && now.second < t.start + cfg.maxLifetimeMs
  }

  /**
   * Over every run: a minted token verifies if and only if its session is there, at its rotation, and it is in
   * time.
   */
  lemma AcceptedIff(cfg: Settings, trace: Trace, t: Token, now: Times)
    requires Possible(cfg, Fresh(), trace) && t in Run(cfg, Fresh(), trace).minted
    ensures var table := Run(cfg, Fresh(), trace).table;
            Accepts(table, t, now) <==> t.sid in table && table[t.sid].rotation == t.rotation && InTime(cfg, t, now)
  {
    RunKeeps(cfg, Fresh(), trace);
  }

  /** A token just issued is for that account and verifies as long as it is in time. */
  lemma IssuedVerifies(cfg: Settings, table: Table, sid: SessionId, account: AccountId, at: int, now: Times)
    ensures var (after, t) := Issued(cfg, table, sid, account, at);
            && t.sid == sid && t.account == account && t.rotation == 0 && t.start == at == t.iat
            && (Accepts(after, t, now) <==>
                now.first < at + cfg.maxLifetimeMs && now.second < at + cfg.ttlMs
                && now.second < at + cfg.maxLifetimeMs)
            && forall other :: other != sid ==>
                 (other in after <==> other in table) && (other in after ==> after[other] == table[other])
  {
  }

  /** A rotation succeeds exactly for a token that verifies; the new one verifies in its place, while it is in time. */
  lemma RotationReplaces(cfg: Settings, trace: Trace, t: Token, now: Times, later: Times)
    requires Possible(cfg, Fresh(), trace) && t in Run(cfg, Fresh(), trace).minted
    ensures var table := Run(cfg, Fresh(), trace).table;
            var (after, next) := Rotated(cfg, table, t, now);
            && (next.Some? <==> Accepts(table, t, now))
            && (next.Some? ==>
                  && next.value.sid == t.sid && next.value.account == t.account && next.value.start == t.start
                  && next.value.rotation == t.rotation + 1 && next.value.iat == now.third
                  && !Accepts(after, t, later)
                  && (Accepts(after, next.value, later) <==> InTime(cfg, next.value, later)))
  {
    RunKeeps(cfg, Fresh(), trace);
  }

  /** After a revocation by the owner, or without naming one, no token of the session verifies after any further run. */
  lemma RevokedNeverVerifies(cfg: Settings, trace: Trace, sid: SessionId, owner: Option<AccountId>, now: Times,
                             more: Trace, t: Token, later: Times)
    requires Possible(cfg, Fresh(), trace) && sid in Run(cfg, Fresh(), trace).table && t.sid == sid
    requires owner.None? || owner.value == Run(cfg, Fresh(), trace).table[sid].account
    requires Possible(cfg, Step(cfg, Run(cfg, Fresh(), trace), Revoke(sid, owner), now), more)
    ensures !Accepts(Run(cfg, Step(cfg, Run(cfg, Fresh(), trace), Revoke(sid, owner), now), more).table, t, later)
  {
    RunKeeps(cfg, Fresh(), trace);
    DeadStaysDead(cfg, Step(cfg, Run(cfg, Fresh(), trace), Revoke(sid, owner), now), more, sid);
  }

  /** A revocation that names another account changes nothing. */
  lemma OthersCannotRevoke(table: Table, sid: SessionId, owner: AccountId)
    requires sid !in table || table[sid].account != owner
    ensures Revoked(table, sid, Some(owner)) == table
  {
  }

  /**
   * Over every run: presenting a minted token ends its session if and only if the token was rotated out or the
   * session's lifetime is over, and touches no other session.
   */
  lemma PresentingEndsIff(cfg: Settings, trace: Trace, t: Token, now: Times, other: SessionId)
    requires Possible(cfg, Fresh(), trace) && t in Run(cfg, Fresh(), trace).minted
    requires t.sid in Run(cfg, Fresh(), trace).table
    ensures var table := Run(cfg, Fresh(), trace).table;
            var after := AfterDecode(table, t, now);
            && (t.sid !in after <==> t.rotation < table[t.sid].rotation || now.first >= t.start + cfg.maxLifetimeMs)
            && (t.sid in after ==> after[t.sid] == table[t.sid])
            && (other != t.sid ==>
                 (other in after <==> other in table) && (other in after ==> after[other] == table[other]))
  {
    RunKeeps(cfg, Fresh(), trace);
  }
}
