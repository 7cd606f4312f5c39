/**
 * The per-account rate limit (checkRate in src/ops/quota-manager.js): one fixed-window
 * counter per account and operation.
 */
module RateLimiter {
  import opened Strings

  type AccountId = string
  type Operation = string

  datatype Limit = Limit(max: nat, windowMs: int)
  datatype Window = Window(start: int, count: nat)

  /** `${accountId}::${operation}` */
  function RateKey(account: AccountId, operation: Operation): string {
    account + "::" + operation
  }

  /** One call against the counter of its key. */
  function Checked(limit: Limit, window: Option<Window>, now: int): (Window, bool) {
    var entry := if window.None? || now - window.value.start >= limit.windowMs then Window(now, 0) else window.value;
    if entry.count >= limit.max then (entry, false) else (entry.(count := entry.count + 1), true)
  }

  class QuotaManager {
    const limits: map<Operation, Limit>
    var windows: map<string, Window>

    constructor (limits: map<Operation, Limit>)
      ensures this.limits == limits && windows == map[]
    {
      this.limits, windows := limits, map[];
    }

    ghost function Counter(key: string): Option<Window>
      reads this
    {
      if key in windows then Some(windows[key]) else None
    }

    /** No identity and no configured limit both let the call pass. */
    method CheckRate(account: Option<AccountId>, operation: Operation, now: int) returns (ok: bool)
      modifies this
      ensures account.None? || account.value == "" || operation !in limits ==> ok && windows == old(windows)
      ensures account.Some? && account.value != "" && operation in limits ==>
                var key := RateKey(account.value, operation);
                var (window, allowed) := Checked(limits[operation], old(Counter(key)), now);
                ok == allowed && windows == old(windows)[key := window]
    {
      if account.None? || account.value == "" { return true; }
      if operation !in limits { return true; }
      var limit := limits[operation];
      var key := RateKey(account.value, operation);
      if key !in windows || now - windows[key].start >= limit.windowMs {
        windows := windows[key := Window(now, 0)];
      }
      var entry := windows[key];
      if entry.count >= limit.max { return false; }
      windows := windows[key := entry.(count := entry.count + 1)];
      return true;
    }
  }

  // ---------------------------------------------------------------- keys

  predicate ProperSuffix(short: string, long: string) {
    |short| < |long| && long[|long| - |short|..] == short
  }

  /** Two operations can share a counter between accounts only if one name ends in "::" and the other. */
  predicate Confusable(a: Operation, b: Operation) {
    ProperSuffix("::" + a, "::" + b) || ProperSuffix("::" + b, "::" + a)
  }

  /** No two different account-operation pairs share a counter, exactly when the operations are not confusable. */
  lemma KeysAreSeparateIff(a: Operation, b: Operation)
    ensures (forall x: AccountId, y: AccountId :: x != "" && y != "" && RateKey(x, a) == RateKey(y, b) ==>
              x == y && a == b)
            <==> !Confusable(a, b)
  {
    if ProperSuffix("::" + a, "::" + b) {
      SuffixCollides(a, b);
    } else if ProperSuffix("::" + b, "::" + a) {
      SuffixCollides(b, a);
    } else {
      forall x: AccountId, y: AccountId | x != "" && y != "" && RateKey(x, a) == RateKey(y, b)
        ensures x == y && a == b
      {
        SameKeySameParts(x, a, y, b);
      }
    }
  }

  lemma SuffixCollides(a: Operation, b: Operation)
    requires ProperSuffix("::" + a, "::" + b)
    ensures exists x: AccountId, y: AccountId :: x != "" && y != "" && x != y && RateKey(x, a) == RateKey(y, b)
  {
    var sa, sb := "::" + a, "::" + b;
    var z := sb[..|sb| - |sa|];
    assert sb == z + sa;
    var x, y := "u" + z, "u";
    assert RateKey(x, a) == x + sa;
    assert RateKey(y, b) == y + sb == x + sa;
  }

  lemma SameKeySameParts(x: AccountId, a: Operation, y: AccountId, b: Operation)
    requires !Confusable(a, b) && RateKey(x, a) == RateKey(y, b)
    ensures x == y && a == b
  {
    var key, sa, sb := RateKey(x, a), "::" + a, "::" + b;
    assert key == x + sa == y + sb;
    SuffixesOfOne(x, sa, y, sb);
    assert a == sa[2..] && b == sb[2..];
    assert x == key[..|x|] && y == key[..|y|];
  }

  lemma SuffixesOfOne(x: string, sa: string, y: string, sb: string)
    requires x + sa == y + sb
    ensures sa == sb || ProperSuffix(sa, sb) || ProperSuffix(sb, sa)
  {
    var key := x + sa;
    assert key[|x|..] == sa && key[|y|..] == sb;
    if |sa| <= |sb| {
      assert sb[|sb| - |sa|..] == sa;
    } else {
      assert sa[|sa| - |sb|..] == sb;
    }
  }

  /** Names without a colon, like the four of the source, are never confusable. */
  lemma ColonFreeIsSafe(a: Operation, b: Operation)
    requires ':' !in a && ':' !in b
    ensures !Confusable(a, b)
  {
    ColonFreeHasNoSuffix(a, b);
    ColonFreeHasNoSuffix(b, a);
  }

  lemma ColonFreeHasNoSuffix(a: Operation, b: Operation)
    requires ':' !in b
    ensures !ProperSuffix("::" + a, "::" + b)
  {
    var sa, sb := "::" + a, "::" + b;
    if |sa| < |sb| {
      var d := |sb| - |sa|;
      assert sb[d..][1] == sb[d + 1] == b[d - 1];
      assert sa[1] == ':';
    }
  }

  // ---------------------------------------------------------------- the bound

  /** A run of one counter: its window and, per window, when it started and the times it allowed. */
  datatype Slot = Slot(start: int, allowed: seq<int>)
  datatype World = World(window: Option<Window>, slots: seq<Slot>)

  function After(limit: Limit, w: World, now: int): World {
    var rolls := w.window.None? || now - w.window.value.start >= limit.windowMs;
    var slots := if rolls then w.slots + [Slot(now, [])] else w.slots;
    var (window, ok) := Checked(limit, w.window, now);
    World(Some(window),
          if ok && slots != []
          then slots[|slots| - 1 := slots[|slots| - 1].(allowed := slots[|slots| - 1].allowed + [now])] else slots)
  }

  function Run(limit: Limit, times: seq<int>): World {
    if times == [] then World(None, []) else After(limit, Run(limit, times[..|times| - 1]), times[|times| - 1])
  }

  /** Whether each call of the run is allowed. */
  function Allowed(limit: Limit, times: seq<int>): seq<int> {
    if times == [] then []
    else
      var before := times[..|times| - 1];
      var now := times[|times| - 1];
      Allowed(limit, before) + (if Checked(limit, Run(limit, before).window, now).1 then [now] else [])
  }

  predicate Monotone(times: seq<int>) {
    forall i, j :: 0 <= i < j < |times| ==> times[i] <= times[j]
  }

  /** How many of the times lie in [a, b). */
  function Count(times: seq<int>, a: int, b: int): nat {
    if times == [] then 0
    else Count(times[..|times| - 1], a, b) + (if a <= times[|times| - 1] < b then 1 else 0)
  }

  function CountSlots(slots: seq<Slot>, a: int, b: int): nat {
    if slots == [] then 0 else CountSlots(slots[..|slots| - 1], a, b) + Count(slots[|slots| - 1].allowed, a, b)
  }

  predicate SlotOk(limit: Limit, slot: Slot) {
    |slot.allowed| <= limit.max
    && forall i :: 0 <= i < |slot.allowed| ==> slot.start <= slot.allowed[i] < slot.start + limit.windowMs
  }

  /** The slots are a window length apart, each holds at most max calls, and the counter tells the last one. */
  predicate Inv(limit: Limit, w: World, clock: int) {
    && (forall i :: 0 <= i < |w.slots| ==> SlotOk(limit, w.slots[i]))
    && (forall i :: 0 < i < |w.slots| ==> w.slots[i].start - w.slots[i - 1].start >= limit.windowMs)
    && (w.window.None? <==> w.slots == [])
    && (w.window.Some? ==>
          var last := w.slots[|w.slots| - 1];
          last.start == w.window.value.start <= clock && |last.allowed| == w.window.value.count)
  }

  lemma StepKeeps(limit: Limit, w: World, clock: int, now: int)
    requires limit.windowMs > 0 && Inv(limit, w, clock) && clock <= now
    ensures Inv(limit, After(limit, w, now), now)
  {
  }

  lemma {:induction false} CountSplit(a: seq<int>, b: seq<int>, x: int, y: int)
    ensures Count(a + b, x, y) == Count(a, x, y) + Count(b, x, y)
  {
    if b == [] {
      assert a + b == a;
    } else {
      assert (a + b)[..|a + b| - 1] == a + b[..|b| - 1];
      CountSplit(a, b[..|b| - 1], x, y);
    }
  }

  lemma StepCounts(limit: Limit, w: World, clock: int, now: int, a: int, b: int)
    requires Inv(limit, w, clock)
    ensures CountSlots(After(limit, w, now).slots, a, b)
            == CountSlots(w.slots, a, b) + (if Checked(limit, w.window, now).1 && a <= now < b then 1 else 0)
  {
    var rolls := w.window.None? || now - w.window.value.start >= limit.windowMs;
    var slots := if rolls then w.slots + [Slot(now, [])] else w.slots;
    if rolls { assert slots[..|slots| - 1] == w.slots; }
    var last := slots[|slots| - 1];
    var after := After(limit, w, now).slots;
    assert after[..|after| - 1] == slots[..|slots| - 1];
    CountSplit(last.allowed, [now], a, b);
    assert [now][..0] == [];
    assert Count([now], a, b) == Count([], a, b) + (if a <= now < b then 1 else 0);
  }

  lemma CountOne(times: seq<int>, ok: bool, now: int, a: int, b: int)
    ensures Count(times + (if ok then [now] else []), a, b)
            == Count(times, a, b) + (if ok && a <= now < b then 1 else 0)
  {
    CountSplit(times, if ok then [now] else [], a, b);
    assert [now][..0] == [];
    assert Count([now], a, b) == Count([], a, b) + (if a <= now < b then 1 else 0);
  }

  /** The windows of a run hold exactly its allowed calls. */
  lemma {:induction false} RunKeeps(limit: Limit, times: seq<int>, clock: int)
    requires limit.windowMs > 0 && Monotone(times) && (times != [] ==> times[|times| - 1] <= clock)
    ensures Inv(limit, Run(limit, times), clock)
  {
    if times != [] {
      var before, now := times[..|times| - 1], times[|times| - 1];
      RunKeeps(limit, before, now);
      StepKeeps(limit, Run(limit, before), now, now);
    }
  }

  lemma {:induction false} RunCounts(limit: Limit, times: seq<int>, a: int, b: int)
    requires limit.windowMs > 0 && Monotone(times)
    ensures CountSlots(Run(limit, times).slots, a, b) == Count(Allowed(limit, times), a, b)
  {
    if times != [] {
      var before, now := times[..|times| - 1], times[|times| - 1];
      RunCounts(limit, before, a, b);
      RunKeeps(limit, before, now);
      StepCounts(limit, Run(limit, before), now, now, a, b);
      CountOne(Allowed(limit, before), Checked(limit, Run(limit, before).window, now).1, now, a, b);
    }
  }

  /** The window can hold a time of [a, b). */
  predicate Touches(limit: Limit, slot: Slot, a: int, b: int) {
    a - limit.windowMs < slot.start < b
  }

  function Touching(limit: Limit, slots: seq<Slot>, a: int, b: int): nat {
    if slots == [] then 0
    else Touching(limit, slots[..|slots| - 1], a, b) + (if Touches(limit, slots[|slots| - 1], a, b) then 1 else 0)
  }

  lemma {:induction false} CountInSlot(limit: Limit, slot: Slot, times: seq<int>, a: int, b: int)
    requires forall i :: 0 <= i < |times| ==> slot.start <= times[i] < slot.start + limit.windowMs
    ensures Count(times, a, b) <= |times|
    ensures !Touches(limit, slot, a, b) ==> Count(times, a, b) == 0
  {
    if times != [] { CountInSlot(limit, slot, times[..|times| - 1], a, b); }
  }

  lemma {:induction false} CountIsBounded(limit: Limit, slots: seq<Slot>, a: int, b: int)
    requires forall i :: 0 <= i < |slots| ==> SlotOk(limit, slots[i])
    ensures CountSlots(slots, a, b) <= Touching(limit, slots, a, b) * limit.max
  {
    if slots != [] {
      var front, last := slots[..|slots| - 1], slots[|slots| - 1];
      CountIsBounded(limit, front, a, b);
      CountInSlot(limit, last, last.allowed, a, b);
      var n := Touching(limit, front, a, b);
      assert (n + 1) * limit.max == n * limit.max + limit.max;
    }
  }

  /** Windows that touch the interval are a window length apart, so the last is far from its start. */
  lemma {:induction false} TouchingAreApart(limit: Limit, slots: seq<Slot>, a: int, b: int)
    requires limit.windowMs > 0
    requires forall i :: 0 < i < |slots| ==> slots[i].start - slots[i - 1].start >= limit.windowMs
    ensures Touching(limit, slots, a, b) > 0 ==>
              var reach := (Touching(limit, slots, a, b) - 1) * limit.windowMs + a - limit.windowMs + 1;
              reach < b && reach <= slots[|slots| - 1].start
  {
    if slots != [] {
      var front, last := slots[..|slots| - 1], slots[|slots| - 1];
      TouchingAreApart(limit, front, a, b);
      var n := Touching(limit, front, a, b);
      if n > 0 {
        assert (n + 1 - 1) * limit.windowMs == (n - 1) * limit.windowMs + limit.windowMs;
        assert front[|front| - 1] == slots[|slots| - 2];
      }
    }
  }

  /**
   * For one account and operation under a monotone clock: every half-open interval of k window
   * lengths holds at most (k + 1) * max allowed calls.
   */
  lemma IntervalIsBounded(limit: Limit, times: seq<int>, a: int, k: nat)
    requires limit.windowMs > 0 && Monotone(times)
    ensures Count(Allowed(limit, times), a, a + k * limit.windowMs) <= (k + 1) * limit.max
  {
    var b := a + k * limit.windowMs;
    RunKeeps(limit, times, if times == [] then 0 else times[|times| - 1]);
    RunCounts(limit, times, a, b);
    var slots := Run(limit, times).slots;
    CountIsBounded(limit, slots, a, b);
    FewTouch(limit, slots, a, k);
    MoreWindows(k + 1, Touching(limit, slots, a, b), limit.max);
  }

  lemma FewTouch(limit: Limit, slots: seq<Slot>, a: int, k: nat)
    requires limit.windowMs > 0
    requires forall i :: 0 < i < |slots| ==> slots[i].start - slots[i - 1].start >= limit.windowMs
    ensures Touching(limit, slots, a, a + k * limit.windowMs) <= k + 1
  {
    var n := Touching(limit, slots, a, a + k * limit.windowMs);
    TouchingAreApart(limit, slots, a, a + k * limit.windowMs);
    assert (k + 1) * limit.windowMs == k * limit.windowMs + limit.windowMs;
    if n > k + 1 {
      MoreWindows(n - 1, k + 1, limit.windowMs);
    }
  }

  lemma MoreWindows(x: nat, y: nat, m: nat)
    requires y <= x
    ensures y * m <= x * m
  {
  }

  // ---------------------------------------------------------------- all accounts together

  /** A call by an account for a rate-limited operation. */
  datatype Call = Call(account: AccountId, operation: Operation, now: int)

  predicate Limited(limits: map<Operation, Limit>, calls: seq<Call>) {
    forall i :: 0 <= i < |calls| ==> calls[i].account != "" && calls[i].operation in limits
  }

  /** The counter table after the calls, all accounts and operations interleaved. */
  function Table(limits: map<Operation, Limit>, calls: seq<Call>): map<string, Window>
    requires Limited(limits, calls)
  {
    if calls == [] then map[]
    else
      var c := calls[|calls| - 1];
      var table := Table(limits, calls[..|calls| - 1]);
      var key := RateKey(c.account, c.operation);
      table[key := Checked(limits[c.operation], CounterIn(table, key), c.now).0]
  }

  function CounterIn(table: map<string, Window>, key: string): Option<Window> {
    if key in table then Some(table[key]) else None
  }

  function TimesOf(calls: seq<Call>, account: AccountId, operation: Operation): seq<int> {
    if calls == [] then []
    else
      var c := calls[|calls| - 1];
      TimesOf(calls[..|calls| - 1], account, operation)
      + (if c.account == account && c.operation == operation then [c.now] else [])
  }

  /** The times of the calls of one account and operation that the shared table allowed. */
  function AllowedOf(limits: map<Operation, Limit>, calls: seq<Call>, account: AccountId, operation: Operation)
    : seq<int>
    requires Limited(limits, calls)
  {
    if calls == [] then []
    else
      var before, c := calls[..|calls| - 1], calls[|calls| - 1];
      AllowedOf(limits, before, account, operation)
      + (if c.account == account && c.operation == operation
            && Checked(limits[operation], CounterIn(Table(limits, before), RateKey(account, operation)), c.now).1
         then [c.now] else [])
  }

  /** No two limited operations can be confused. */
  ghost predicate Separate(limits: map<Operation, Limit>) {
    forall a, b :: a in limits && b in limits ==> !Confusable(a, b)
  }

  /** The calls of one account and operation see the counter they would see alone. */
  lemma {:induction false} CounterIsPrivate(limits: map<Operation, Limit>, calls: seq<Call>, account: AccountId,
                                            operation: Operation)
    requires Limited(limits, calls) && Separate(limits) && account != "" && operation in limits
    ensures CounterIn(Table(limits, calls), RateKey(account, operation))
            == Run(limits[operation], TimesOf(calls, account, operation)).window
    ensures AllowedOf(limits, calls, account, operation)
            == Allowed(limits[operation], TimesOf(calls, account, operation))
  {
    if calls != [] {
      var before, c := calls[..|calls| - 1], calls[|calls| - 1];
      CounterIsPrivate(limits, before, account, operation);
      if c.account == account && c.operation == operation {
        var times := TimesOf(calls, account, operation);
        assert times[..|times| - 1] == TimesOf(before, account, operation);
      } else {
        KeysAreSeparateIff(c.operation, operation);
        assert RateKey(c.account, c.operation) != RateKey(account, operation);
        assert TimesOf(calls, account, operation) == TimesOf(before, account, operation);
      }
    }
  }

  lemma {:induction false} TimesAreMonotone(calls: seq<Call>, account: AccountId, operation: Operation)
    requires forall i, j :: 0 <= i < j < |calls| ==> calls[i].now <= calls[j].now
    ensures Monotone(TimesOf(calls, account, operation))
    ensures TimesOf(calls, account, operation) != [] ==>
              TimesOf(calls, account, operation)[|TimesOf(calls, account, operation)| - 1] <= calls[|calls| - 1].now
  {
    if calls != [] {
      var before := calls[..|calls| - 1];
      TimesAreMonotone(before, account, operation);
      var times := TimesOf(before, account, operation);
      assert times != [] ==> before != [] && times[|times| - 1] <= before[|before| - 1].now;
    }
  }

  /**
   * Over every interleaved run under a monotone clock: whatever the others do, one account's calls of
   * one operation are allowed at most (k + 1) * max times in any k window lengths.
   */
  lemma AccountIsBounded(limits: map<Operation, Limit>, calls: seq<Call>, account: AccountId, operation: Operation,
                         a: int, k: nat)
    requires Limited(limits, calls) && Separate(limits) && account != "" && operation in limits
    requires limits[operation].windowMs > 0
    requires forall i, j :: 0 <= i < j < |calls| ==> calls[i].now <= calls[j].now
    ensures Count(AllowedOf(limits, calls, account, operation), a, a + k * limits[operation].windowMs)
            <= (k + 1) * limits[operation].max
  {
    CounterIsPrivate(limits, calls, account, operation);
    TimesAreMonotone(calls, account, operation);
    IntervalIsBounded(limits[operation], TimesOf(calls, account, operation), a, k);
  }

  // ---------------------------------------------------------------- which call is allowed

  /** The start of the window of the last call: a call opens one when the last is a window length past, or none is. */
  function WindowStart(limit: Limit, times: seq<int>): int
    requires times != []
  {
    var before, now := times[..|times| - 1], times[|times| - 1];
    if before == [] || now >= WindowStart(limit, before) + limit.windowMs then now else WindowStart(limit, before)
  }

  predicate AllBelow(times: seq<int>, a: int) {
    forall i :: 0 <= i < |times| ==> times[i] < a
  }

  lemma {:induction false} NoneCounted(times: seq<int>, a: int, b: int)
    requires AllBelow(times, a)
    ensures Count(times, a, b) == 0
  {
    if times != [] { NoneCounted(times[..|times| - 1], a, b); }
  }

  /** The counter stands at the start of the window and holds the calls allowed in it; none is past its end. */
  predicate CountsFrom(limit: Limit, start: int, window: Option<Window>, allowed: seq<int>) {
    && window == Some(Window(start, Count(allowed, start, start + limit.windowMs)))
    && AllBelow(allowed, start + limit.windowMs)
  }

  function Extended(limit: Limit, window: Option<Window>, allowed: seq<int>, now: int): seq<int> {
    allowed + if Checked(limit, window, now).1 then [now] else []
  }

  lemma CallStays(limit: Limit, start: int, window: Option<Window>, allowed: seq<int>, now: int)
    requires CountsFrom(limit, start, window, allowed) && start <= now < start + limit.windowMs
    ensures CountsFrom(limit, start, Some(Checked(limit, window, now).0), Extended(limit, window, allowed, now))
  {
    CountOne(allowed, Checked(limit, window, now).1, now, start, start + limit.windowMs);
  }

  lemma CallRolls(limit: Limit, window: Option<Window>, allowed: seq<int>, now: int)
    requires limit.windowMs > 0 && AllBelow(allowed, now)
    requires window.None? || now - window.value.start >= limit.windowMs
    ensures CountsFrom(limit, now, Some(Checked(limit, window, now).0), Extended(limit, window, allowed, now))
  {
    NoneCounted(allowed, now, now + limit.windowMs);
    CountOne(allowed, Checked(limit, window, now).1, now, now, now + limit.windowMs);
  }

  lemma RunSnoc(limit: Limit, times: seq<int>)
    requires times != []
    ensures var before, now := times[..|times| - 1], times[|times| - 1];
            && Run(limit, times).window == Some(Checked(limit, Run(limit, before).window, now).0)
            && Allowed(limit, times) == Extended(limit, Run(limit, before).window, Allowed(limit, before), now)
  {
  }

  lemma {:induction false} WindowIs(limit: Limit, times: seq<int>)
    requires limit.windowMs > 0 && Monotone(times) && times != []
    ensures WindowStart(limit, times) <= times[|times| - 1]
    ensures CountsFrom(limit, WindowStart(limit, times), Run(limit, times).window, Allowed(limit, times))
  {
    var before, now := times[..|times| - 1], times[|times| - 1];
    RunSnoc(limit, times);
    if before == [] {
      CallRolls(limit, None, [], now);
    } else {
      WindowIs(limit, before);
      assert before[|before| - 1] == times[|times| - 2] <= now;
      var start := WindowStart(limit, before);
      if now >= start + limit.windowMs {
        CallRolls(limit, Run(limit, before).window, Allowed(limit, before), now);
      } else {
        CallStays(limit, start, Run(limit, before).window, Allowed(limit, before), now);
      }
    }
  }

  function UsedIn(limit: Limit, start: int, allowed: seq<int>, now: int): nat {
    if now >= start + limit.windowMs then 0 else Count(allowed, start, start + limit.windowMs)
  }

  /** How many of the allowed calls count against a call: those of the current window, unless that has ended. */
  function UsedUp(limit: Limit, times: seq<int>, allowed: seq<int>, now: int): nat {
    if times == [] then 0 else UsedIn(limit, WindowStart(limit, times), allowed, now)
  }

  lemma NextIsAllowedIff(limit: Limit, start: int, window: Option<Window>, allowed: seq<int>, now: int)
    requires CountsFrom(limit, start, window, allowed)
    ensures Checked(limit, window, now).1 <==> UsedIn(limit, start, allowed, now) < limit.max
  {
  }

  /** Over every run of one counter: the next call is allowed if and only if fewer than max were in its window. */
  lemma AllowedIff(limit: Limit, times: seq<int>, now: int)
    requires limit.windowMs > 0 && Monotone(times)
    ensures Checked(limit, Run(limit, times).window, now).1 <==>
            UsedUp(limit, times, Allowed(limit, times), now) < limit.max
  {
    if times == [] {
      assert Run(limit, times).window == None;
    } else {
      WindowIs(limit, times);
      NextIsAllowedIff(limit, WindowStart(limit, times), Run(limit, times).window, Allowed(limit, times), now);
    }
  }

  /** The same for one account and operation, whatever calls of others are interleaved. */
  lemma {:induction false} AccountAllowedIff(limits: map<Operation, Limit>, calls: seq<Call>, account: AccountId,
                                             operation: Operation,
                          now: int)
    requires Limited(limits, calls) && Separate(limits) && account != "" && operation in limits
    requires limits[operation].windowMs > 0
    requires forall i, j :: 0 <= i < j < |calls| ==> calls[i].now <= calls[j].now
    ensures Checked(limits[operation], CounterIn(Table(limits, calls), RateKey(account, operation)), now).1 <==>
            UsedUp(limits[operation], TimesOf(calls, account, operation),
                   AllowedOf(limits, calls, account, operation), now) < limits[operation].max
  {
    CounterIsPrivate(limits, calls, account, operation);
    TimesAreMonotone(calls, account, operation);
    AllowedIff(limits[operation], TimesOf(calls, account, operation), now);
  }
}
