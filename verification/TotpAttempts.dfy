// Checks of one-time codes on one account (internal/server/totp.go): any number
// of requests at once, each reading the account first and then checking the cap,
// verifying and recording under totpMu, in steps that interleave.
module TotpAttempts {
  import opened Net
  import opened Seqs
  import opened Totp

  // max <= 0 means no cap.
  datatype Config = Config(max: int, window: nat, replayProtection: bool, decode: Decoder, hmac: KeyedHmac)

  datatype Accepted = Accepted(counter: int, at: int)

  // A time step of a secret, consumed by an accepted code.
  datatype Use = Use(secret: string, counter: int)

  // The account's rows: `failures` are the times of its failed checks, `accepted`
  // what was consumed since the secret was last set, `used` all that ever was.
  datatype Account = Account(secret: string, lastCounter: int, failures: seq<int>, accepted: seq<Accepted>, used: seq<Use>)

  // A check, with the secret its request read; `consume` is false for activation.
  datatype Check = Check(secret: string, code: string, consume: bool)

  function Since(t: int): int -> bool {
    (x: int) => x >= t
  }

  // CountRecentUserFailures.
  function Recent(failures: seq<int>, now: int, window: nat): nat {
    |Keep(failures, Since(now - window))|
  }

  // totpLocked.
  predicate Capped(cfg: Config, failures: seq<int>, now: int) {
    cfg.max > 0 && Recent(failures, now, cfg.window) >= cfg.max
  }

  function Matched(cfg: Config, c: Check, now: int): Option<int> {
    Verify(cfg.hmac(KeyOf(cfg.decode, c.secret)), c.secret != "", c.code, now)
  }

  function Consumed(a: Account, secret: string, counter: int, at: int): Account {
    a.(lastCounter := counter, accepted := a.accepted + [Accepted(counter, at)], used := a.used + [Use(secret, counter)])
  }

  // consumeTOTP's outcome, and totpFailed: the account after a check verified at
  // time `at` and recorded at time `now`.
  function Settle(cfg: Config, a: Account, c: Check, matched: Option<int>, at: int, now: int): Account {
    if matched.None? then a.(failures := a.failures + [now])
    else if !c.consume || !cfg.replayProtection then a
    else if a.lastCounter < matched.value then Consumed(a, c.secret, matched.value, at)
    else a.(failures := a.failures + [now])
  }

  // SetTOTPSecret.
  function Enrolled(a: Account, secret: string): Account {
    a.(secret := secret, lastCounter := 0, accepted := [])
  }

  // ---- interleaved requests ----

  datatype Request =
    | Idle
    | Waiting(c: Check)
    | Locked(c: Check)
    | Passed(c: Check, checked: int)                                // below the cap at that time
    | Verified(c: Check, checked: int, matched: Option<int>, at: int)

  datatype World = World(clock: int, account: Account, holder: Option<nat>, requests: seq<Request>)

  datatype Step =
    | Load(p: nat, code: string, consume: bool, now: int)
    | Acquire(p: nat, now: int)
    | CheckCap(p: nat, now: int)
    | VerifyCode(p: nat, now: int)
    | Record(p: nat, now: int)
    | SetSecret(secret: string, now: int)
    | Disable(now: int)

  predicate Enabled(w: World, s: Step, locking: bool) {
    w.clock <= s.now &&
    match s
    case Load(p, code, _, _) => p < |w.requests| && w.requests[p].Idle? && TrimSpace(code) != ""
    case Acquire(p, _) => p < |w.requests| && w.requests[p].Waiting? && (locking ==> w.holder == None)
    case CheckCap(p, _) => p < |w.requests| && w.requests[p].Locked?
    case VerifyCode(p, _) => p < |w.requests| && w.requests[p].Passed?
    case Record(p, _) => p < |w.requests| && w.requests[p].Verified?
    case SetSecret(_, _) => true
    case Disable(_) => true
  }

  function Become(w: World, p: nat, r: Request): World
    requires p < |w.requests|
  {
    w.(requests := w.requests[p := r])
  }

  function Next(cfg: Config, w0: World, s: Step, locking: bool): World
    requires Enabled(w0, s, locking)
  {
    var w := w0.(clock := s.now);
    match s
    case Load(p, code, consume, _) => Become(w, p, Waiting(Check(w.account.secret, code, consume)))
    case Acquire(p, _) => Become(w, p, Locked(w.requests[p].c)).(holder := Some(p))
    case CheckCap(p, now) =>
      if Capped(cfg, w.account.failures, now) then Become(w, p, Idle).(holder := None)
      else Become(w, p, Passed(w.requests[p].c, now))
    case VerifyCode(p, now) =>
      var r := w.requests[p];
      Become(w, p, Verified(r.c, r.checked, Matched(cfg, r.c, now), now))
    case Record(p, now) =>
      var r := w.requests[p];
      Become(w, p, Idle).(holder := None, account := Settle(cfg, w.account, r.c, r.matched, r.at, now))
    case SetSecret(secret, _) => w.(account := Enrolled(w.account, secret))
    case Disable(_) => w.(account := w.account.(secret := ""))
  }

  predicate Run(cfg: Config, w: World, steps: seq<Step>, locking: bool)
    decreases |steps|
  {
    steps == [] || (Enabled(w, steps[0], locking) && Run(cfg, Next(cfg, w, steps[0], locking), steps[1..], locking))
  }

  function After(cfg: Config, w: World, steps: seq<Step>, locking: bool): World
    requires Run(cfg, w, steps, locking)
    decreases |steps|
  {
    if steps == [] then w else After(cfg, Next(cfg, w, steps[0], locking), steps[1..], locking)
  }

  // ---- the cap ----

  predicate Ordered(failures: seq<int>, clock: int) {
    (forall i, j :: 0 <= i < j < |failures| ==> failures[i] <= failures[j]) &&
    forall i :: 0 <= i < |failures| ==> failures[i] <= clock
  }

  // Any failure and the max-th after it are more than a window apart.
  predicate Spaced(cfg: Config, failures: seq<int>) {
    forall i, j :: 0 <= i < |failures| && 0 <= j < |failures| && i + cfg.max <= j ==> failures[i] + cfg.window < failures[j]
  }

  predicate Busy(r: Request) {
    r.Locked? || r.Passed? || r.Verified?
  }

  predicate BelowCap(cfg: Config, w: World, r: Request) {
    r.Passed? || r.Verified? ==>
      r.checked <= w.clock && (cfg.max > 0 ==> Recent(w.account.failures, r.checked, cfg.window) < cfg.max)
  }

  predicate CapInv(cfg: Config, w: World) {
    Ordered(w.account.failures, w.clock) && (cfg.max > 0 ==> Spaced(cfg, w.account.failures)) &&
    (forall p :: 0 <= p < |w.requests| && Busy(w.requests[p]) ==> w.holder == Some(p)) &&
    forall p :: 0 <= p < |w.requests| ==> BelowCap(cfg, w, w.requests[p])
  }

  lemma SuffixCounts(s: seq<int>, k: nat, t: int)
    requires k <= |s| && forall i :: k <= i < |s| ==> s[i] >= t
    ensures |Keep(s, Since(t))| >= |s| - k
  {
    assert s == s[..k] + s[k..];
    KeepConcat(s[..k], s[k..], Since(t));
    forall x | x in s[k..]
      ensures Since(t)(x)
    {
      var i :| 0 <= i < |s[k..]| && s[k..][i] == x;
      assert s[k + i] == x;
    }
    KeepAll(s[k..], Since(t));
  }

  // Below the cap at an earlier check, one more failure keeps the spacing.
  lemma OneMoreFailure(cfg: Config, failures: seq<int>, checked: int, clock: int, now: int)
    requires cfg.max > 0 && Ordered(failures, clock) && Spaced(cfg, failures) && checked <= clock <= now
    requires Recent(failures, checked, cfg.window) < cfg.max
    ensures Spaced(cfg, failures + [now])
  {
    var n := |failures|;
    if n >= cfg.max {
      var k := n - cfg.max;
      BeforeTheWindow(cfg, failures, k, checked, clock);
      assert forall i :: 0 <= i <= k ==> failures[i] <= failures[k];
    }
  }

  lemma BeforeTheWindow(cfg: Config, failures: seq<int>, k: nat, checked: int, clock: int)
    requires cfg.max > 0 && Ordered(failures, clock) && k + cfg.max == |failures|
    requires Recent(failures, checked, cfg.window) < cfg.max
    ensures failures[k] < checked - cfg.window
  {
    if failures[k] >= checked - cfg.window {
      SuffixCounts(failures, k, checked - cfg.window);
    }
  }

  // A step that records nothing.
  lemma QuietStepKeepsCap(cfg: Config, w: World, s: Step)
    requires CapInv(cfg, w) && Enabled(w, s, true) && !s.Record?
    ensures CapInv(cfg, Next(cfg, w, s, true))
  {
    var w2 := Next(cfg, w, s, true);
    assert w2.account.failures == w.account.failures;
    forall p | 0 <= p < |w2.requests|
      ensures BelowCap(cfg, w2, w2.requests[p])
    {
      assert BelowCap(cfg, w, w.requests[p]);
    }
  }

  lemma RecordKeepsCap(cfg: Config, w: World, s: Step)
    requires CapInv(cfg, w) && Enabled(w, s, true) && s.Record?
    ensures CapInv(cfg, Next(cfg, w, s, true))
  {
    var w2, r := Next(cfg, w, s, true), w.requests[s.p];
    assert BelowCap(cfg, w, r);
    if cfg.max > 0 {
      OneMoreFailure(cfg, w.account.failures, r.checked, w.clock, s.now);
    }
    assert w2.account.failures == w.account.failures || w2.account.failures == w.account.failures + [s.now];
    assert forall p :: 0 <= p < |w2.requests| && p != s.p ==> w2.requests[p] == w.requests[p] && !Busy(w.requests[p]);
  }

  lemma StepKeepsCap(cfg: Config, w: World, s: Step)
    requires CapInv(cfg, w) && Enabled(w, s, true)
    ensures CapInv(cfg, Next(cfg, w, s, true))
  {
    if s.Record? {
      RecordKeepsCap(cfg, w, s);
    } else {
      QuietStepKeepsCap(cfg, w, s);
    }
  }

  lemma {:induction false} CapInvHolds(cfg: Config, w: World, steps: seq<Step>)
    requires CapInv(cfg, w) && Run(cfg, w, steps, true)
    ensures CapInv(cfg, After(cfg, w, steps, true))
    decreases |steps|
  {
    if steps != [] {
      StepKeepsCap(cfg, w, steps[0]);
      CapInvHolds(cfg, Next(cfg, w, steps[0], true), steps[1..]);
    }
  }

  function Within(lo: int, hi: int): int -> bool {
    (x: int) => lo <= x <= hi
  }

  // A window that opens no later than the first failure ends before the max-th after it.
  lemma OnlyTheFirst(cfg: Config, failures: seq<int>, from: int)
    requires cfg.max > 0 && Spaced(cfg, failures) && |failures| > cfg.max && from <= failures[0]
    ensures |Keep(failures, Within(from, from + cfg.window))| <= cfg.max
  {
    var p, head, tail := Within(from, from + cfg.window), failures[..cfg.max], failures[cfg.max..];
    assert failures == head + tail;
    KeepConcat(head, tail, p);
    forall x | x in tail
      ensures !p(x)
    {
      var i :| 0 <= i < |tail| && tail[i] == x;
      assert failures[cfg.max + i] == x && failures[0] + cfg.window < x;
    }
    KeepNone(tail, p);
  }

  // Ordered and spaced failures: no window holds more than max of them.
  lemma {:induction false} SpacedMeansCapped(cfg: Config, failures: seq<int>, clock: int, from: int)
    requires cfg.max > 0 && Ordered(failures, clock) && Spaced(cfg, failures)
    ensures |Keep(failures, Within(from, from + cfg.window))| <= cfg.max
  {
    if failures != [] {
      var p, rest := Within(from, from + cfg.window), failures[1..];
      if failures[0] < from {
        assert forall i, j :: 0 <= i < j < |rest| ==> rest[i] == failures[i + 1] && rest[j] == failures[j + 1];
        SpacedMeansCapped(cfg, rest, clock, from);
      } else if |failures| > cfg.max {
        OnlyTheFirst(cfg, failures, from);
      }
    }
  }

  // Over every interleaving under totpMu: any closed window of `window` seconds
  // holds at most `max` failed checks of the account.
  lemma FailuresAreCapped(cfg: Config, w: World, steps: seq<Step>, from: int)
    requires cfg.max > 0 && CapInv(cfg, w) && Run(cfg, w, steps, true)
    ensures |Keep(After(cfg, w, steps, true).account.failures, Within(from, from + cfg.window))| <= cfg.max
  {
    CapInvHolds(cfg, w, steps);
    var done := After(cfg, w, steps, true);
    SpacedMeansCapped(cfg, done.account.failures, done.clock, from);
  }

  // ---- replay protection ----

  predicate NearClock(x: Accepted) {
    x.at / STEP - WINDOW <= x.counter <= x.at / STEP + WINDOW
  }

  predicate FreshOnly(a: Account) {
    (forall i, j :: 0 <= i < j < |a.accepted| ==> a.accepted[i].counter < a.accepted[j].counter) &&
    forall i :: 0 <= i < |a.accepted| ==> a.accepted[i].counter <= a.lastCounter && NearClock(a.accepted[i])
  }

  predicate FromVerify(r: Request) {
    r.Verified? && r.matched.Some? ==> NearClock(Accepted(r.matched.value, r.at))
  }

  predicate ReplayInv(w: World) {
    FreshOnly(w.account) && forall p :: 0 <= p < |w.requests| ==> FromVerify(w.requests[p])
  }

  // The counters accepted between two writes of the secret strictly increase, and
  // each is within one step of the clock at its verification; with or without the
  // mutex, since the counter advances in one UPDATE.
  lemma {:induction false} CountersIncrease(cfg: Config, w: World, steps: seq<Step>, locking: bool)
    requires ReplayInv(w) && Run(cfg, w, steps, locking)
    ensures ReplayInv(After(cfg, w, steps, locking))
    decreases |steps|
  {
    if steps != [] {
      var w1 := Next(cfg, w, steps[0], locking);
      assert steps[0].Record? ==> FromVerify(w.requests[steps[0].p]);
      CountersIncrease(cfg, w1, steps[1..], locking);
    }
  }

  // So between two writes of the secret a time step authorises at most one operation.
  lemma OneUsePerStep(cfg: Config, w: World, steps: seq<Step>, locking: bool, i: nat, j: nat)
    requires ReplayInv(w) && Run(cfg, w, steps, locking)
    requires var accepted := After(cfg, w, steps, locking).account.accepted;
             i < |accepted| && j < |accepted| && accepted[i].counter == accepted[j].counter
    ensures i == j
  {
    CountersIncrease(cfg, w, steps, locking);
  }

  // ---- across writes of the secret ----

  predicate NoRepeat(used: seq<Use>) {
    forall i, j :: 0 <= i < j < |used| ==> used[i] != used[j]
  }

  // The step records a check loaded before the last write of the secret, whose time
  // step was consumed before and is ahead of what was consumed since the write.
  predicate StaleReplay(cfg: Config, w: World, s: Step) {
    s.Record? && s.p < |w.requests| && w.requests[s.p].Verified? && cfg.replayProtection &&
    var r := w.requests[s.p];
    r.c.consume && r.matched.Some? && r.c.secret != w.account.secret &&
    Use(r.c.secret, r.matched.value) in w.account.used && w.account.lastCounter < r.matched.value
  }

  predicate Replays(cfg: Config, w: World, steps: seq<Step>, locking: bool)
    requires Run(cfg, w, steps, locking)
    decreases |steps|
  {
    steps != [] && (StaleReplay(cfg, w, steps[0]) || Replays(cfg, Next(cfg, w, steps[0], locking), steps[1..], locking))
  }

  // Every secret set is a new one: 160 random bits.
  predicate NewSecrets(steps: seq<Step>, known: set<string>)
    decreases |steps|
  {
    steps == [] ||
    if steps[0].SetSecret? then
      steps[0].secret != "" && steps[0].secret !in known && NewSecrets(steps[1..], known + {steps[0].secret})
    else NewSecrets(steps[1..], known)
  }

  function Known(known: set<string>, s: Step): set<string> {
    if s.SetSecret? then known + {s.secret} else known
  }

  predicate CheckKnown(r: Request, known: set<string>) {
    (!r.Idle? ==> r.c.secret == "" || r.c.secret in known) && (r.Verified? && r.matched.Some? ==> r.c.secret != "")
  }

  // What was consumed under the current secret is not ahead of its counter.
  predicate UseInv(w: World, known: set<string>) {
    (w.account.secret == "" || w.account.secret in known) &&
    (forall u :: u in w.account.used ==>
      u.secret != "" && u.secret in known && (u.secret == w.account.secret ==> u.counter <= w.account.lastCounter)) &&
    forall p :: 0 <= p < |w.requests| ==> CheckKnown(w.requests[p], known)
  }

  lemma NoRepeatMore(used: seq<Use>, u: Use)
    ensures NoRepeat(used + [u]) <==> NoRepeat(used) && u !in used
  {
    var more := used + [u];
    assert more[|used|] == u;
    assert forall i :: 0 <= i < |used| ==> more[i] == used[i];
  }

  // One check settled: its time step repeats one only if the check is stale.
  lemma SettledOnce(cfg: Config, w: World, s: Step, known: set<string>)
    requires UseInv(w, known) && s.Record? && Enabled(w, s, false)
    ensures var r := w.requests[s.p];
            var a := Settle(cfg, w.account, r.c, r.matched, r.at, s.now);
            NoRepeat(a.used) <==> NoRepeat(w.account.used) && !StaleReplay(cfg, w, s)
  {
    var r := w.requests[s.p];
    if r.matched.Some? {
      NoRepeatMore(w.account.used, Use(r.c.secret, r.matched.value));
    }
  }

  lemma RecordKeepsUse(cfg: Config, w: World, s: Step, locking: bool, known: set<string>)
    requires UseInv(w, known) && Enabled(w, s, locking) && s.Record?
    ensures var w2 := Next(cfg, w, s, locking);
            UseInv(w2, known) && (NoRepeat(w2.account.used) <==> NoRepeat(w.account.used) && !StaleReplay(cfg, w, s))
  {
    hide NoRepeat, StaleReplay, Capped, TrimSpace;
    assert CheckKnown(w.requests[s.p], known);
    SettledOnce(cfg, w, s, known);
  }

  lemma CheckKeepsUse(cfg: Config, w: World, s: Step, locking: bool, known: set<string>)
    requires UseInv(w, known) && Enabled(w, s, locking) && !s.Record? && !s.SetSecret? && !s.Disable?
    ensures var w2 := Next(cfg, w, s, locking);
            UseInv(w2, known) && w2.account == w.account
  {
    hide Capped, TrimSpace;
    assert CheckKnown(w.requests[s.p], known);
  }

  lemma UseStep(cfg: Config, w: World, s: Step, locking: bool, known: set<string>)
    requires UseInv(w, known) && Enabled(w, s, locking)
    requires s.SetSecret? ==> s.secret != "" && s.secret !in known
    ensures var w2 := Next(cfg, w, s, locking);
            UseInv(w2, Known(known, s)) &&
            (NoRepeat(w2.account.used) <==> NoRepeat(w.account.used) && !StaleReplay(cfg, w, s))
  {
    hide NoRepeat, Capped, TrimSpace, Settle, Matched;
    match s
    case SetSecret(_, _) =>
    case Disable(_) =>
    case Record(_, _) => RecordKeepsUse(cfg, w, s, locking, known);
    case _ => CheckKeepsUse(cfg, w, s, locking, known);
  }

  // Over a whole run, writes of the secret included: no time step of a secret is
  // consumed twice, if and only if no step is a stale replay.
  lemma {:induction false} UsedOnceExactly(cfg: Config, w: World, steps: seq<Step>, locking: bool, known: set<string>)
    requires UseInv(w, known) && Run(cfg, w, steps, locking) && NewSecrets(steps, known)
    ensures NoRepeat(After(cfg, w, steps, locking).account.used)
            <==> NoRepeat(w.account.used) && !Replays(cfg, w, steps, locking)
    decreases |steps|
  {
    if steps != [] {
      UseStep(cfg, w, steps[0], locking, known);
      UsedOnceExactly(cfg, Next(cfg, w, steps[0], locking), steps[1..], locking, Known(known, steps[0]));
    }
  }

  // Every check is recorded under the secret it was loaded with.
  predicate Drained(cfg: Config, w: World, steps: seq<Step>, locking: bool)
    requires Run(cfg, w, steps, locking)
    decreases |steps|
  {
    steps == [] ||
    ((steps[0].Record? ==> w.requests[steps[0].p].c.secret == w.account.secret) &&
     Drained(cfg, Next(cfg, w, steps[0], locking), steps[1..], locking))
  }

  // If no check loaded before a write is recorded after it, every time step is
  // consumed at most once.
  lemma {:induction false} DrainedUsesOnce(cfg: Config, w: World, steps: seq<Step>, locking: bool, known: set<string>)
    requires UseInv(w, known) && Run(cfg, w, steps, locking) && NewSecrets(steps, known)
    requires NoRepeat(w.account.used) && Drained(cfg, w, steps, locking)
    ensures NoRepeat(After(cfg, w, steps, locking).account.used)
  {
    NotStale(cfg, w, steps, locking);
    UsedOnceExactly(cfg, w, steps, locking, known);
  }

  lemma {:induction false} NotStale(cfg: Config, w: World, steps: seq<Step>, locking: bool)
    requires Run(cfg, w, steps, locking) && Drained(cfg, w, steps, locking)
    ensures !Replays(cfg, w, steps, locking)
    decreases |steps|
  {
    if steps != [] {
      NotStale(cfg, Next(cfg, w, steps[0], locking), steps[1..], locking);
    }
  }

  // If one is: whatever verified check is pending, a write resets the counter it
  // would have been measured against, and recording it consumes its step again.
  lemma AWriteReopensPendingChecks(cfg: Config, w: World, p: nat, secret: string, now: int, locking: bool)
    requires cfg.replayProtection && w.clock <= now
    requires p < |w.requests| && w.requests[p].Verified? && w.requests[p].c.consume
    requires w.requests[p].matched.Some? && w.requests[p].matched.value > 0
    requires Use(w.requests[p].c.secret, w.requests[p].matched.value) in w.account.used
    ensures var done := Next(cfg, Next(cfg, w, SetSecret(secret, now), locking), Record(p, now), locking);
            !NoRepeat(done.account.used)
  {
    var u := Use(w.requests[p].c.secret, w.requests[p].matched.value);
    NoRepeatMore(w.account.used, u);
  }

  lemma RunStep(cfg: Config, w: World, s: Step, rest: seq<Step>, locking: bool)
    requires Enabled(w, s, locking) && Run(cfg, Next(cfg, w, s, locking), rest, locking)
    ensures Run(cfg, w, [s] + rest, locking)
    ensures After(cfg, w, [s] + rest, locking) == After(cfg, Next(cfg, w, s, locking), rest, locking)
  {
    assert ([s] + rest)[1..] == rest;
  }

  predicate Takes(cfg: Config, w: World, s: Step, w2: World, locking: bool) {
    Enabled(w, s, locking) && w2 == Next(cfg, w, s, locking)
  }

  lemma FourSteps(cfg: Config, w: World, w1: World, w2: World, w3: World, w4: World, g: seq<Step>, locking: bool)
    requires |g| == 4 && Takes(cfg, w, g[0], w1, locking) && Takes(cfg, w1, g[1], w2, locking)
    requires Takes(cfg, w2, g[2], w3, locking) && Takes(cfg, w3, g[3], w4, locking)
    ensures Run(cfg, w, g, locking) && After(cfg, w, g, locking) == w4
  {
    RunStep(cfg, w3, g[3], [], locking);
    hide Next, Enabled;
    RunStep(cfg, w2, g[2], [g[3]], locking);
    RunStep(cfg, w1, g[1], [g[2], g[3]], locking);
    RunStep(cfg, w, g[0], [g[1], g[2], g[3]], locking);
    assert g == [g[0]] + [g[1], g[2], g[3]];
  }

  // Two checks of one code, the second verified but recorded after a write of the
  // secret: the code is accepted twice, under the mutex.
  function TwoLoads(code: string): seq<Step> {
    [Load(0, code, true, 60), Load(1, code, true, 60), Acquire(0, 60), CheckCap(0, 60)]
  }

  const TWO_CHECKS: seq<Step> := [VerifyCode(0, 60), Record(0, 60), Acquire(1, 60), CheckCap(1, 60)]
  const WRITE_BETWEEN: seq<Step> := [VerifyCode(1, 60), SetSecret("t", 60), Record(1, 60)]

  lemma LoadedTwice(cfg: Config, w: World, code: string, c: Check)
    requires cfg.max <= 0 && c == Check("s", code, true) && TrimSpace(code) != ""
    requires w == World(60, Account("s", 0, [], [], []), None, [Idle, Idle])
    ensures Run(cfg, w, TwoLoads(code), true)
    ensures After(cfg, w, TwoLoads(code), true) == w.(holder := Some(0), requests := [Passed(c, 60), Waiting(c)])
  {
    hide Run, After, TrimSpace;
    var g := TwoLoads(code);
    var w1 := Next(cfg, w, g[0], true);
    var w2 := Next(cfg, w1, g[1], true);
    assert w2.requests == [Waiting(c), Waiting(c)];
    var w3 := Next(cfg, w2, g[2], true);
    var w4 := Next(cfg, w3, g[3], true);
    assert w4.requests == [Passed(c, 60), Waiting(c)];
    FourSteps(cfg, w, w1, w2, w3, w4, g, true);
  }

  lemma AcceptedOnce(cfg: Config, w: World, c: Check)
    requires cfg.replayProtection && cfg.max <= 0 && c.consume && c.secret == "s" && Matched(cfg, c, 60) == Some(1)
    requires w == World(60, Account("s", 0, [], [], []), Some(0), [Passed(c, 60), Waiting(c)])
    ensures Run(cfg, w, TWO_CHECKS, true)
    ensures After(cfg, w, TWO_CHECKS, true)
            == World(60, Account("s", 1, [], [Accepted(1, 60)], [Use("s", 1)]), Some(1), [Idle, Passed(c, 60)])
  {
    hide Run, After, TrimSpace;
    var g := TWO_CHECKS;
    var w1 := Next(cfg, w, g[0], true);
    var w2 := Next(cfg, w1, g[1], true);
    assert w2.requests == [Idle, Waiting(c)] && w2.account.used == [Use("s", 1)];
    var w3 := Next(cfg, w2, g[2], true);
    var w4 := Next(cfg, w3, g[3], true);
    assert w4.requests == [Idle, Passed(c, 60)];
    FourSteps(cfg, w, w1, w2, w3, w4, g, true);
  }

  lemma AcceptedAgain(cfg: Config, w: World, c: Check)
    requires cfg.replayProtection && c.consume && c.secret == "s" && Matched(cfg, c, 60) == Some(1)
    requires w == World(60, Account("s", 1, [], [Accepted(1, 60)], [Use("s", 1)]), Some(1), [Idle, Passed(c, 60)])
    ensures Run(cfg, w, WRITE_BETWEEN, true)
    ensures After(cfg, w, WRITE_BETWEEN, true).account.used == [Use("s", 1), Use("s", 1)]
  {
    var g := WRITE_BETWEEN;
    var w1 := Next(cfg, w, g[0], true);
    var w2 := Next(cfg, w1, g[1], true);
    assert Next(cfg, w2, g[2], true).account.used == [Use("s", 1), Use("s", 1)];
    RunStep(cfg, w2, g[2], [], true);
    RunStep(cfg, w1, g[1], [g[2]], true);
    RunStep(cfg, w, g[0], [g[1], g[2]], true);
    assert g == [g[0]] + [g[1], g[2]];
  }

  lemma ACodeIsAcceptedTwice(cfg: Config, w: World, code: string)
    requires cfg.replayProtection && cfg.max <= 0 && code == Hotp(cfg.hmac(KeyOf(cfg.decode, "s")), 1)
    requires w == World(60, Account("s", 0, [], [], []), None, [Idle, Idle])
    ensures UseInv(w, {"s"}) && Run(cfg, w, TwoLoads(code), true)
    ensures var loaded := After(cfg, w, TwoLoads(code), true);
            Run(cfg, loaded, TWO_CHECKS, true) &&
            var pending := After(cfg, loaded, TWO_CHECKS, true);
            Run(cfg, pending, WRITE_BETWEEN, true) &&
            After(cfg, pending, WRITE_BETWEEN, true).account.used == [Use("s", 1), Use("s", 1)]
  {
    hide Run, After, Next, TrimSpace;
    CodesAreTrimmed(code);
    var c := Check("s", code, true);
    assert Matches(cfg.hmac(KeyOf(cfg.decode, "s")), code, 1);
    assert Matched(cfg, c, 60) == Some(1);
    LoadedTwice(cfg, w, code, c);
    var loaded := After(cfg, w, TwoLoads(code), true);
    AcceptedOnce(cfg, loaded, c);
    AcceptedAgain(cfg, After(cfg, loaded, TWO_CHECKS, true), c);
  }

  lemma CodesAreTrimmed(code: string)
    requires |code| == DIGITS && forall i :: 0 <= i < |code| ==> '0' <= code[i] <= '9'
    ensures TrimSpace(code) == code
  {
  }

  // ---- why the mutex is needed ----

  const GUESSES: seq<Step> := [Load(0, "x", true, 0), Load(1, "x", true, 0), Acquire(0, 0), Acquire(1, 0)]
  const CHECKS: seq<Step> := [CheckCap(0, 0), CheckCap(1, 0), VerifyCode(0, 0), VerifyCode(1, 0)]
  const RECORDS: seq<Step> := [Record(0, 0), Record(1, 0)]
  const GUESS := Check("s", "x", true)
  const WRONG := Verified(GUESS, 0, None, 0)

  // Two requests inside at once.
  lemma BothGetIn(cfg: Config, w: World)
    requires w == World(0, Account("s", 0, [], [], []), None, [Idle, Idle])
    ensures Run(cfg, w, GUESSES, false)
    ensures After(cfg, w, GUESSES, false) == World(0, w.account, Some(1), [Locked(GUESS), Locked(GUESS)])
  {
    hide Run, After, TrimSpace;
    var g := GUESSES;
    var w1 := Next(cfg, w, g[0], false);
    var w2 := Next(cfg, w1, g[1], false);
    var w3 := Next(cfg, w2, g[2], false);
    assert w3.requests == [Locked(GUESS), Waiting(GUESS)];
    var w4 := Next(cfg, w3, g[3], false);
    assert w4.requests == [Locked(GUESS), Locked(GUESS)];
    FourSteps(cfg, w, w1, w2, w3, w4, g, false);
  }

  // Both below the cap, both wrong.
  lemma BothAreWrong(cfg: Config, w: World)
    requires cfg.max == 1 && w == World(0, Account("s", 0, [], [], []), Some(1), [Locked(GUESS), Locked(GUESS)])
    ensures Run(cfg, w, CHECKS, false)
    ensures After(cfg, w, CHECKS, false) == w.(requests := [WRONG, WRONG])
  {
    hide Run, After, TrimSpace;
    var g := CHECKS;
    var w1 := Next(cfg, w, g[0], false);
    var w2 := Next(cfg, w1, g[1], false);
    assert w2.requests == [Passed(GUESS, 0), Passed(GUESS, 0)];
    WrongLength(cfg.hmac(KeyOf(cfg.decode, "s")), "x", 0);
    var w3 := Next(cfg, w2, g[2], false);
    var w4 := Next(cfg, w3, g[3], false);
    assert w4.requests == [WRONG, WRONG];
    FourSteps(cfg, w, w1, w2, w3, w4, g, false);
  }

  lemma BothAreRecorded(cfg: Config, w: World)
    requires w == World(0, Account("s", 0, [], [], []), Some(1), [WRONG, WRONG])
    ensures Run(cfg, w, RECORDS, false) && After(cfg, w, RECORDS, false).account.failures == [0, 0]
  {
    var g := RECORDS;
    var w1 := Next(cfg, w, g[0], false);
    assert w1.account.failures == [0];
    assert Next(cfg, w1, g[1], false).account.failures == [0, 0];
    RunStep(cfg, w1, g[1], [], false);
    RunStep(cfg, w, g[0], [g[1]], false);
    assert g == [g[0]] + [g[1]];
  }

  // Without it, two guesses pass a cap of one.
  lemma WithoutTheMutexTheCapLeaks(cfg: Config, w: World)
    requires cfg.max == 1 && w == World(0, Account("s", 0, [], [], []), None, [Idle, Idle])
    ensures CapInv(cfg, w) && Run(cfg, w, GUESSES, false)
    ensures var inside := After(cfg, w, GUESSES, false);
            Run(cfg, inside, CHECKS, false) &&
            var checked := After(cfg, inside, CHECKS, false);
            Run(cfg, checked, RECORDS, false) && After(cfg, checked, RECORDS, false).account.failures == [0, 0]
  {
    hide Next, Enabled;
    BothGetIn(cfg, w);
    var inside := After(cfg, w, GUESSES, false);
    BothAreWrong(cfg, inside);
    BothAreRecorded(cfg, After(cfg, inside, CHECKS, false));
  }

  // ---- the program, between taking and releasing the mutex ----

  // The steps of one check, uninterrupted.
  function Attempted(cfg: Config, a: Account, c: Check, now: int): Account {
    if Capped(cfg, a.failures, now) then a else Settle(cfg, a, c, Matched(cfg, c, now), now, now)
  }

  lemma AttemptIsItsSteps(cfg: Config, w: World, p: nat, now: int)
    requires p < |w.requests| && w.requests[p].Locked? && w.clock <= now
    ensures var checked := Next(cfg, w, CheckCap(p, now), true);
            if checked.requests[p].Idle? then checked.account == Attempted(cfg, w.account, w.requests[p].c, now)
            else var done := Next(cfg, Next(cfg, checked, VerifyCode(p, now), true), Record(p, now), true);
                 done.account == Attempted(cfg, w.account, w.requests[p].c, now)
  {
  }

  // ---- what an attempt answers, in rows ----

  // The account's failures at time t or later.
  function FailuresSince(failures: seq<int>, t: int): nat {
    |set i | 0 <= i < |failures| && failures[i] >= t|
  }

  lemma OneFailureMore(front: seq<int>, x: int, t: int)
    ensures FailuresSince(front + [x], t) == FailuresSince(front, t) + if x >= t then 1 else 0
  {
    var n, more := |front|, front + [x];
    var before := set i | 0 <= i < n && front[i] >= t;
    var all := set i | 0 <= i < n + 1 && more[i] >= t;
    assert all == if x >= t then before + {n} else before;
  }

  lemma {:induction false} KeepCounts(failures: seq<int>, t: int)
    ensures |Keep(failures, Since(t))| == FailuresSince(failures, t)
  {
    var all := set i | 0 <= i < |failures| && failures[i] >= t;
    if failures == [] {
      assert all == {};
    } else {
      hide FailuresSince;
      var front, x := failures[..|failures| - 1], failures[|failures| - 1];
      assert failures == front + [x];
      KeepCounts(front, t);
      OneFailureMore(front, x, t);
      KeepConcat(front, [x], Since(t));
      assert Keep([x], Since(t)) == if x >= t then [x] else [];
    }
  }

  // The check is locked out: as many failures as allowed, or more, in the last
  // `window` seconds.
  predicate LockedOut(cfg: Config, failures: seq<int>, now: int) {
    cfg.max > 0 && FailuresSince(failures, now - cfg.window) >= cfg.max
  }

  lemma LockedOutIsCapped(cfg: Config, failures: seq<int>, now: int)
    ensures LockedOut(cfg, failures, now) <==> Capped(cfg, failures, now)
  {
    KeepCounts(failures, now - cfg.window);
  }

  // The code is good: it is the secret's for a counter near the clock, and, where
  // codes are consumed, for one ahead of the last one consumed.
  ghost predicate Good(cfg: Config, a: Account, c: Check, now: int) {
    c.secret != "" &&
    exists m :: Right(cfg.hmac(KeyOf(cfg.decode, c.secret)), TrimSpace(c.code), now, m) &&
                (c.consume && cfg.replayProtection ==> a.lastCounter < m)
  }

  // A check that is not locked out is verified: a good code leaves no failure, any
  // other leaves one.  A locked one is not even recorded.
  lemma AttemptIs(cfg: Config, a: Account, c: Check, now: int)
    requires c.code != ""
    ensures LockedOut(cfg, a.failures, now) ==> Attempted(cfg, a, c, now) == a
    ensures !LockedOut(cfg, a.failures, now) ==>
              Attempted(cfg, a, c, now).failures == if Good(cfg, a, c, now) then a.failures else a.failures + [now]
  {
    LockedOutIsCapped(cfg, a.failures, now);
    var hmac, code := cfg.hmac(KeyOf(cfg.decode, c.secret)), TrimSpace(c.code);
    VerifyIs(hmac, c.secret != "", c.code, now);
    hide LockedOut, Capped, Verify, TrimSpace, KeyOf;
    OneRight(hmac, code, now);
  }

  lemma OneRight(hmac: Hmac, code: string, now: int)
    ensures forall m, n :: Right(hmac, code, now, m) && Right(hmac, code, now, n) ==> m == n
  {
  }

  class Gate {
    const cfg: Config
    var account: Account

    constructor (cfg: Config, account: Account)
      ensures this.cfg == cfg && this.account == account
    {
      this.cfg, this.account := cfg, account;
    }

    method TotpLocked(now: int) returns (locked: bool)
      ensures locked == Capped(cfg, account.failures, now)
      ensures locked <==> cfg.max > 0 && |set i | 0 <= i < |account.failures| && account.failures[i] >= now - cfg.window| >= cfg.max
    {
      KeepCounts(account.failures, now - cfg.window);
      if cfg.max <= 0 {
        return false;
      }
      var n := 0;
      for i := 0 to |account.failures|
        invariant n == |Keep(account.failures[..i], Since(now - cfg.window))|
      {
        KeepNext(account.failures, i, Since(now - cfg.window));
        if account.failures[i] >= now - cfg.window {
          n := n + 1;
        }
      }
      assert account.failures[..|account.failures|] == account.failures;
      locked := n >= cfg.max;
    }

    // UPDATE ... WHERE totp_last_counter < counter.
    method ConsumeTOTPCounter(secret: string, counter: int, at: int) returns (advanced: bool)
      modifies this
      ensures advanced == (old(account).lastCounter < counter)
      ensures account == if advanced then Consumed(old(account), secret, counter, at) else old(account)
    {
      advanced := account.lastCounter < counter;
      if advanced {
        account := account.(lastCounter := counter, accepted := account.accepted + [Accepted(counter, at)],
                            used := account.used + [Use(secret, counter)]);
      }
    }

    method TotpAttempt(c: Check, now: nat) returns (ok: bool, answered: bool)
      modifies this
      ensures account == if TrimSpace(c.code) == "" then old(account) else Attempted(cfg, old(account), c, now)
      ensures answered <==> TrimSpace(c.code) != "" && LockedOut(cfg, old(account).failures, now)
      ensures ok <==> TrimSpace(c.code) != "" && !LockedOut(cfg, old(account).failures, now) && Good(cfg, old(account), c, now)
      ensures ok ==> account.failures == old(account).failures
      ensures TrimSpace(c.code) != "" && !ok && !answered ==> account.failures == old(account).failures + [now]
    {
      if TrimSpace(c.code) == "" {
        return false, false;
      }
      LockedOutIsCapped(cfg, account.failures, now);
      var locked := TotpLocked(now);
      if locked {
        return false, true;
      }
      OneRight(cfg.hmac(KeyOf(cfg.decode, c.secret)), TrimSpace(c.code), now);
      hide LockedOut, Capped, TrimSpace, KeyOf, Right;
      var matched := VerifyTOTPCounter(cfg.hmac(KeyOf(cfg.decode, c.secret)), c.secret != "", c.code, now);
      ok, answered := matched.Some?, false;
      if matched.Some? && c.consume && cfg.replayProtection {
        ok := ConsumeTOTPCounter(c.secret, matched.value, now);
      }
      if !ok {
        account := account.(failures := account.failures + [now]);
      }
    }
  }
}
