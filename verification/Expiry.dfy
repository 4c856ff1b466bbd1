// With a positive cleanup age, whoever stops knocking loses their rules.
module Expiry {
  import opened Net
  import opened NftChain
  import opened NftReconcile
  import opened Server
  import opened ServerRuns
  import D = Database

  // Everyone's last knock was recent enough for the last cleanup.
  predicate SweptAt(cfg: Config, s: State, clock: int) {
    s.lastCleanup.Some? && s.lastCleanup.value <= clock &&
    forall i :: i in s.db.users ==> !Expired(s.db.users[i], cfg.cleanupDays * 86_400, s.lastCleanup.value / 1_000_000_000)
  }

  function ClockAfter(clock: int, step: Step): int {
    if step.Knock? || step.Maintain? then step.now else clock
  }

  // The times of the steps never go back.
  predicate Monotone(clock: int, steps: seq<Step>)
    decreases |steps|
  {
    steps == [] || (clock <= ClockAfter(clock, steps[0]) && Monotone(ClockAfter(clock, steps[0]), steps[1..]))
  }

  function ClockOf(clock: int, steps: seq<Step>): int
    decreases |steps|
  {
    if steps == [] then clock else ClockOf(ClockAfter(clock, steps[0]), steps[1..])
  }

  // CleanupStale leaves no listed user expired.
  lemma {:induction false} CleanSweeps(s: Cleaning, ids: seq<nat>, groups: map<nat, seq<D.Group>>, maxAge: int, now: int)
    requires forall id :: id in ids ==> id in groups
    ensures var r := Clean(s, ids, groups, maxAge, now);
            r.db.users.Keys == s.db.users.Keys &&
            (forall id :: id in ids && id in r.db.users ==> !Expired(r.db.users[id], maxAge, now)) &&
            forall i :: i in r.db.users ==> r.db.users[i] == s.db.users[i] || r.db.users[i].lastKnock == None
    decreases |ids|
  {
    if ids != [] {
      CleanSweeps(s, ids[..|ids| - 1], groups, maxAge, now);
    }
  }

  lemma MaintainSweeps(cfg: Config, s: State, now: int, a: Answers)
    requires Startable(s) && Answered(cfg, s, now, a) && cfg.cleanupDays > 0
    requires !Due(cfg, s, now) ==> SweptAt(cfg, s, now)
    ensures var s2 := SpecMaintain(cfg, s, now, a);
            SweptAt(cfg, s2, now) && now - s2.lastCleanup.value < CLEANUP_EVERY
  {
    if Due(cfg, s, now) {
      CleanSweeps(Cleaning(s.db, SpecEnsureBase(s.fw).0), a.ids, a.groups, cfg.cleanupDays * 86_400, now / 1_000_000_000);
    }
  }

  lemma KnockKeepsSwept(cfg: Config, s: State, knock: Step, s2: State, clock: int)
    requires D.ValidTables(s.db) && SweptAt(cfg, s, clock) && knock.Knock? && AllNames(knock.groups, knock.order)
    requires cfg.cleanupDays > 0 && clock <= knock.now
    requires s2 == SpecKnock(s, knock.username, knock.secret, knock.origin, knock.now, knock.groups, knock.order)
    ensures SweptAt(cfg, s2, knock.now)
  {
    hide D.ValidTables, SpecKnock;
    D.FindUserFinds(s.db, knock.username);
    KnockTables(s, knock.username, knock.secret, knock.origin, knock.now, knock.groups, knock.order);
    assert s.lastCleanup.value / 1_000_000_000 <= knock.now / 1_000_000_000;
  }

  // Nobody's last knock is another than before.
  predicate NobodyKnocks(s: State, s2: State) {
    s2.lastCleanup == s.lastCleanup &&
    forall i :: i in s2.db.users ==>
      s2.db.users[i].lastKnock == None || (i in s.db.users && s2.db.users[i].lastKnock == s.db.users[i].lastKnock)
  }

  lemma RevokeIsNoKnock(s: State, id: nat, rotate: Option<string>)
    ensures NobodyKnocks(s, SpecRevoke(s, id, rotate))
  {
  }

  lemma DeleteIsNoKnock(s: State, id: nat)
    ensures NobodyKnocks(s, SpecDeleteUser(s, id))
  {
  }

  lemma CreateIsNoKnock(s: State, name: string, secret: string, isAdmin: bool)
    requires D.ValidTables(s.db)
    ensures NobodyKnocks(s, SpecCreateUser(s, name, secret, isAdmin))
  {
  }

  lemma SetAdminIsNoKnock(s: State, id: nat, isAdmin: bool)
    ensures NobodyKnocks(s, s.(db := D.SetAdmin(s.db, id, isAdmin)))
  {
  }

  lemma OtherStepIsNoKnock(cfg: Config, s: State, step: Step)
    requires D.ValidTables(s.db) && Possible(cfg, s, step) && !step.Knock? && !step.Maintain?
    ensures NobodyKnocks(s, Next(cfg, s, step))
  {
    hide SpecRevoke, SpecDeleteUser, SpecCreateUser, D.SetAdmin, SpecKnock, SpecMaintain, D.ValidTables;
    match step
    case Revoke(user, rotate) => RevokeIsNoKnock(s, user, rotate);
    case DeleteUser(user) => DeleteIsNoKnock(s, user);
    case CreateUser(name, secret, isAdmin) => CreateIsNoKnock(s, name, secret, isAdmin);
    case SetAdmin(user, isAdmin) => SetAdminIsNoKnock(s, user, isAdmin);
    case SetMembership(_, _, _, _) => MemberStepKeepsUsers(cfg, s, step);
    case AddMembership(_, _) => MemberStepKeepsUsers(cfg, s, step);
    case RemoveMembership(_) => MemberStepKeepsUsers(cfg, s, step);
    case _ => GroupStepKeepsUsers(cfg, s, step);
  }

  lemma StillSwept(cfg: Config, s: State, s2: State, clock: int)
    requires SweptAt(cfg, s, clock) && NobodyKnocks(s, s2)
    ensures SweptAt(cfg, s2, clock)
  {
  }

  lemma StepKeepsSwept(cfg: Config, s: State, step: Step, clock: int)
    requires Inv(cfg, s) && Possible(cfg, s, step) && SweptAt(cfg, s, clock)
    requires cfg.cleanupDays > 0 && clock <= ClockAfter(clock, step)
    ensures SweptAt(cfg, Next(cfg, s, step), ClockAfter(clock, step))
  {
    hide D.ValidTables, SpecKnock, SpecMaintain;
    match step
    case Knock(_, _, _, _, _, _) => KnockKeepsSwept(cfg, s, step, Next(cfg, s, step), clock);
    case Maintain(now, a) => MaintainSweeps(cfg, s, now, a);
    case _ =>
      OtherStepIsNoKnock(cfg, s, step);
      StillSwept(cfg, s, Next(cfg, s, step), clock);
  }

  lemma {:induction false} RunKeepsSwept(cfg: Config, s: State, steps: seq<Step>, clock: int)
    requires Inv(cfg, s) && Run(cfg, s, steps) && Monotone(clock, steps) && SweptAt(cfg, s, clock) && cfg.cleanupDays > 0
    ensures Inv(cfg, After(cfg, s, steps)) && SweptAt(cfg, After(cfg, s, steps), ClockOf(clock, steps))
    decreases |steps|
  {
    if steps != [] {
      StepKeepsInv(cfg, s, steps[0]);
      StepKeepsSwept(cfg, s, steps[0], clock);
      RunKeepsSwept(cfg, Next(cfg, s, steps[0]), steps[1..], ClockAfter(clock, steps[0]));
    }
  }

  // The owner of the grant knocked at most `seconds` ago.
  ghost predicate KnockedWithin(s: State, g: Grant, now: int, seconds: int) {
    exists i :: i in s.db.users && s.db.users[i].username == g.user && s.db.users[i].lastKnock.Some? &&
                now / 1_000_000_000 - s.db.users[i].lastKnock.value <= seconds
  }

  lemma DesiredIsRecent(cfg: Config, s: State, now: int, g: Grant)
    requires D.ValidTables(s.db) && SweptAt(cfg, s, now) && now - s.lastCleanup.value < CLEANUP_EVERY
    requires g in D.DesiredLocal(s.db)
    ensures KnockedWithin(s, g, now, cfg.cleanupDays * 86_400 + 3600)
  {
    var k := D.DesiredComesFrom(s.db, g);
    assert now / 1_000_000_000 - s.lastCleanup.value / 1_000_000_000 <= 3600;
    assert s.db.users[k.user].lastKnock.Some?;
  }

  // What holds after any Maintain of a run from the server's start.
  lemma SweptInRuns(cfg: Config, s: State, now0: int, a0: Answers, first: State, steps: seq<Step>, here: State,
                    now: int, a: Answers, done: State)
    requires Startable(s) && s.lastCleanup == None && Answered(cfg, s, now0, a0) && cfg.cleanupDays > 0
    requires first == SpecMaintain(cfg, s, now0, a0)
    requires Run(cfg, first, steps) && Monotone(now0, steps) && here == After(cfg, first, steps)
    requires Answered(cfg, here, now, a) && ClockOf(now0, steps) <= now && done == SpecMaintain(cfg, here, now, a)
    ensures D.ValidTables(done.db) && Grants(done.fw) == D.DesiredLocal(done.db)
    ensures SweptAt(cfg, done, now) && now - done.lastCleanup.value < CLEANUP_EVERY
  {
    MaintainExact(cfg, s, now0, a0);
    MaintainSweeps(cfg, s, now0, a0);
    RunKeepsSwept(cfg, first, steps, now0);
    MaintainExact(cfg, here, now, a);
    MaintainSweeps(cfg, here, now, a);
  }

  // After every Maintain of every run from the server's start: each managed rule's
  // owner last knocked at most the cleanup age plus one hour ago.
  lemma IdleUsersExpire(cfg: Config, s: State, now0: int, a0: Answers, first: State, steps: seq<Step>, here: State,
                        now: int, a: Answers, done: State)
    requires Startable(s) && s.lastCleanup == None && Answered(cfg, s, now0, a0) && cfg.cleanupDays > 0
    requires first == SpecMaintain(cfg, s, now0, a0)
    requires Run(cfg, first, steps) && Monotone(now0, steps) && here == After(cfg, first, steps)
    requires Answered(cfg, here, now, a) && ClockOf(now0, steps) <= now && done == SpecMaintain(cfg, here, now, a)
    ensures forall g :: g in Grants(done.fw) ==> KnockedWithin(done, g, now, cfg.cleanupDays * 86_400 + 3600)
  {
    SweptInRuns(cfg, s, now0, a0, first, steps, here, now, a, done);
    forall g | g in Grants(done.fw)
      ensures KnockedWithin(done, g, now, cfg.cleanupDays * 86_400 + 3600)
    {
      DesiredIsRecent(cfg, done, now, g);
    }
  }

  // ---- the bound is exact ----

  lemma {:induction false} CleanSpares(s: Cleaning, ids: seq<nat>, groups: map<nat, seq<D.Group>>, maxAge: int, now: int, id: nat)
    requires forall i :: i in ids ==> i in groups
    requires id in s.db.users && !Expired(s.db.users[id], maxAge, now)
    ensures var r := Clean(s, ids, groups, maxAge, now);
            r.db.members == s.db.members && r.db.groups == s.db.groups &&
            id in r.db.users && r.db.users[id] == s.db.users[id]
    decreases |ids|
  {
    if ids != [] {
      CleanSpares(s, ids[..|ids| - 1], groups, maxAge, now, id);
    }
  }

  // A Maintain that finds a user not expired leaves what their memberships grant.
  lemma MaintainSpares(cfg: Config, s: State, now: int, a: Answers, k: D.Member)
    requires Startable(s) && Answered(cfg, s, now, a) && D.Serves(s.db, k)
    requires Due(cfg, s, now) ==> !Expired(s.db.users[k.user], cfg.cleanupDays * 86_400, now / 1_000_000_000)
    ensures var s2 := SpecMaintain(cfg, s, now, a);
            D.Serves(s2.db, k) && s2.db.users[k.user] == s.db.users[k.user] &&
            D.GrantAt(s2.db, k) == D.GrantAt(s.db, k) && D.GrantAt(s.db, k) in Grants(s2.fw)
  {
    hide D.ValidTables, SyncedBy, ValidChain;
    var s2 := SpecMaintain(cfg, s, now, a);
    if Due(cfg, s, now) {
      CleanSpares(Cleaning(s.db, SpecEnsureBase(s.fw).0), a.ids, a.groups, cfg.cleanupDays * 86_400, now / 1_000_000_000, k.user);
    }
    MaintainExact(cfg, s, now, a);
    assert D.GrantAt(s2.db, k) in D.DesiredLocal(s2.db);
  }

  // A run that reaches the bound: the first cleanup falls late in the last second
  // at which the user may stay, and the next is not due for another 3600 of them.
  lemma TheBoundIsReached(cfg: Config, s: State, second: int, k: D.Member, first: int, a1: Answers, s1: State,
                          later: int, a2: Answers, s2: State)
    requires Startable(s) && s.lastCleanup == None && cfg.cleanupDays > 0
    requires D.Serves(s.db, k) && s.db.users[k.user].lastKnock == Some(second)
    requires first == (second + cfg.cleanupDays * 86_400) * 1_000_000_000 + 900_000_000
    requires later == (second + cfg.cleanupDays * 86_400 + 3600) * 1_000_000_000
    requires Answered(cfg, s, first, a1) && s1 == SpecMaintain(cfg, s, first, a1)
    requires Answered(cfg, s1, later, a2) && s2 == SpecMaintain(cfg, s1, later, a2)
    ensures D.GrantAt(s.db, k) in Grants(s2.fw)
    ensures k.user in s2.db.users && s2.db.users[k.user].lastKnock == Some(second)
    ensures later / 1_000_000_000 - second == cfg.cleanupDays * 86_400 + 3600
  {
    hide Startable, Answered, SpecMaintain, Grants;
    Seconds(second + cfg.cleanupDays * 86_400);
    FirstCleanupSpares(cfg, s, second, k, first, a1, s1);
    NotDueYet(cfg, s1, second + cfg.cleanupDays * 86_400, first, later);
    MaintainSpares(cfg, s1, later, a2, k);
  }

  lemma NotDueYet(cfg: Config, s: State, t: int, first: int, later: int)
    requires s.lastCleanup == Some(first) && first == t * 1_000_000_000 + 900_000_000 && later == (t + 3600) * 1_000_000_000
    ensures !Due(cfg, s, later)
  {
  }

  lemma Seconds(t: int)
    ensures (t * 1_000_000_000 + 900_000_000) / 1_000_000_000 == t && (t + 3600) * 1_000_000_000 / 1_000_000_000 == t + 3600
  {
  }

  lemma FirstCleanupSpares(cfg: Config, s: State, second: int, k: D.Member, first: int, a: Answers, s1: State)
    requires Startable(s) && s.lastCleanup == None && cfg.cleanupDays > 0
    requires D.Serves(s.db, k) && s.db.users[k.user].lastKnock == Some(second)
    requires first / 1_000_000_000 == second + cfg.cleanupDays * 86_400
    requires Answered(cfg, s, first, a) && s1 == SpecMaintain(cfg, s, first, a)
    ensures Startable(s1) && s1.lastCleanup == Some(first)
    ensures D.Serves(s1.db, k) && s1.db.users[k.user] == s.db.users[k.user] && D.GrantAt(s1.db, k) == D.GrantAt(s.db, k)
  {
    MaintainSpares(cfg, s, first, a, k);
    MaintainExact(cfg, s, first, a);
  }

  // Exactly when every owner knocked less than the age plus one hour ago: the last
  // cleanup is fewer than 3600 whole seconds back, or found nobody with a rule at
  // the age to the second.
  lemma StrictBoundExactly(cfg: Config, s: State, now: int)
    requires D.ValidTables(s.db) && SweptAt(cfg, s, now) && now - s.lastCleanup.value < CLEANUP_EVERY
    requires Grants(s.fw) == D.DesiredLocal(s.db)
    ensures (forall g :: g in Grants(s.fw) ==> KnockedWithin(s, g, now, cfg.cleanupDays * 86_400 + 3599))
            <==> now / 1_000_000_000 - s.lastCleanup.value / 1_000_000_000 < 3600 ||
                 forall k :: D.Serves(s.db, k) ==> AgeAtCleanup(s, k) != cfg.cleanupDays * 86_400
  {
    var late := now / 1_000_000_000 - s.lastCleanup.value / 1_000_000_000;
    assert late <= 3600;
    forall k | D.Serves(s.db, k)
      ensures KnockedWithin(s, D.GrantAt(s.db, k), now, cfg.cleanupDays * 86_400 + 3599)
              <==> AgeAtCleanup(s, k) + late < cfg.cleanupDays * 86_400 + 3600
      ensures AgeAtCleanup(s, k) <= cfg.cleanupDays * 86_400
      ensures D.GrantAt(s.db, k) in Grants(s.fw)
    {
      OwnAgeCounts(cfg, s, k, now);
    }
    if forall g :: g in Grants(s.fw) ==> KnockedWithin(s, g, now, cfg.cleanupDays * 86_400 + 3599) {
      assert forall k :: D.Serves(s.db, k) ==> AgeAtCleanup(s, k) + late < cfg.cleanupDays * 86_400 + 3600;
    } else {
      var g :| g in Grants(s.fw) && !KnockedWithin(s, g, now, cfg.cleanupDays * 86_400 + 3599);
      var k := D.DesiredComesFrom(s.db, g);
      assert AgeAtCleanup(s, k) + late >= cfg.cleanupDays * 86_400 + 3600;
    }
  }

  // How long before the last cleanup, in whole seconds, a served user had knocked.
  function AgeAtCleanup(s: State, k: D.Member): int
    requires k.user in s.db.users
  {
    var u := s.db.users[k.user];
    if s.lastCleanup.Some? && u.lastKnock.Some? then s.lastCleanup.value / 1_000_000_000 - u.lastKnock.value else 0
  }

  lemma OwnAgeCounts(cfg: Config, s: State, k: D.Member, now: int)
    requires D.ValidTables(s.db) && SweptAt(cfg, s, now) && D.Serves(s.db, k)
    ensures AgeAtCleanup(s, k) <= cfg.cleanupDays * 86_400
    ensures D.GrantAt(s.db, k) in D.DesiredLocal(s.db)
    ensures KnockedWithin(s, D.GrantAt(s.db, k), now, cfg.cleanupDays * 86_400 + 3599)
            <==> AgeAtCleanup(s, k) + (now / 1_000_000_000 - s.lastCleanup.value / 1_000_000_000) < cfg.cleanupDays * 86_400 + 3600
  {
    assert s.db.users[k.user].lastKnock.Some?;
  }

  // So it is after every Maintain of every run.
  lemma IdleUsersExpireStrictly(cfg: Config, s: State, now0: int, a0: Answers, first: State, steps: seq<Step>, here: State,
                                now: int, a: Answers, done: State)
    requires Startable(s) && s.lastCleanup == None && Answered(cfg, s, now0, a0) && cfg.cleanupDays > 0
    requires first == SpecMaintain(cfg, s, now0, a0)
    requires Run(cfg, first, steps) && Monotone(now0, steps) && here == After(cfg, first, steps)
    requires Answered(cfg, here, now, a) && ClockOf(now0, steps) <= now && done == SpecMaintain(cfg, here, now, a)
    ensures done.lastCleanup.Some?
    ensures (forall g :: g in Grants(done.fw) ==> KnockedWithin(done, g, now, cfg.cleanupDays * 86_400 + 3599))
            <==> now / 1_000_000_000 - done.lastCleanup.value / 1_000_000_000 < 3600 ||
                 forall k :: D.Serves(done.db, k) ==> AgeAtCleanup(done, k) != cfg.cleanupDays * 86_400
  {
    SweptInRuns(cfg, s, now0, a0, first, steps, here, now, a, done);
    StrictBoundExactly(cfg, done, now);
  }
}
