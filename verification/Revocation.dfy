// A revoked user stays out: no managed rule of theirs until a knock signed with
// a secret valid at that moment.
module Revocation {
  import opened Net
  import opened Comments
  import opened NftChain
  import opened NftReconcile
  import opened Manager
  import opened Effects
  import opened Server
  import opened ServerRuns
  import D = Database

  // No managed rule of the user, at any address, and no address recorded.
  ghost predicate Out(s: State, username: string) {
    (forall g :: g in Grants(s.fw) ==> g.user != username) &&
    forall i :: i in s.db.users && s.db.users[i].username == username ==> s.db.users[i].ip == None
  }

  // The step is a knock of the user that authenticates.
  ghost predicate Readmits(s: State, step: Step, username: string) {
    step.Knock? && step.username == username && Authenticates(s.db, username, step.secret)
  }

  // What another user's knock makes of the chain.
  lemma KnockByAnother(s: State, other: string, ip: Source, id: nat, groups: seq<D.Group>, order: seq<string>,
                       prior: seq<Grant>, username: string)
    requires D.ValidTables(s.db) && Healthy(s.fw) && AllProper(s.fw) && other != username && ValidName(other) && Canonical(ip)
    requires AllNames(groups, order) && D.Lists(groups, D.EnabledGroups(s.db, id))
    requires forall g :: g in prior ==> g.user == other
    requires forall g :: g in Grants(s.fw) ==> g.user != username
    ensures var c2 := SpecReconcile(s.fw, other, ip, D.PortMapOf(groups), order).chain;
            (forall g :: g in Grants(c2) ==> g.user != username) &&
            forall g :: g in Grants(RemoveEach(c2, prior)) ==> g.user != username
  {
    D.PortMapExact(s.db, id, groups);
    var r := SpecReconcile(s.fw, other, ip, D.PortMapOf(groups), order);
    ReconcileEffect(s.fw, other, ip, D.PortMapOf(groups), order, r);
    ValidNameHasNoColon(other);
    RemoveEachEffect(r.chain, prior);
  }

  lemma KnockKeepsOut(s: State, knock: Step, s2: State, username: string)
    requires D.ValidTables(s.db) && Healthy(s.fw) && AllProper(s.fw) && Out(s, username)
    requires knock.Knock? && !Readmits(s, knock, username) && AllNames(knock.groups, knock.order)
    requires var id := D.FindUser(s.db, knock.username);
             id.Some? ==> D.Lists(knock.groups, D.EnabledGroups(s.db, id.value))
    requires s2 == SpecKnock(s, knock.username, knock.secret, knock.origin, knock.now, knock.groups, knock.order)
    ensures Out(s2, username)
  {
    hide D.ValidTables, AllProper, Healthy, Grants, SpecReconcile, RemoveEach, D.EnabledGroups;
    var ip := ClientIP(knock.origin);
    KnockOutcome(s, knock.username, knock.secret, knock.origin, knock.now, knock.groups, knock.order);
    if Authenticates(s.db, knock.username, knock.secret) && Allowlistable(ip) {
      D.FindUserFinds(s.db, knock.username);
      ClientIPIsCanonical(knock.origin);
      var id := D.FindUser(s.db, knock.username).value;
      var prior := s.db.users[id].ip;
      var priors := if prior.Some? then GrantsAt(knock.username, prior.value, knock.groups) else [];
      KnockByAnother(s, knock.username, ip, id, knock.groups, knock.order, priors, username);
    }
  }

  lemma SetMembershipKeepsOut(cfg: Config, s: State, step: Step, username: string)
    requires Inv(cfg, s) && Possible(cfg, s, step) && Out(s, username) && step.SetMembership?
    ensures Out(Next(cfg, s, step), username)
  {
    var db := D.Enable(s.db, step.k, step.enabled);
    D.EnableKeepsValid(s.db, step.k, step.enabled);
    if Online(db, step.k) {
      var u := db.users[step.k.user];
      ValidNameHasNoColon(u.username);
      if step.enabled {
        D.PortMapExact(db, step.k.user, step.groups);
        ReconcileEffect(s.fw, u.username, u.ip.value, D.PortMapOf(step.groups), step.order,
                        SpecReconcile(s.fw, u.username, u.ip.value, D.PortMapOf(step.groups), step.order));
      } else {
        RemoveEffect(s.fw, MemberGrant(db, step.k));
      }
    }
  }

  lemma MemberStepKeepsOut(cfg: Config, s: State, step: Step, username: string)
    requires Inv(cfg, s) && Possible(cfg, s, step) && Out(s, username)
    requires step.AddMembership? || step.RemoveMembership?
    ensures Out(Next(cfg, s, step), username)
  {
    if Online(s.db, step.k) {
      ValidNameHasNoColon(s.db.users[step.k.user].username);
      AddEffect(s.fw, MemberGrant(s.db, step.k));
      RemoveEffect(s.fw, MemberGrant(s.db, step.k));
    }
  }

  lemma RevokeKeepsOut(s: State, id: nat, rotate: Option<string>, username: string)
    requires Healthy(s.fw) && Out(s, username)
    ensures Out(SpecRevoke(s, id, rotate), username)
  {
    if id in s.db.users {
      RemoveUserEffect(s.fw, s.db.users[id].username);
    }
  }

  lemma DeleteUserKeepsOut(s: State, id: nat, username: string)
    requires Healthy(s.fw) && Out(s, username)
    ensures Out(SpecDeleteUser(s, id), username)
  {
    if id in s.db.users {
      RemoveUserEffect(s.fw, s.db.users[id].username);
    }
  }

  lemma CreateUserKeepsOut(s: State, name: string, secret: string, isAdmin: bool, username: string)
    requires Out(s, username)
    ensures Out(SpecCreateUser(s, name, secret, isAdmin), username)
  {
  }

  lemma SetAdminKeepsOut(s: State, id: nat, isAdmin: bool, username: string)
    requires Out(s, username)
    ensures Out(s.(db := D.SetAdmin(s.db, id, isAdmin)), username)
  {
  }

  lemma SyncKeepsOut(s: State, db: D.Tables, c: Chain, ports: seq<PortProto>, username: string)
    requires Healthy(c) && Out(s, username) && Grants(c) <= Grants(s.fw) && db.users == s.db.users
    ensures Out(State(db, SpecSyncGuard(c, ports).0, s.lastCleanup), username)
  {
    SyncEffect(c, ports);
  }

  lemma DeleteGroupKeepsOut(cfg: Config, s: State, step: Step, username: string)
    requires Inv(cfg, s) && Possible(cfg, s, step) && Out(s, username) && step.DeleteGroup?
    ensures Out(Next(cfg, s, step), username)
  {
    if step.group in s.db.groups {
      var grants := OnlineGrants(s.db, step.members);
      OwnGrants(s.db, step.group, step.members);
      RemoveEachEffect(s.fw, grants);
      SyncKeepsOut(s, D.DropGroup(s.db, step.group), RemoveEach(s.fw, grants), step.ports, username);
    }
  }

  lemma InsertGroupKeepsOut(cfg: Config, s: State, g: D.Group, username: string)
    requires Out(s, username)
    ensures Out(SpecInsertGroup(cfg, s, g), username)
  {
  }

  lemma {:induction false} CleanRecordsNothing(s: Cleaning, ids: seq<nat>, groups: map<nat, seq<D.Group>>, maxAge: int, now: int)
    requires forall id :: id in ids ==> id in groups
    ensures var r := Clean(s, ids, groups, maxAge, now);
            r.db.users.Keys == s.db.users.Keys &&
            forall i :: i in r.db.users ==>
              r.db.users[i] == s.db.users[i] || r.db.users[i] == s.db.users[i].(ip := None, lastKnock := None)
    decreases |ids|
  {
    if ids != [] {
      CleanRecordsNothing(s, ids[..|ids| - 1], groups, maxAge, now);
    }
  }

  lemma MaintainKeepsOut(cfg: Config, s: State, step: Step, username: string)
    requires Inv(cfg, s) && Possible(cfg, s, step) && Out(s, username) && step.Maintain?
    ensures Out(Next(cfg, s, step), username)
  {
    hide Grants, D.DesiredLocal, D.ValidTables, GuardRight, StaysOurs, Clean, D.Lists, ManagedRules;
    var a := step.answers;
    MaintainExact(cfg, s, step.now, a);
    CleanRecordsNothing(Cleaning(s.db, SpecEnsureBase(s.fw).0), a.ids, a.groups, cfg.cleanupDays * DAY, step.now / SECOND);
    var s2 := Next(cfg, s, step);
    D.NothingDesiredWithoutIP(s2.db, username);
  }

  lemma StepKeepsOut(cfg: Config, s: State, step: Step, username: string)
    requires Inv(cfg, s) && Possible(cfg, s, step) && Out(s, username) && !Readmits(s, step, username)
    ensures Out(Next(cfg, s, step), username)
  {
    hide Out, D.ValidTables, SpecKnock, SpecMaintain, SpecDeleteGroup, Healthy, AllProper, Answered, AllNames;
    match step
    case Knock(_, _, _, _, _, _) => KnockKeepsOut(s, step, Next(cfg, s, step), username);
    case SetMembership(_, _, _, _) => SetMembershipKeepsOut(cfg, s, step, username);
    case AddMembership(_, _) => MemberStepKeepsOut(cfg, s, step, username);
    case RemoveMembership(_) => MemberStepKeepsOut(cfg, s, step, username);
    case InsertGroup(g) => InsertGroupKeepsOut(cfg, s, g, username);
    case SyncGuardNow(ports) => SyncKeepsOut(s, s.db, s.fw, ports, username);
    case DeleteGroup(_, _, _) => DeleteGroupKeepsOut(cfg, s, step, username);
    case Maintain(_, _) => MaintainKeepsOut(cfg, s, step, username);
    case Revoke(id, rotate) => RevokeKeepsOut(s, id, rotate, username);
    case DeleteUser(id) => DeleteUserKeepsOut(s, id, username);
    case CreateUser(name, secret, isAdmin) => CreateUserKeepsOut(s, name, secret, isAdmin, username);
    case SetAdmin(id, isAdmin) => SetAdminKeepsOut(s, id, isAdmin, username);
  }

  // None of the steps is an authenticated knock of the user.
  ghost predicate NeverReadmitted(cfg: Config, s: State, steps: seq<Step>, username: string)
    requires Run(cfg, s, steps)
    decreases |steps|
  {
    steps == [] || (!Readmits(s, steps[0], username) && NeverReadmitted(cfg, Next(cfg, s, steps[0]), steps[1..], username))
  }

  lemma {:induction false} StaysOut(cfg: Config, s: State, steps: seq<Step>, username: string)
    requires Inv(cfg, s) && Out(s, username) && Run(cfg, s, steps) && NeverReadmitted(cfg, s, steps, username)
    ensures Out(After(cfg, s, steps), username)
    decreases |steps|
  {
    if steps != [] {
      StepKeepsInv(cfg, s, steps[0]);
      StepKeepsOut(cfg, s, steps[0], username);
      StaysOut(cfg, Next(cfg, s, steps[0]), steps[1..], username);
    }
  }

  lemma RevokedIsOut(cfg: Config, s: State, id: nat, rotate: Option<string>)
    requires Inv(cfg, s) && id in s.db.users
    ensures Inv(cfg, SpecRevoke(s, id, rotate)) && Out(SpecRevoke(s, id, rotate), s.db.users[id].username)
  {
    RevokeKeeps(cfg, s, id, rotate);
    RemoveUserEffect(s.fw, s.db.users[id].username);
  }

  // ---- with rotation: only the new secret readmits ----

  // The account keeps the secret the revoke gave it: it is not rotated again and
  // not deleted.
  predicate LeavesAccount(step: Step, id: nat) {
    !(step.Revoke? && step.user == id && step.rotate.Some?) && !(step.DeleteUser? && step.user == id)
  }

  predicate SameAccount(s: State, s2: State, id: nat)
    requires id in s.db.users
  {
    id in s2.db.users && s2.db.users[id].username == s.db.users[id].username &&
    s2.db.users[id].secret == s.db.users[id].secret
  }

  lemma MaintainKeepsAccount(cfg: Config, s: State, now: int, a: Answers, id: nat)
    requires Covers(a) && id in s.db.users
    ensures SameAccount(s, SpecMaintain(cfg, s, now, a), id)
  {
    CleanRecordsNothing(Cleaning(s.db, SpecEnsureBase(s.fw).0), a.ids, a.groups, cfg.cleanupDays * DAY, now / SECOND);
  }

  lemma KnockKeepsAccount(s: State, knock: Step, s2: State, id: nat)
    requires D.ValidTables(s.db) && id in s.db.users && knock.Knock? && AllNames(knock.groups, knock.order)
    requires s2 == SpecKnock(s, knock.username, knock.secret, knock.origin, knock.now, knock.groups, knock.order)
    ensures SameAccount(s, s2, id)
  {
    hide D.ValidTables, SpecKnock;
    D.FindUserFinds(s.db, knock.username);
    KnockTables(s, knock.username, knock.secret, knock.origin, knock.now, knock.groups, knock.order);
  }

  lemma RevokeKeepsAccount(s: State, user: nat, rotate: Option<string>, id: nat)
    requires id in s.db.users && (user == id ==> rotate.None?)
    ensures SameAccount(s, SpecRevoke(s, user, rotate), id)
  {
    hide SpecRemoveUser;
  }

  lemma DeleteUserKeepsAccount(s: State, user: nat, id: nat)
    requires id in s.db.users && user != id
    ensures SameAccount(s, SpecDeleteUser(s, user), id)
  {
    hide SpecRemoveUser;
  }

  lemma CreateUserKeepsAccount(s: State, name: string, secret: string, isAdmin: bool, id: nat)
    requires D.ValidTables(s.db) && id in s.db.users
    ensures SameAccount(s, SpecCreateUser(s, name, secret, isAdmin), id)
  {
  }

  lemma SetAdminKeepsAccount(s: State, user: nat, isAdmin: bool, id: nat)
    requires id in s.db.users
    ensures SameAccount(s, s.(db := D.SetAdmin(s.db, user, isAdmin)), id)
  {
  }

  lemma AccountStays(cfg: Config, s: State, step: Step, id: nat)
    requires D.ValidTables(s.db) && Possible(cfg, s, step) && id in s.db.users && LeavesAccount(step, id)
    ensures SameAccount(s, Next(cfg, s, step), id)
  {
    hide D.ValidTables, SpecKnock, SpecMaintain, SpecRevoke, SpecDeleteUser, SpecCreateUser,
         SpecInsertGroup, SpecDeleteGroup, SpecSetMembership;
    match step
    case Maintain(now, a) => MaintainKeepsAccount(cfg, s, now, a, id);
    case Knock(_, _, _, _, _, _) => KnockKeepsAccount(s, step, Next(cfg, s, step), id);
    case SetMembership(_, _, _, _) => MemberStepKeepsUsers(cfg, s, step);
    case AddMembership(_, _) => MemberStepKeepsUsers(cfg, s, step);
    case RemoveMembership(_) => MemberStepKeepsUsers(cfg, s, step);
    case InsertGroup(_) => GroupStepKeepsUsers(cfg, s, step);
    case SyncGuardNow(_) => GroupStepKeepsUsers(cfg, s, step);
    case DeleteGroup(_, _, _) => GroupStepKeepsUsers(cfg, s, step);
    case Revoke(user, rotate) => RevokeKeepsAccount(s, user, rotate, id);
    case DeleteUser(user) => DeleteUserKeepsAccount(s, user, id);
    case CreateUser(name, secret, isAdmin) => CreateUserKeepsAccount(s, name, secret, isAdmin, id);
    case SetAdmin(user, isAdmin) => SetAdminKeepsAccount(s, user, isAdmin, id);
  }

  // No step knocks with the new secret as this user, or takes the account away.
  predicate NotWith(steps: seq<Step>, id: nat, username: string, secret: string) {
    forall i :: 0 <= i < |steps| ==>
      LeavesAccount(steps[i], id) && !(steps[i].Knock? && steps[i].username == username && steps[i].secret == secret)
  }

  lemma {:induction false} OnlyTheNewSecretReadmits(cfg: Config, s: State, steps: seq<Step>, id: nat, secret: string)
    requires Inv(cfg, s) && Run(cfg, s, steps) && id in s.db.users && s.db.users[id].secret == secret
    requires NotWith(steps, id, s.db.users[id].username, secret)
    ensures NeverReadmitted(cfg, s, steps, s.db.users[id].username)
    decreases |steps|
  {
    hide D.ValidTables, Next, Healthy, AllProper;
    if steps != [] {
      var username := s.db.users[id].username;
      D.FindUserFinds(s.db, username);
      StepKeepsInv(cfg, s, steps[0]);
      AccountStays(cfg, s, steps[0], id);
      var rest := steps[1..];
      assert forall i :: 0 <= i < |rest| ==> rest[i] == steps[i + 1];
      OnlyTheNewSecretReadmits(cfg, Next(cfg, s, steps[0]), rest, id, secret);
    }
  }

  // Once a revoke with rotation is done, no managed rule of the user exists at any
  // later state, until a knock signed with the new secret.
  lemma RevokedUntilTheNewSecret(cfg: Config, s: State, id: nat, secret: string, steps: seq<Step>)
    requires Inv(cfg, s) && id in s.db.users
    requires Run(cfg, SpecRevoke(s, id, Some(secret)), steps)
    requires NotWith(steps, id, s.db.users[id].username, secret)
    ensures Out(After(cfg, SpecRevoke(s, id, Some(secret)), steps), s.db.users[id].username)
  {
    var s1 := SpecRevoke(s, id, Some(secret));
    RevokedIsOut(cfg, s, id, Some(secret));
    OnlyTheNewSecretReadmits(cfg, s1, steps, id, secret);
    StaysOut(cfg, s1, steps, s.db.users[id].username);
  }
}
