// What each handler does to the tables' rows and to the firewall's rules, said of
// rows and copies of rules alone: no query and no write is named.
module Handlers {
  import opened Net
  import opened Seqs
  import opened Comments
  import opened NftChain
  import opened Reconcile
  import opened NftReconcile
  import opened Manager
  import opened Effects
  import opened Server
  import opened ServerRuns
  import opened MockBackend
  import opened Memberships
  import D = Database

  // How many managed rules the chain holds for each grant.
  function Rules(c: Chain): multiset<Grant> {
    ChainCopies(c.prefix, ManagedRules(c))
  }

  // ---- operations, in copies ----

  lemma {:induction false} CopiesKept(prefix: string, entries: seq<Entry>, p: Entry -> bool, g: Grant)
    requires forall e :: e in entries && GrantOf(prefix, e) == g ==> p(e)
    ensures ChainCopies(prefix, Keep(entries, p))[g] == ChainCopies(prefix, entries)[g]
  {
    hide GrantOf;
    if entries != [] {
      var kept := Keep(entries[1..], p);
      assert entries[0] in entries && ([entries[0]] + kept)[1..] == kept;
      CopiesKept(prefix, entries[1..], p, g);
    }
  }

  lemma {:induction false} CopiesDropped(prefix: string, entries: seq<Entry>, p: Entry -> bool, g: Grant)
    requires forall e :: e in entries && GrantOf(prefix, e) == g ==> !p(e)
    ensures ChainCopies(prefix, Keep(entries, p))[g] == 0
  {
    hide GrantOf;
    if entries != [] {
      var kept := Keep(entries[1..], p);
      assert entries[0] in entries && ([entries[0]] + kept)[1..] == kept;
      CopiesDropped(prefix, entries[1..], p, g);
    }
  }

  lemma RemoveCopies(c: Chain, g: Grant)
    requires Healthy(c) && AllProper(c) && ':' !in g.user && g.group != ""
    ensures Rules(SpecRemove(c, g).0) == Rules(c) - multiset{g}
    ensures Healthy(SpecRemove(c, g).0) && AllProper(SpecRemove(c, g).0)
  {
    hide ManagedRules, ChainCopies;
    ProperIsGrouped(c);
    SplitInvertsComment(c.prefix, g.user, g.group);
    ChainLosesOne(c, g);
    RemoveEffect(c, g);
  }

  lemma {:induction false} RemoveEachCopies(c: Chain, grants: seq<Grant>)
    requires Healthy(c) && AllProper(c) && forall g :: g in grants ==> ':' !in g.user && g.group != ""
    ensures Rules(RemoveEach(c, grants)) == Rules(c) - multiset(grants)
    ensures Healthy(RemoveEach(c, grants)) && AllProper(RemoveEach(c, grants))
    decreases |grants|
  {
    hide Rules, Healthy, AllProper, SpecRemove;
    if grants != [] {
      var front, last := grants[..|grants| - 1], grants[|grants| - 1];
      assert grants == front + [last];
      RemoveEachCopies(c, front);
      RemoveCopies(RemoveEach(c, front), last);
    }
  }

  lemma AddCopies(c: Chain, g: Grant)
    requires Healthy(c) && Proper(g) && ValidPort(g.port, g.proto)
    ensures Rules(SpecAdd(c, g).0) == Rules(c) + multiset{g}
  {
    AddKeepsValid(c, g);
    ValidNameHasNoColon(g.user);
    AddedGrant(Tick(c), g);
    var e := AllowEntry(Tick(c), g);
    hide GrantOf;
    assert ([e] + c.rules)[1..] == c.rules;
    CopiesMore(c.prefix, e, ManagedRules(c));
  }

  lemma SyncCopies(c: Chain, ports: seq<PortProto>)
    requires Healthy(c)
    ensures Rules(SpecSyncGuard(c, ports).0) == Rules(c)
  {
    SyncEffect(c, ports);
  }

  lemma RemoveUserCopies(c: Chain, user: string, g: Grant)
    requires Healthy(c)
    ensures Rules(SpecRemoveUser(c, user).0)[g] == if g.user == user then 0 else Rules(c)[g]
  {
    var failed := RemoveUserRulesExact(c, user);
    KeepCommutes(c.rules, NotOwned(c.prefix, user), IsManaged(c.prefix));
    if g.user == user {
      CopiesDropped(c.prefix, ManagedRules(c), NotOwned(c.prefix, user), g);
    } else {
      CopiesKept(c.prefix, ManagedRules(c), NotOwned(c.prefix, user), g);
    }
  }

  // A per-user reconcile is none of the other users' business.
  lemma ReconcileCopies(c: Chain, user: string, ip: Source, enabled: PortMap, order: seq<string>, g: Grant)
    requires ValidChain(c) && ':' !in user && ip == ListedForm(ip) && g.user != user
    requires forall n :: n in order ==> n in enabled && n != ""
    ensures var c2 := SpecReconcile(c, user, ip, enabled, order).chain;
            c2.prefix == c.prefix && Rules(c2)[g] == Rules(c)[g]
  {
    var c2 := SpecReconcile(c, user, ip, enabled, order).chain;
    OtherUsersUntouched(c, user, ip, enabled, order);
    ReconcileKeepsPrefix(c, user, ip, enabled, order);
    OthersCopies(c, user, g);
    OthersCopies(c2, user, g);
  }

  lemma ReconcileKeepsPrefix(c: Chain, user: string, ip: Source, enabled: PortMap, order: seq<string>)
    requires forall n :: n in order ==> n in enabled
    ensures SpecReconcile(c, user, ip, enabled, order).chain.prefix == c.prefix
  {
    if !NextFails(c.faults) {
      var rules := ListAll(c.prefix, Keep(c.rules, OfUser(c.prefix, user)));
      var missing := Missing(c.prefix, user, ip, enabled, order, rules);
      AddAllNft(Nothing(Tick(c)), missing);
      DeleteAllNft(Deleting(AddAll(Nothing(Tick(c)), missing).host, 0, {}), HandlesWhere(rules, StaleRule(c.prefix, user, ip, enabled)));
    }
  }

  // Another user's rules are all outside the user's filter.
  lemma OthersCopies(c: Chain, user: string, g: Grant)
    requires ':' !in user && g.user != user
    ensures Rules(c)[g] == ChainCopies(c.prefix, Keep(Keep(c.rules, NotOfUser(c.prefix, user)), IsManaged(c.prefix)))[g]
  {
    forall e | e in ManagedRules(c) && GrantOf(c.prefix, e) == g
      ensures NotOfUser(c.prefix, user)(e)
    {
      if HasPrefix(e.comment, UserPrefix(c.prefix, user)) {
        UserPrefixNamesOwner(c.prefix, user, e.comment);
      }
    }
    KeepCommutes(c.rules, NotOfUser(c.prefix, user), IsManaged(c.prefix));
    CopiesKept(c.prefix, ManagedRules(c), NotOfUser(c.prefix, user), g);
  }

  // ---- rows ----

  // An enabled membership of the user of this name.
  predicate Enabled(t: D.Tables, k: D.Member, username: string) {
    k in t.members && t.members[k] && k.user in t.users && k.group in t.groups && t.users[k.user].username == username
  }

  // The user is an enabled member of the group, by their names.
  ghost predicate EnabledIn(t: D.Tables, username: string, group: string) {
    exists k :: Enabled(t, k, username) && t.groups[k.group].name == group
  }

  // The rule of a membership at an address.
  function RuleOf(t: D.Tables, k: D.Member, ip: Source): Grant
    requires k.user in t.users && k.group in t.groups
  {
    Grant(ip, t.groups[k.group].port, t.groups[k.group].proto, t.users[k.user].username, t.groups[k.group].name)
  }

  // The user may be let in from the address, and from nowhere else: exactly for the
  // groups they are enabled in.
  ghost predicate LetIn(t: D.Tables, c: Chain, username: string, ip: Source) {
    (forall g :: g in Grants(c) && g.user == username ==> g.ip == ip && EnabledIn(t, username, g.group)) &&
    forall k :: Enabled(t, k, username) ==> RuleOf(t, k, ip) in Grants(c)
  }

  // The named map of the enabled groups, in rows.
  lemma MapIsRows(t: D.Tables, id: nat, groups: seq<D.Group>)
    requires D.ValidTables(t) && id in t.users && D.Lists(groups, D.EnabledGroups(t, id))
    ensures forall n :: n in D.PortMapOf(groups) ==> EnabledIn(t, t.users[id].username, n)
  {
    D.PortMapExact(t, id, groups);
    forall n | n in D.PortMapOf(groups)
      ensures EnabledIn(t, t.users[id].username, n)
    {
      var i :| 0 <= i < |groups| && groups[i].name == n;
      assert groups[i] in D.EnabledGroups(t, id);
      var k :| k in t.members && k.user == id && t.members[k] && k.group in t.groups && t.groups[k.group] == groups[i];
      assert Enabled(t, k, t.users[id].username);
    }
  }

  lemma LetInFromParts(t: D.Tables, c: Chain, id: nat, groups: seq<D.Group>, ip: Source)
    requires D.ValidTables(t) && id in t.users && t.users[id].ip == Some(ip) && ip != NotAnIP("")
    requires D.Lists(groups, D.EnabledGroups(t, id)) && D.DesiredLocal(t) <= Grants(c)
    requires forall g :: g in Grants(c) && g.user == t.users[id].username ==> g.ip == ip && g.group in D.PortMapOf(groups)
    ensures LetIn(t, c, t.users[id].username, ip)
  {
    MapIsRows(t, id, groups);
    forall k | Enabled(t, k, t.users[id].username)
      ensures RuleOf(t, k, ip) in Grants(c)
    {
      assert k.user == id;
      assert D.Serves(t, k) && D.GrantAt(t, k) == RuleOf(t, k, ip);
    }
  }

  // ---- a knock ----

  ghost predicate Knows(t: D.Tables, username: string, secret: string) {
    exists i :: i in t.users && t.users[i].username == username && t.users[i].secret == secret
  }

  lemma KnowsIsAuthenticates(t: D.Tables, username: string, secret: string)
    requires D.ValidTables(t)
    ensures Knows(t, username, secret) <==> Authenticates(t, username, secret)
  {
    D.FindUserFinds(t, username);
  }

  // A knock that nobody's secret signs, or from no address that may be allowed,
  // changes nothing.
  lemma KnockRefused(s: State, username: string, secret: string, origin: Origin, now: int, groups: seq<D.Group>, order: seq<string>)
    requires D.ValidTables(s.db) && AllNames(groups, order)
    requires !Knows(s.db, username, secret) || !Allowlistable(ClientIP(origin))
    ensures SpecKnock(s, username, secret, origin, now, groups, order) == s
  {
    KnowsIsAuthenticates(s.db, username, secret);
  }

  // An accepted one lets the user in from its address, exactly for the groups they
  // are enabled in; the other users' rules stay, copy for copy.
  lemma KnockLetsIn(cfg: Config, s: State, username: string, secret: string, origin: Origin, now: int,
                    groups: seq<D.Group>, order: seq<string>, s2: State)
    requires Inv(cfg, s) && Possible(cfg, s, Knock(username, secret, origin, now, groups, order))
    requires Knows(s.db, username, secret) && Allowlistable(ClientIP(origin))
    requires s2 == SpecKnock(s, username, secret, origin, now, groups, order)
    ensures LetIn(s2.db, s2.fw, username, ClientIP(origin)) && LetIn(s.db, s2.fw, username, ClientIP(origin))
  {
    KnowsIsAuthenticates(s.db, username, secret);
    D.FindUserFinds(s.db, username);
    KnockMovesTheUser(cfg, s, username, secret, origin, now, groups, order, s2);
    KnockIsRecorded(cfg, s, username, secret, origin, now, groups, order, s2);
    KnockKeeps(cfg, s, username, secret, origin, now, groups, order);
    ClientIPIsCanonical(origin);
    var id, ip := D.FindUser(s.db, username).value, ClientIP(origin);
    SameRows(s.db, s2.db, id, username);
    hide SpecKnock, ClientIP, Healthy, AllProper, Grants;
    LetInFromParts(s2.db, s2.fw, id, groups, ip);
    SameLetIn(s.db, s2.db, s2.fw, username, ip);
  }

  lemma SameRows(t: D.Tables, t2: D.Tables, id: nat, username: string)
    requires D.ValidTables(t) && id in t.users && t2 == t.(users := t2.users) && t2.users.Keys == t.users.Keys
    ensures D.EnabledGroups(t2, id) == D.EnabledGroups(t, id)
  {
  }

  lemma SameLetIn(t: D.Tables, t2: D.Tables, c: Chain, username: string, ip: Source)
    requires t2 == t.(users := t2.users) && t2.users.Keys == t.users.Keys
    requires forall i :: i in t.users ==> t2.users[i].username == t.users[i].username
    requires LetIn(t2, c, username, ip)
    ensures LetIn(t, c, username, ip)
  {
    forall g | g in Grants(c) && g.user == username
      ensures EnabledIn(t, username, g.group)
    {
      var k :| Enabled(t2, k, username) && t2.groups[k.group].name == g.group;
      assert Enabled(t, k, username);
    }
    forall k | Enabled(t, k, username)
      ensures RuleOf(t, k, ip) in Grants(c)
    {
      assert RuleOf(t2, k, ip) == RuleOf(t, k, ip);
    }
  }

  lemma KnockLeavesOthers(cfg: Config, s: State, username: string, secret: string, origin: Origin, now: int,
                          groups: seq<D.Group>, order: seq<string>, s2: State, g: Grant)
    requires Inv(cfg, s) && Possible(cfg, s, Knock(username, secret, origin, now, groups, order)) && g.user != username
    requires s2 == SpecKnock(s, username, secret, origin, now, groups, order)
    ensures Rules(s2.fw)[g] == Rules(s.fw)[g]
  {
    hide Rules, Healthy, AllProper, SpecReconcile, RemoveEach, D.PortMapOf, D.EnabledGroups,
         D.ValidTables, D.DesiredLocal, Grants;
    var ip := ClientIP(origin);
    if Authenticates(s.db, username, secret) && Allowlistable(ip) {
      D.FindUserFinds(s.db, username);
      ClientIPIsCanonical(origin);
      var id := D.FindUser(s.db, username).value;
      MoveLeavesOthers(s.fw, s.db, id, ip, groups, order, s.db.users[id].ip, g);
    }
  }

  // The reconcile of a knock, and the removals at the address before.
  lemma MoveLeavesOthers(c: Chain, t: D.Tables, id: nat, ip: Source, groups: seq<D.Group>, order: seq<string>, prior: Option<Source>, g: Grant)
    requires Healthy(c) && AllProper(c) && D.ValidTables(t) && id in t.users && Canonical(ip) && g.user != t.users[id].username
    requires AllNames(groups, order) && D.Lists(groups, D.EnabledGroups(t, id))
    ensures var c1 := SpecReconcile(c, t.users[id].username, ip, D.PortMapOf(groups), order).chain;
            Rules(c1)[g] == Rules(c)[g] &&
            (prior.Some? ==> Rules(RemoveEach(c1, GrantsAt(t.users[id].username, prior.value, groups)))[g] == Rules(c)[g])
  {
    hide Rules, SpecReconcile, RemoveEach, D.EnabledGroups, Grants, D.PortMapOf, D.UniqueUsers,
         D.UniqueGroups;
    var u := t.users[id].username;
    assert ValidName(u);
    D.PortMapExact(t, id, groups);
    NamesAreProper(t, id, groups, order);
    GroupsAreNamed(t, id, groups);
    ReconcileCopies(c, u, ip, D.PortMapOf(groups), order, g);
    var r := SpecReconcile(c, u, ip, D.PortMapOf(groups), order);
    ReconcileEffect(c, u, ip, D.PortMapOf(groups), order, r);
    if prior.Some? {
      RemoveEachCopies(r.chain, GrantsAt(u, prior.value, groups));
    }
  }

  lemma NamesAreProper(t: D.Tables, id: nat, groups: seq<D.Group>, order: seq<string>)
    requires D.ValidTables(t) && id in t.users && AllNames(groups, order) && D.Lists(groups, D.EnabledGroups(t, id))
    ensures forall n :: n in order ==> n in D.PortMapOf(groups) && n != ""
  {
    D.PortMapExact(t, id, groups);
  }

  lemma GroupsAreNamed(t: D.Tables, id: nat, groups: seq<D.Group>)
    requires D.ValidTables(t) && id in t.users && D.Lists(groups, D.EnabledGroups(t, id))
    ensures ':' !in t.users[id].username
    ensures forall i :: 0 <= i < |groups| ==> D.ValidGroup(groups[i]) && groups[i].name != ""
  {
    ValidNameHasNoColon(t.users[id].username);
    forall i | 0 <= i < |groups|
      ensures D.ValidGroup(groups[i]) && groups[i].name != ""
    {
      assert groups[i] in D.EnabledGroups(t, id);
    }
  }

  // ---- memberships ----

  // Nothing but the one membership's flag.
  predicate OnlyMember(t: D.Tables, t2: D.Tables, k: D.Member) {
    t2 == t.(members := t2.members) &&
    (forall l :: l in t.members && l != k ==> l in t2.members && t2.members[l] == t.members[l]) &&
    forall l :: l in t2.members && l != k ==> l in t.members
  }

  // The user's address, if it is recorded.
  predicate IsAt(t: D.Tables, id: nat, ip: Source) {
    id in t.users && t.users[id].ip == Some(ip) && ip != NotAnIP("")
  }

  lemma SetMembershipRows(s: State, k: D.Member, enabled: bool, groups: seq<D.Group>, order: seq<string>, s2: State)
    requires AllNames(groups, order) && s2 == SpecSetMembership(s, k, enabled, groups, order)
    ensures OnlyMember(s.db, s2.db, k) && s2.lastCleanup == s.lastCleanup
    ensures k in s.db.members <==> k in s2.db.members
    ensures k in s2.db.members ==> s2.db.members[k] == enabled
  {
    hide SpecReconcile, SpecRemove;
  }

  // Enabling lets the user in, from the recorded address, exactly for the groups
  // they are enabled in then.
  lemma EnableLetsIn(cfg: Config, s: State, k: D.Member, groups: seq<D.Group>, order: seq<string>, ip: Source, s2: State)
    requires Inv(cfg, s) && Possible(cfg, s, SetMembership(k, true, groups, order))
    requires IsAt(s.db, k.user, ip) && k.group in s.db.groups
    requires s2 == SpecSetMembership(s, k, true, groups, order)
    ensures LetIn(s2.db, s2.fw, s.db.users[k.user].username, ip)
  {
    hide Healthy, AllProper, Grants, SpecReconcile, D.EnabledGroups, D.DesiredLocal, LetIn;
    SetMembershipKeeps(cfg, s, k, true, groups, order);
    D.EnableKeepsValid(s.db, k, true);
    assert D.ValidUser(s.db.users[k.user]);
    ReappliedIsAt(s.fw, D.Enable(s.db, k, true), k.user, ip, groups, order);
    LetInFromParts(s2.db, s2.fw, k.user, groups, ip);
  }

  lemma ReappliedIsAt(c: Chain, t: D.Tables, id: nat, ip: Source, groups: seq<D.Group>, order: seq<string>)
    requires Healthy(c) && AllProper(c) && D.ValidTables(t) && id in t.users && Canonical(ip)
    requires AllNames(groups, order) && D.Lists(groups, D.EnabledGroups(t, id))
    ensures var c2 := SpecReconcile(c, t.users[id].username, ip, D.PortMapOf(groups), order).chain;
            forall g :: g in Grants(c2) && g.user == t.users[id].username ==> g.ip == ip && g.group in D.PortMapOf(groups)
  {
    hide SpecReconcile, D.EnabledGroups, Grants, Healthy, AllProper;
    D.PortMapExact(t, id, groups);
    assert ValidName(t.users[id].username);
    ReconcileMovesUser(c, t.users[id].username, ip, D.PortMapOf(groups), order,
                       SpecReconcile(c, t.users[id].username, ip, D.PortMapOf(groups), order));
  }

  // Disabling takes out one copy of the membership's rule, and nothing else.
  lemma DisableTakesOne(cfg: Config, s: State, k: D.Member, groups: seq<D.Group>, order: seq<string>, ip: Source, s2: State)
    requires Inv(cfg, s) && Possible(cfg, s, SetMembership(k, false, groups, order))
    requires IsAt(s.db, k.user, ip) && k.group in s.db.groups
    requires s2 == SpecSetMembership(s, k, false, groups, order)
    ensures Rules(s2.fw) == Rules(s.fw) - multiset{RuleOf(s.db, k, ip)}
  {
    hide Rules, Healthy, AllProper, SpecRemove, D.ValidTables, D.DesiredLocal, Grants, D.EnabledGroups;
    ProperMember(s.db, k);
    RemoveCopies(s.fw, RuleOf(s.db, k, ip));
  }

  lemma ProperMember(t: D.Tables, k: D.Member)
    requires D.ValidTables(t) && k.user in t.users && k.group in t.groups
    ensures ':' !in t.users[k.user].username && ValidName(t.users[k.user].username)
    ensures t.groups[k.group].name != "" && D.ValidGroup(t.groups[k.group])
    ensures t.users[k.user].ip.Some? ==> Canonical(t.users[k.user].ip.value)
  {
    ValidNameHasNoColon(t.users[k.user].username);
    assert D.ValidUser(t.users[k.user]);
  }

  // Without an address there is no rule to see to.
  lemma OfflineMembership(s: State, k: D.Member, enabled: bool, groups: seq<D.Group>, order: seq<string>)
    requires AllNames(groups, order) && forall ip :: !IsAt(s.db, k.user, ip)
    ensures SpecSetMembership(s, k, enabled, groups, order).fw == s.fw
    ensures SpecAddMembership(s, k, enabled).fw == s.fw && SpecRemoveMembership(s, k).fw == s.fw
  {
    if k.user in s.db.users && s.db.users[k.user].ip.Some? {
      assert !IsAt(s.db, k.user, s.db.users[k.user].ip.value);
    }
  }

  // Joining makes the row, and one more copy of the rule of an enabled one.
  lemma JoinAddsOne(cfg: Config, s: State, k: D.Member, enabled: bool, ip: Source, s2: State)
    requires Inv(cfg, s) && IsAt(s.db, k.user, ip) && k.group in s.db.groups && s2 == SpecAddMembership(s, k, enabled)
    ensures OnlyMember(s.db, s2.db, k) && k in s2.db.members && s2.db.members[k] == enabled && s2.lastCleanup == s.lastCleanup
    ensures Rules(s2.fw) == if enabled then Rules(s.fw) + multiset{RuleOf(s.db, k, ip)} else Rules(s.fw)
  {
    hide Rules, Healthy, AllProper, SpecAdd, D.ValidTables, D.DesiredLocal, Grants;
    ProperMember(s.db, k);
    AddCopies(s.fw, RuleOf(s.db, k, ip));
  }

  // Leaving deletes the row, and one copy of the rule.
  lemma LeaveTakesOne(cfg: Config, s: State, k: D.Member, ip: Source, s2: State)
    requires Inv(cfg, s) && IsAt(s.db, k.user, ip) && k.group in s.db.groups && s2 == SpecRemoveMembership(s, k)
    ensures OnlyMember(s.db, s2.db, k) && k !in s2.db.members && s2.lastCleanup == s.lastCleanup
    ensures Rules(s2.fw) == Rules(s.fw) - multiset{RuleOf(s.db, k, ip)}
  {
    hide Rules, Healthy, AllProper, SpecRemove, D.ValidTables, D.DesiredLocal, Grants;
    ProperMember(s.db, k);
    RemoveCopies(s.fw, RuleOf(s.db, k, ip));
  }

  // ---- users ----

  // Nothing but the one user's row.
  predicate OnlyUser(t: D.Tables, t2: D.Tables, id: nat) {
    t2 == t.(users := t2.users) &&
    (forall i :: i in t.users && i != id ==> i in t2.users && t2.users[i] == t.users[i]) &&
    forall i :: i in t2.users && i != id ==> i in t.users
  }

  // Every rule of the user is gone, every other one as it was.
  ghost predicate Gone(c: Chain, c2: Chain, username: string) {
    (forall g :: g in Grants(c2) <==> g in Grants(c) && g.user != username) &&
    forall g: Grant :: Rules(c2)[g] == if g.user == username then 0 else Rules(c)[g]
  }

  lemma RemovedUserIsGone(c: Chain, username: string)
    requires Healthy(c)
    ensures Gone(c, SpecRemoveUser(c, username).0, username)
  {
    RemoveUserEffect(c, username);
    forall g: Grant
      ensures Rules(SpecRemoveUser(c, username).0)[g] == if g.user == username then 0 else Rules(c)[g]
    {
      RemoveUserCopies(c, username, g);
    }
  }

  // A revoke takes away every rule of the user, the address and the time of the last
  // knock, and sets the new secret if one is given.
  lemma RevokeTakesAll(s: State, id: nat, rotate: Option<string>, s2: State)
    requires Healthy(s.fw) && id in s.db.users && s2 == SpecRevoke(s, id, rotate)
    ensures Gone(s.fw, s2.fw, s.db.users[id].username)
    ensures OnlyUser(s.db, s2.db, id) && s2.lastCleanup == s.lastCleanup
    ensures id in s2.db.users &&
            s2.db.users[id] == D.User(s.db.users[id].username, if rotate.Some? then rotate.value else s.db.users[id].secret,
                                      s.db.users[id].isAdmin, None, None)
  {
    hide Gone, SpecRemoveUser, Healthy;
    RemovedUserIsGone(s.fw, s.db.users[id].username);
  }

  // Deleting a user takes away every rule of theirs, the row and its memberships;
  // every other row stays.
  lemma DeleteUserTakesAll(s: State, id: nat, s2: State)
    requires Healthy(s.fw) && id in s.db.users && s2 == SpecDeleteUser(s, id)
    ensures Gone(s.fw, s2.fw, s.db.users[id].username)
    ensures id !in s2.db.users && forall k :: k in s2.db.members ==> k.user != id
    ensures forall i :: i in s.db.users && i != id ==> i in s2.db.users && s2.db.users[i] == s.db.users[i]
    ensures forall i :: i in s2.db.users ==> i in s.db.users
    ensures forall k :: k in s.db.members && k.user != id ==> k in s2.db.members && s2.db.members[k] == s.db.members[k]
    ensures forall k :: k in s2.db.members ==> k in s.db.members
    ensures s2.db == s.db.(users := s2.db.users, members := s2.db.members) && s2.lastCleanup == s.lastCleanup
  {
    hide Gone, SpecRemoveUser, Healthy;
    RemovedUserIsGone(s.fw, s.db.users[id].username);
  }

  // Creating a user stores what was asked, with no address, under an id that was
  // not in use; a name that is taken or not a name changes nothing.
  lemma CreateUserStores(s: State, name: string, secret: string, isAdmin: bool, s2: State)
    requires D.ValidTables(s.db) && s2 == SpecCreateUser(s, name, secret, isAdmin)
    ensures s2.fw == s.fw && s2.lastCleanup == s.lastCleanup
    ensures !ValidName(name) || (exists i :: i in s.db.users && s.db.users[i].username == name) ==> s2 == s
    ensures ValidName(name) && (forall i :: i in s.db.users ==> s.db.users[i].username != name) ==>
              exists id: nat :: id !in s.db.users && id in s2.db.users && s2.db.users[id] == D.User(name, secret, isAdmin, None, None) &&
                           OnlyUser(s.db, s2.db.(nextUser := s.db.nextUser), id)
  {
    var id := s.db.nextUser;
    if ValidName(name) && forall i :: i in s.db.users ==> s.db.users[i].username != name {
      assert id !in s.db.users && s2.db.users[id] == D.User(name, secret, isAdmin, None, None);
      assert OnlyUser(s.db, s2.db.(nextUser := s.db.nextUser), id);
    }
  }

  lemma SetAdminStores(s: State, id: nat, isAdmin: bool, db: D.Tables)
    requires id in s.db.users && db == D.SetAdmin(s.db, id, isAdmin)
    ensures OnlyUser(s.db, db, id) && id in db.users && db.users[id] == s.db.users[id].(isAdmin := isAdmin)
  {
  }

  // ---- groups ----

  // What adminCreateGroup asks of a group: a name, a port of a protocol that the
  // configuration allows, and that neither is taken.
  predicate Creatable(cfg: Config, t: D.Tables, g: D.Group) {
    ValidName(g.name) && 1 <= g.port <= 65535 && (g.proto == Tcp || g.proto == Udp) &&
    (|cfg.allowedPorts| > 0 ==> g.port in cfg.allowedPorts) &&
    forall i :: i in t.groups ==> t.groups[i].name != g.name && !(t.groups[i].port == g.port && t.groups[i].proto == g.proto)
  }

  lemma InsertGroupStores(cfg: Config, s: State, g: D.Group, s2: State)
    requires D.ValidTables(s.db) && s2 == SpecInsertGroup(cfg, s, g)
    ensures s2.fw == s.fw && s2.lastCleanup == s.lastCleanup
    ensures !Creatable(cfg, s.db, g) ==> s2 == s
    ensures Creatable(cfg, s.db, g) ==>
              exists id: nat :: id !in s.db.groups && s2.db.groups == s.db.groups[id := g] &&
                           s2.db == s.db.(groups := s2.db.groups, nextGroup := s2.db.nextGroup)
  {
    if Creatable(cfg, s.db, g) {
      assert s.db.nextGroup !in s.db.groups;
      assert s2.db.groups == s.db.groups[s.db.nextGroup := g];
    }
  }

  // Deleting a group takes out one copy of each present member's rule; the row, its
  // memberships and its targets go, every other row stays.
  lemma DeleteGroupTakes(cfg: Config, s: State, id: nat, members: seq<D.Member>, ports: seq<PortProto>, s2: State)
    requires Inv(cfg, s) && Possible(cfg, s, DeleteGroup(id, members, ports)) && id in s.db.groups
    requires s2 == SpecDeleteGroup(s, id, members, ports)
    ensures forall g: Grant ::
              Rules(s2.fw)[g] == if RuleOfGroup(s.db, id, g) && Rules(s.fw)[g] > 0 then Rules(s.fw)[g] - 1 else Rules(s.fw)[g]
  {
    hide Rules, Healthy, AllProper, SpecSyncGuard, RemoveEach, Grants, D.DesiredLocal, MembersOf,
         OnlineGrants;
    var grants := OnlineGrants(s.db, members);
    OwnGrants(s.db, id, members);
    assert D.ValidGroup(s.db.groups[id]);
    RemoveEachCopies(s.fw, grants);
    SyncCopies(RemoveEach(s.fw, grants), ports);
    forall g: Grant
      ensures multiset(grants)[g] == if RuleOfGroup(s.db, id, g) then 1 else 0
    {
      OnlineOnce(s.db, id, members, g);
    }
  }

  lemma DeleteGroupRows(s: State, id: nat, members: seq<D.Member>, ports: seq<PortProto>, s2: State)
    requires id in s.db.groups && s2 == SpecDeleteGroup(s, id, members, ports)
    ensures s2.lastCleanup == s.lastCleanup
    ensures s2.db == s.db.(groups := s2.db.groups, members := s2.db.members, targets := s2.db.targets)
    ensures s2.db.groups == s.db.groups - {id}
    ensures forall k :: k in s2.db.members <==> k in s.db.members && k.group != id
    ensures forall k :: k in s2.db.members ==> s2.db.members[k] == s.db.members[k]
    ensures forall k :: k in s2.db.targets <==> k in s.db.targets && k.group != id
    ensures forall k :: k in s2.db.targets ==> s2.db.targets[k] == s.db.targets[k]
  {
    hide SpecSyncGuard, RemoveEach;
  }

  // The rule of a present member of the group.
  ghost predicate RuleOfGroup(t: D.Tables, id: nat, g: Grant) {
    exists k :: k in t.members && k.group == id && id in t.groups && IsAt(t, k.user, g.ip) && g == RuleOf(t, k, g.ip)
  }

  lemma OnlineOnce(t: D.Tables, id: nat, members: seq<D.Member>, g: Grant)
    requires D.ValidTables(t) && id in t.groups && D.ListsOnce(members, MembersOf(t, id))
    ensures multiset(OnlineGrants(t, members))[g] == if RuleOfGroup(t, id, g) then 1 else 0
  {
    OnlineCopies(t, id, members, g);
    if RuleOfGroup(t, id, g) {
      var k :| k in t.members && k.group == id && id in t.groups && IsAt(t, k.user, g.ip) && g == RuleOf(t, k, g.ip);
      assert k in MembersOf(t, id) && Online(t, k) && MemberGrant(t, k) == g;
    }
  }

  lemma {:induction false} OnlineCopies(t: D.Tables, id: nat, members: seq<D.Member>, g: Grant)
    requires D.ValidTables(t) && D.Once(members) && forall k :: k in members ==> k in t.members && k.group == id
    ensures multiset(OnlineGrants(t, members))[g]
            == if exists k :: k in members && Online(t, k) && MemberGrant(t, k) == g then 1 else 0
    decreases |members|
  {
    if members != [] {
      var front, last := members[..|members| - 1], members[|members| - 1];
      assert members == front + [last];
      OnlineCopies(t, id, front, g);
      assert last !in front;
      if Online(t, last) && MemberGrant(t, last) == g {
        forall k | k in front && Online(t, k)
          ensures MemberGrant(t, k) != g
        {
          assert k.user != last.user;
        }
      }
    }
  }

  // ---- a knock when commands fail ----

  lemma {:induction false} NamedOnce(user: string, ip: Source, groups: seq<D.Group>, g: Grant)
    requires D.Once(groups) && forall i, j :: 0 <= i < j < |groups| ==> groups[i].name != groups[j].name
    ensures multiset(GrantsAt(user, ip, groups))[g]
            == if exists x :: x in groups && g == Grant(ip, x.port, x.proto, user, x.name) then 1 else 0
  {
    if groups != [] {
      var front, last := groups[..|groups| - 1], groups[|groups| - 1];
      assert groups == front + [last];
      NamedOnce(user, ip, front, g);
      assert GrantsAt(user, ip, groups) == GrantsAt(user, ip, front) + [Grant(ip, last.port, last.proto, user, last.name)];
      assert forall x :: x in front ==> x.name != last.name;
    }
  }

  // The rule of an enabled membership of the user at the address.
  ghost predicate EnabledRule(t: D.Tables, id: nat, ip: Source, g: Grant) {
    exists k :: k in t.members && t.members[k] && k.user == id && id in t.users && k.group in t.groups && g == RuleOf(t, k, ip)
  }

  // The removals at an address ask once for each of them.
  lemma EachOnce(t: D.Tables, id: nat, ip: Source, groups: seq<D.Group>, g: Grant)
    requires D.ValidTables(t) && id in t.users && D.ListsOnce(groups, D.EnabledGroups(t, id))
    ensures multiset(GrantsAt(t.users[id].username, ip, groups))[g] == if EnabledRule(t, id, ip, g) then 1 else 0
  {
    hide D.UniqueGroups, D.ValidUser, D.ValidGroup, GrantsAt, D.Once;
    var u := t.users[id];
    DistinctNames(t, id, groups);
    NamedOnce(u.username, ip, groups, g);
    if x :| x in groups && g == Grant(ip, x.port, x.proto, u.username, x.name) {
      assert x in D.EnabledGroups(t, id);
      var k :| k in t.members && k.user == id && t.members[k] && k.group in t.groups && t.groups[k.group] == x;
      assert g == RuleOf(t, k, ip);
    }
    if k :| k in t.members && t.members[k] && k.user == id && id in t.users && k.group in t.groups && g == RuleOf(t, k, ip) {
      assert t.groups[k.group] in D.EnabledGroups(t, id);
    }
  }

  lemma DistinctNames(t: D.Tables, id: nat, groups: seq<D.Group>)
    requires D.ValidTables(t) && D.ListsOnce(groups, D.EnabledGroups(t, id))
    ensures forall i, j :: 0 <= i < j < |groups| ==> groups[i].name != groups[j].name
  {
    forall i, j | 0 <= i < j < |groups|
      ensures groups[i].name != groups[j].name
    {
      assert groups[i] in D.EnabledGroups(t, id) && groups[j] in D.EnabledGroups(t, id);
    }
  }

  lemma {:induction false} RemoveEachSpares(c: Chain, grants: seq<Grant>, g: Grant)
    requires ValidChain(c) && g in Grants(c) && g !in grants && forall x :: x in grants ==> ':' !in x.user
    ensures ValidChain(RemoveEach(c, grants)) && g in Grants(RemoveEach(c, grants))
    decreases |grants|
  {
    hide ValidChain, Grants, SpecRemove;
    if grants != [] {
      var front, last := grants[..|grants| - 1], grants[|grants| - 1];
      assert grants == front + [last];
      RemoveEachSpares(c, front, g);
      RemoveSpares(RemoveEach(c, front), last);
    }
  }

  // Whatever fails: once a knock is recorded, the user's rule for every group they
  // are enabled in is there, at the address recorded.
  lemma KnockRecordsTheAdmitted(s: State, username: string, secret: string, origin: Origin, now: int,
                                groups: seq<D.Group>, order: seq<string>, s2: State)
    requires D.ValidTables(s.db) && ValidChain(s.fw) && AllProper(s.fw) && AllNames(groups, order)
    requires var id := D.FindUser(s.db, username); id.Some? ==> D.Lists(groups, D.EnabledGroups(s.db, id.value))
    requires s2 == SpecKnock(s, username, secret, origin, now, groups, order) && s2.db != s.db
    ensures forall k :: Enabled(s.db, k, username) ==> RuleOf(s.db, k, ClientIP(origin)) in Grants(s2.fw)
  {
    hide D.ValidTables, ValidChain, AllProper, SpecReconcile, RemoveEach, D.EnabledGroups, D.PortMapOf,
         Grants, ClientIP, RuleOf;
    var ip := ClientIP(origin);
    D.FindUserFinds(s.db, username);
    ClientIPIsCanonical(origin);
    var id := D.FindUser(s.db, username).value;
    var r := SpecReconcile(s.fw, username, ip, D.PortMapOf(groups), order);
    forall k | Enabled(s.db, k, username)
      ensures RuleOf(s.db, k, ip) in Grants(s2.fw)
    {
      AdmittedAtOnce(s.fw, s.db, id, ip, groups, order, r, k, s.db.users[id].ip);
    }
  }

  lemma AdmittedAtOnce(c: Chain, t: D.Tables, id: nat, ip: Source, groups: seq<D.Group>, order: seq<string>, r: UserReport,
                       k: D.Member, prior: Option<Source>)
    requires ValidChain(c) && AllProper(c) && D.ValidTables(t) && id in t.users && Canonical(ip)
    requires AllNames(groups, order) && D.Lists(groups, D.EnabledGroups(t, id))
    requires r == SpecReconcile(c, t.users[id].username, ip, D.PortMapOf(groups), order) && !r.failed
    requires Enabled(t, k, t.users[id].username)
    ensures k.user == id && RuleOf(t, k, ip) in Grants(r.chain)
    ensures prior.Some? && prior != Some(ip) ==> RuleOf(t, k, ip) in Grants(RemoveEach(r.chain, GrantsAt(t.users[id].username, prior.value, groups)))
  {
    hide AllProper, SpecReconcile, RemoveEach, Grants, ValidChain, D.UniqueGroups, D.ValidGroup;
    var u := t.users[id].username;
    assert D.ValidUser(t.users[id]) && k.user == id;
    D.PortMapExact(t, id, groups);
    GroupsAreNamed(t, id, groups);
    assert t.groups[k.group] in D.EnabledGroups(t, id);
    ReconcileUnfailed(c, u, ip, D.PortMapOf(groups), order, r);
    assert RuleOf(t, k, ip) == WantedFor(u, ip, t.groups[k.group].name, D.PortMapOf(groups)[t.groups[k.group].name]);
    if prior.Some? && prior != Some(ip) {
      RemoveEachSpares(r.chain, GrantsAt(u, prior.value, groups), RuleOf(t, k, ip));
    }
  }

  // A rule at the address before that outlived the reconcile, its delete having
  // failed, is asked for again: one copy goes, if nothing fails any more.
  lemma KnockRetries(s: State, username: string, secret: string, origin: Origin, now: int, groups: seq<D.Group>, order: seq<string>,
                     id: nat, prior: Source, r: UserReport, g: Grant, s2: State)
    requires D.ValidTables(s.db) && ValidChain(s.fw) && AllProper(s.fw) && AllNames(groups, order)
    requires id in s.db.users && s.db.users[id].username == username && s.db.users[id].secret == secret
    requires D.ListsOnce(groups, D.EnabledGroups(s.db, id)) && Allowlistable(ClientIP(origin))
    requires s.db.users[id].ip == Some(prior) && prior != ClientIP(origin)
    requires r == SpecReconcile(s.fw, username, ClientIP(origin), D.PortMapOf(groups), order) && !r.failed && Healthy(r.chain)
    requires s2 == SpecKnock(s, username, secret, origin, now, groups, order)
    ensures Rules(s2.fw)[g]
            == if EnabledRule(s.db, id, prior, g) && Rules(r.chain)[g] > 0 then Rules(r.chain)[g] - 1 else Rules(r.chain)[g]
  {
    hide D.ValidTables, Rules, RemoveEach, D.EnabledGroups, GrantsAt, EnabledRule, SpecReconcile,
         Healthy, ValidChain, AllProper, D.PortMapOf;
    D.FindUserFinds(s.db, username);
    ClientIPIsCanonical(origin);
    OldAddressTakes(s.fw, s.db, id, ClientIP(origin), groups, order, r, prior, g);
  }

  lemma OldAddressTakes(c: Chain, t: D.Tables, id: nat, ip: Source, groups: seq<D.Group>, order: seq<string>, r: UserReport, prior: Source, g: Grant)
    requires ValidChain(c) && AllProper(c) && D.ValidTables(t) && id in t.users && Canonical(ip)
    requires AllNames(groups, order) && D.ListsOnce(groups, D.EnabledGroups(t, id))
    requires r == SpecReconcile(c, t.users[id].username, ip, D.PortMapOf(groups), order) && !r.failed && Healthy(r.chain)
    ensures Rules(RemoveEach(r.chain, GrantsAt(t.users[id].username, prior, groups)))[g]
            == if EnabledRule(t, id, prior, g) && Rules(r.chain)[g] > 0 then Rules(r.chain)[g] - 1 else Rules(r.chain)[g]
  {
    hide Rules, RemoveEach, D.EnabledGroups, GrantsAt, EnabledRule, SpecReconcile, Healthy, ValidChain,
         AllProper;
    var u := t.users[id].username;
    assert D.ValidUser(t.users[id]);
    D.PortMapExact(t, id, groups);
    GroupsAreNamed(t, id, groups);
    EachOnce(t, id, prior, groups, g);
    ReconcileUnfailed(c, u, ip, D.PortMapOf(groups), order, r);
    GrantsAtNamed(u, prior, groups);
    RemoveEachCopies(r.chain, GrantsAt(u, prior, groups));
  }

  lemma GrantsAtNamed(user: string, ip: Source, groups: seq<D.Group>)
    requires ':' !in user && forall i :: 0 <= i < |groups| ==> groups[i].name != ""
    ensures forall g :: g in GrantsAt(user, ip, groups) ==> ':' !in g.user && g.group != ""
  {
  }
}
