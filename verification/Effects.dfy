// What each firewall operation of the server makes of the set of grants when
// nothing fails, and that none of them disturbs what it is not about.
module Effects {
  import opened Net
  import opened Seqs
  import opened Comments
  import opened NftChain
  import opened Reconcile
  import opened NftReconcile
  import opened Manager
  import P = Packets

  // Nothing but managed rules and guard rules ever comes or goes, the guard stays
  // what it is, and the chain stays sound.
  ghost predicate Undisturbed(c: Chain, c2: Chain) {
    c2.prefix == c.prefix && Healthy(c2) &&
    (forall e :: e in c2.rules && !IsManaged(c.prefix)(e) ==> e in c.rules) &&
    forall ports :: GuardIs(c, ports) ==> GuardIs(c2, ports)
  }

  // A grant as the server writes it.
  predicate Proper(g: Grant) {
    ValidName(g.user) && ValidName(g.group) && Canonical(g.ip)
  }

  ghost predicate AllProper(c: Chain) {
    forall g :: g in Grants(c) ==> Proper(g)
  }

  // Putting managed rules in front and taking managed rules out leaves the guard.
  lemma EditKeepsGuard(c: Chain, c2: Chain, adds: seq<Entry>, gone: set<int>, ports: seq<PortProto>)
    requires ValidChain(c) && GuardIs(c, ports) && c2.prefix == c.prefix
    requires c2.rules == adds + Without(c.rules, gone)
    requires forall e :: e in adds ==> IsManaged(c.prefix)(e)
    requires forall e :: e in c.rules && e.handle in gone ==> IsManaged(c.prefix)(e)
    ensures GuardIs(c2, ports)
  {
    GuardIsNeverManaged(c.prefix);
    WithoutKeepsGuard(c, gone, ports);
    PrependKeepsGuard(c.(rules := Without(c.rules, gone)), c2, adds, ports);
  }

  lemma EditUndisturbed(c: Chain, c2: Chain, adds: seq<Entry>, gone: set<int>)
    requires ValidChain(c) && c2.prefix == c.prefix && Healthy(c2)
    requires c2.rules == adds + Without(c.rules, gone)
    requires forall e :: e in adds ==> IsManaged(c.prefix)(e)
    requires forall e :: e in c.rules && e.handle in gone ==> IsManaged(c.prefix)(e)
    ensures Undisturbed(c, c2)
  {
    forall ports | GuardIs(c, ports)
      ensures GuardIs(c2, ports)
    {
      EditKeepsGuard(c, c2, adds, gone, ports);
    }
  }

  // Whatever fails in it, ReconcileAll takes out managed rules only, and so leaves
  // the guard.
  lemma ReconcileKeepsGuard(c: Chain, desired: seq<Grant>, r: Report, ports: seq<PortProto>)
    requires ValidChain(c) && AllListBack(desired) && r == SpecReconcileAll(Nft(c), desired) && GuardIs(c, ports)
    ensures r.host.Nft? && GuardIs(r.host.chain, ports)
  {
    if !NextFails(c.faults) {
      var s, adds, gone := ReconcileIsAPass(c, desired);
      PassTakesManaged(c, desired, r, s, adds, gone);
      EditKeepsGuard(c, r.host.chain, adds, gone, ports);
    }
  }

  lemma PassTakesManaged(c: Chain, desired: seq<Grant>, r: Report, s: Sorting, adds: seq<Entry>, gone: set<int>)
    requires ValidChain(c) && Pass(c, desired, r, s, adds, gone)
    ensures forall e :: e in c.rules && e.handle in gone ==> IsManaged(c.prefix)(e)
  {
    forall e | e in c.rules && e.handle in gone
      ensures IsManaged(c.prefix)(e)
    {
      assert Number(e.handle) in SetOf(s.extra);
      var i :| 0 <= i < |ManagedRules(c)| && ManagedRules(c)[i].handle == e.handle;
      assert ManagedRules(c)[i] in ManagedRules(c);
      SameHandleSameEntry(c.rules, e, ManagedRules(c)[i]);
    }
  }

  // Grants after an edit: those of the new rules, and those of the rules left.
  lemma GrantsAfterEdit(c: Chain, c2: Chain, adds: seq<Entry>, gone: set<int>)
    requires c2.prefix == c.prefix && c2.rules == adds + Without(c.rules, gone)
    requires forall e :: e in adds ==> IsManaged(c.prefix)(e)
    ensures GrantsOf(c.prefix, adds) <= Grants(c2) <= GrantsOf(c.prefix, adds) + Grants(c)
    ensures forall e :: e in ManagedRules(c) && e.handle !in gone ==> GrantOf(c.prefix, e) in Grants(c2)
    ensures forall g :: g in Grants(c2) && g !in GrantsOf(c.prefix, adds) ==>
              exists e :: e in ManagedRules(c) && e.handle !in gone && GrantOf(c.prefix, e) == g
  {
    ManagedAfterPass(c, c2, adds, gone);
    var left := Without(ManagedRules(c), gone);
    forall e | e in ManagedRules(c) && e.handle !in gone
      ensures GrantOf(c.prefix, e) in Grants(c2)
    {
      assert HandleNotIn(gone)(e);
      GrantInside(c.prefix, left, e);
    }
    forall g | g in Grants(c2) && g !in GrantsOf(c.prefix, adds)
      ensures g in Grants(c) && exists e :: e in ManagedRules(c) && e.handle !in gone && GrantOf(c.prefix, e) == g
    {
      var e := GrantStands(c.prefix, left, g);
      assert HandleNotIn(gone)(e);
      GrantInside(c.prefix, ManagedRules(c), e);
    }
  }

  // ---- AddRule ----

  lemma AddEffect(c: Chain, g: Grant)
    requires Healthy(c) && Proper(g) && ValidPort(g.port, g.proto)
    ensures var c2 := SpecAdd(c, g).0;
            SpecAdd(c, g).1.Done? && Undisturbed(c, c2) && Grants(c2) == Grants(c) + {g}
  {
    var c2 := SpecAdd(c, g).0;
    var e := AllowEntry(Tick(c), g);
    AddKeepsValid(c, g);
    ValidNameHasNoColon(g.user);
    AddedGrant(Tick(c), g);
    WithoutNone(c.rules);
    assert c2.rules == [e] + Without(c.rules, {});
    EditUndisturbed(c, c2, [e], {});
    ManagedAfterPass(c, c2, [e], {});
    WithoutNone(ManagedRules(c));
    GrantsSingle(c.prefix, e);
  }

  // ---- RemoveRule ----

  lemma {:induction false} FirstMatchFound(prefix: string, entries: seq<Entry>, at: Endpoint, comment: string)
    ensures match FirstMatch(ListAll(prefix, entries), at, comment)
            case None => forall e :: e in entries ==> !(GrantOf(prefix, e).At() == at && e.comment == comment)
            case Some(h) => exists e :: e in entries && h == Number(e.handle) && GrantOf(prefix, e).At() == at && e.comment == comment
  {
    if entries != [] {
      assert ListAll(prefix, entries)[1..] == ListAll(prefix, entries[1..]);
      FirstMatchFound(prefix, entries[1..], at, comment);
      assert entries[0] in entries;
    }
  }

  lemma TickUndisturbed(c: Chain)
    requires Healthy(c)
    ensures Undisturbed(c, Tick(c)) && Grants(Tick(c)) == Grants(c)
  {
  }

  // The grant that a rule at g's match with g's comment is listed as: g itself, if
  // its user has no ':'.
  function AsRead(prefix: string, g: Grant): Grant {
    var (user, group) := SplitComment(prefix, CommentFor(prefix, g.user, g.group));
    g.(user := user, group := group)
  }

  // The rule RemoveRule picks is managed, and listed as the grant.
  lemma PickedEntry(c: Chain, g: Grant, h: Handle) returns (e: Entry)
    requires FirstMatch(ListAll(c.prefix, Keep(c.rules, OfUser(c.prefix, g.user))), g.At(), CommentFor(c.prefix, g.user, g.group)) == Some(h)
    ensures e in c.rules && IsManaged(c.prefix)(e) && h == Number(e.handle) && GrantOf(c.prefix, e) == AsRead(c.prefix, g)
  {
    var mine, want := Keep(c.rules, OfUser(c.prefix, g.user)), CommentFor(c.prefix, g.user, g.group);
    FirstMatchFound(c.prefix, mine, g.At(), want);
    e :| e in mine && h == Number(e.handle) && GrantOf(c.prefix, e).At() == g.At() && e.comment == want;
    SplitInvertsComment(c.prefix, g.user, g.group);
  }

  // At most one copy of the grant's rule goes.
  lemma RemoveEffect(c: Chain, g: Grant)
    requires Healthy(c) && ':' !in g.user
    ensures var c2 := SpecRemove(c, g).0;
            SpecRemove(c, g).1 && Undisturbed(c, c2) && Grants(c) - {g} <= Grants(c2) <= Grants(c) &&
            forall e :: e in c2.rules ==> e in c.rules
  {
    hide FirstMatch, ListAll, GrantOf, OfUser, GrantsOf, GuardIs;
    var c1, c2 := Tick(c), SpecRemove(c, g).0;
    TickUndisturbed(c);
    match FirstMatch(ListAll(c.prefix, Keep(c.rules, OfUser(c.prefix, g.user))), g.At(), CommentFor(c.prefix, g.user, g.group))
    case None =>
    case Some(h) =>
      var e := PickedEntry(c, g, h);
      SplitInvertsComment(c.prefix, g.user, g.group);
      DeleteOneEntry(c1, e);
      OneEntryGone(c, c2, e, g);
  }

  // Whatever fails in it: every other grant stays.
  lemma RemoveSpares(c: Chain, g: Grant)
    requires ValidChain(c) && ':' !in g.user
    ensures var c2 := SpecRemove(c, g).0;
            ValidChain(c2) && c2.prefix == c.prefix && Grants(c) - {g} <= Grants(c2)
  {
    hide FirstMatch, ListAll, GrantOf, OfUser, GrantsOf;
    match FirstMatch(ListAll(c.prefix, Keep(c.rules, OfUser(c.prefix, g.user))), g.At(), CommentFor(c.prefix, g.user, g.group))
    case None =>
    case Some(h) =>
      var c2 := SpecRemove(c, g).0;
      var e := PickedEntry(c, g, h);
      SplitInvertsComment(c.prefix, g.user, g.group);
      DeleteKeepsValid(Tick(c), h);
      if c2.rules != c.rules {
        OneEntryGone(c, c2, e, g);
      }
  }

  lemma DeleteOneEntry(c: Chain, e: Entry)
    requires Healthy(c) && e in c.rules && IsManaged(c.prefix)(e)
    ensures var (c2, ok) := SpecDelete(c, Number(e.handle));
            ok && c2.prefix == c.prefix && c2.rules == [] + Without(c.rules, {e.handle}) && Undisturbed(c, c2)
  {
    var c2 := SpecDelete(c, Number(e.handle)).0;
    var i :| 0 <= i < |c.rules| && c.rules[i] == e;
    DeleteKeepsValid(c, Number(e.handle));
    forall x | x in c.rules && x.handle == e.handle
      ensures x == e
    {
      SameHandleSameEntry(c.rules, x, e);
    }
    EditUndisturbed(c, c2, [], {e.handle});
  }

  lemma OneEntryGone(c: Chain, c2: Chain, e: Entry, g: Grant)
    requires ValidChain(c) && c2.prefix == c.prefix && e in c.rules && GrantOf(c.prefix, e) == g
    requires c2.rules == [] + Without(c.rules, {e.handle})
    ensures Grants(c) - {g} <= Grants(c2) <= Grants(c)
  {
    GrantsAfterEdit(c, c2, [], {e.handle});
    forall x | x in Grants(c) - {g}
      ensures x in Grants(c2)
    {
      var y := GrantStands(c.prefix, ManagedRules(c), x);
      if y.handle == e.handle {
        SameHandleSameEntry(c.rules, y, e);
      }
    }
  }

  // ---- RemoveUserRules ----

  lemma RemoveUserEffect(c: Chain, user: string)
    requires Healthy(c)
    ensures var c2 := SpecRemoveUser(c, user).0;
            SpecRemoveUser(c, user).1 && Undisturbed(c, c2) &&
            forall g :: g in Grants(c2) <==> g in Grants(c) && g.user != user
  {
    var failed := RemoveUserRulesExact(c, user);
    var c2 := SpecRemoveUser(c, user).0;
    KeptIsWithout(c, NotOwned(c.prefix, user));
    var gone := Dropped(c, NotOwned(c.prefix, user));
    EditUndisturbed(c, c2, [], gone);
    OwnedGrantsGone(c, c2, user);
  }

  function Dropped(c: Chain, p: Entry -> bool): set<int> {
    set e | e in c.rules && !p(e) :: e.handle
  }

  lemma KeptIsWithout(c: Chain, p: Entry -> bool)
    requires ValidChain(c)
    ensures Keep(c.rules, p) == [] + Without(c.rules, Dropped(c, p))
    ensures forall e :: e in c.rules && e.handle in Dropped(c, p) ==> !p(e)
  {
    forall e | e in c.rules
      ensures HandleNotIn(Dropped(c, p))(e) == p(e)
    {
      if e.handle in Dropped(c, p) {
        var x :| x in c.rules && !p(x) && x.handle == e.handle;
        SameHandleSameEntry(c.rules, e, x);
      }
    }
    KeepSame(c.rules, HandleNotIn(Dropped(c, p)), p);
  }

  lemma OwnedGrantsGone(c: Chain, c2: Chain, user: string)
    requires c2.prefix == c.prefix && c2.rules == Keep(c.rules, NotOwned(c.prefix, user))
    ensures forall g :: g in Grants(c2) <==> g in Grants(c) && g.user != user
  {
    forall g
      ensures g in Grants(c2) <==> g in Grants(c) && g.user != user
    {
      if g in Grants(c2) {
        var e := GrantStands(c.prefix, ManagedRules(c2), g);
        GrantInside(c.prefix, ManagedRules(c), e);
        assert NotOwned(c.prefix, user)(e);
      }
      if g in Grants(c) && g.user != user {
        var e := GrantStands(c.prefix, ManagedRules(c), g);
        assert NotOwned(c.prefix, user)(e);
        GrantInside(c.prefix, ManagedRules(c2), e);
      }
    }
  }

  // ---- Manager.Reconcile ----

  predicate ProperMap(enabled: PortMap) {
    forall n :: n in enabled ==> ValidName(n) && ValidPort(enabled[n].port, enabled[n].proto)
  }

  lemma ProperComment(prefix: string, e: Entry)
    requires IsManaged(prefix)(e) && Proper(GrantOf(prefix, e))
    ensures var g := GrantOf(prefix, e);
            e.comment == CommentFor(prefix, g.user, g.group) && GroupFromComment(prefix, g.user, e.comment) == g.group
  {
    ValidNameHasNoColon(GrantOf(prefix, e).group);
    SplitDetermines(prefix, e.comment);
    GroupRoundTrip(prefix, GrantOf(prefix, e).user, GrantOf(prefix, e).group);
  }

  // A listed rule that made the loop skip a group already is the group's grant.
  lemma SkippedIsThere(c: Chain, user: string, d: Grant) returns (e: Entry)
    requires ValidName(user) && d.user == user && ValidName(d.group) && AllProper(c)
    requires Exists(c.prefix, user, ListAll(c.prefix, UserRules(c, user)), d.At(), d.group)
    ensures e in UserRules(c, user) && IsManaged(c.prefix)(e) && GrantOf(c.prefix, e) == d
    ensures GroupFromComment(c.prefix, user, e.comment) == d.group
  {
    var mine := UserRules(c, user);
    var i :| 0 <= i < |mine| && GrantOf(c.prefix, mine[i]).At() == d.At()
             && GroupFromComment(c.prefix, user, mine[i].comment) == d.group;
    e := mine[i];
    assert e in mine;
    ValidNameHasNoColon(user);
    UserRulesAreManaged(c.prefix, user, e);
    UserPrefixNamesOwner(c.prefix, user, e.comment);
    GrantInside(c.prefix, ManagedRules(c), e);
    ProperComment(c.prefix, e);
  }

  lemma UserPassUndisturbed(c: Chain, user: string, c2: Chain, adds: seq<Entry>, gone: set<int>)
    requires Healthy(c) && ':' !in user && UserPass(c, user, c2, adds, gone)
    ensures Undisturbed(c, c2)
  {
    forall e | e in c.rules && e.handle in gone
      ensures IsManaged(c.prefix)(e)
    {
      UserRulesAreManaged(c.prefix, user, e);
    }
    forall e | e in adds
      ensures IsManaged(c.prefix)(e)
    {
      UserRulesAreManaged(c.prefix, user, e);
    }
    EditUndisturbed(c, c2, adds, gone);
  }

  // Other users' grants are as before; the user's own end at this address, and
  // those of the enabled groups are all there.
  lemma UserPassGrants(c: Chain, user: string, c2: Chain, adds: seq<Entry>, gone: set<int>)
    requires ':' !in user && UserPass(c, user, c2, adds, gone)
    ensures forall g: Grant :: g.user != user ==> (g in Grants(c2) <==> g in Grants(c))
    ensures GrantsOf(c.prefix, adds) <= Grants(c2) <= GrantsOf(c.prefix, adds) + Grants(c)
  {
    forall e | e in adds
      ensures IsManaged(c.prefix)(e) && GrantOf(c.prefix, e).user == user
    {
      UserRulesAreManaged(c.prefix, user, e);
      UserPrefixNamesOwner(c.prefix, user, e.comment);
    }
    GrantsAfterEdit(c, c2, adds, gone);
    forall g: Grant | g.user != user
      ensures g in Grants(c2) <==> g in Grants(c)
    {
      if g in GrantsOf(c.prefix, adds) {
        var e := GrantStands(c.prefix, adds, g);
      } else if g in Grants(c) {
        var e := GrantStands(c.prefix, ManagedRules(c), g);
        if e.handle in gone {
          UserPrefixNamesOwner(c.prefix, user, e.comment);
        }
      }
    }
  }

  // Whatever else fails in it: once no add has failed, every enabled group's grant
  // is there.
  lemma ReconcileUnfailed(c: Chain, user: string, ip: Source, enabled: PortMap, order: seq<string>, r: UserReport)
    requires ValidChain(c) && AllProper(c) && ValidName(user) && Canonical(ip) && ProperMap(enabled)
    requires forall n :: n in order <==> n in enabled
    requires r == SpecReconcile(c, user, ip, enabled, order) && !r.failed
    ensures ValidChain(r.chain) && r.chain.prefix == c.prefix && AllProper(r.chain)
    ensures forall n :: n in enabled ==> WantedFor(user, ip, n, enabled[n]) in Grants(r.chain)
  {
    ValidNameHasNoColon(user);
    assert forall n :: n in order ==> n in enabled && ValidName(n);
    var missing, adds, gone := ReconcileIsAUserPass(c, user, ip, enabled, order, r);
    UserPassGrants(c, user, r.chain, adds, gone);
    forall n | n in enabled
      ensures WantedFor(user, ip, n, enabled[n]) in Grants(r.chain)
    {
      var d := WantedFor(user, ip, n, enabled[n]);
      if d !in missing {
        var e := SkippedIsThere(c, user, d);
        SkippedStays(c, user, ip, enabled, r, adds, gone, e, d);
      }
    }
  }

  lemma ReconcileEffect(c: Chain, user: string, ip: Source, enabled: PortMap, order: seq<string>, r: UserReport)
    requires Healthy(c) && AllProper(c) && ValidName(user) && Canonical(ip) && ProperMap(enabled)
    requires forall n :: n in order <==> n in enabled
    requires r == SpecReconcile(c, user, ip, enabled, order)
    ensures !r.failed && Undisturbed(c, r.chain)
    ensures forall g: Grant :: g.user != user ==> (g in Grants(r.chain) <==> g in Grants(c))
    ensures forall n :: n in enabled ==> WantedFor(user, ip, n, enabled[n]) in Grants(r.chain)
    ensures AllProper(r.chain)
  {
    hide Undisturbed, GuardIs, AllProper;
    ValidNameHasNoColon(user);
    assert forall n :: n in order ==> n in enabled && ValidName(n);
    var missing, adds, gone := ReconcileIsAUserPass(c, user, ip, enabled, order, r);
    assert r.failedAdds == {} by {
      assert forall d :: d in missing ==> Accepted(d);
    }
    UserPassUndisturbed(c, user, r.chain, adds, gone);
    UserPassGrants(c, user, r.chain, adds, gone);
    ReconcileUnfailed(c, user, ip, enabled, order, r);
  }

  lemma SkippedStays(c: Chain, user: string, ip: Source, enabled: PortMap, r: UserReport,
                     adds: seq<Entry>, gone: set<int>, e: Entry, d: Grant)
    requires ':' !in user && UserPass(c, user, r.chain, adds, gone) && PassGone(c, user, ip, enabled, r.failedDeletes, gone)
    requires e in UserRules(c, user) && GrantOf(c.prefix, e) == d && d.ip == ip && d.group in enabled
    requires GroupFromComment(c.prefix, user, e.comment) == d.group
    ensures d in Grants(r.chain)
  {
    assert !StaleRule(c.prefix, user, ip, enabled)(Listed(c.prefix, e));
    assert !StaleEntry(c.prefix, user, ip, enabled)(e);
    assert HandleNotIn(gone)(e);
    assert e in r.chain.rules;
    UserRulesAreManaged(c.prefix, user, e);
    GrantInside(c.prefix, ManagedRules(r.chain), e);
  }

  // ---- what a per-user reconcile reports ----

  lemma {:induction false} AddedNames(missing: seq<Grant>, failed: set<Grant>, n: string)
    ensures n in GroupsAdded(missing, failed) <==> exists d :: d in missing && d !in failed && d.group == n
  {
    if missing != [] {
      var front, last := missing[..|missing| - 1], missing[|missing| - 1];
      assert missing == front + [last];
      AddedNames(front, failed, n);
    }
  }

  lemma {:induction false} RemovedNames(prefix: string, user: string, rules: seq<Rule>, p: Rule -> bool, failed: set<Handle>, n: string)
    ensures n in GroupsRemoved(prefix, user, rules, p, failed)
            <==> exists r :: r in rules && p(r) && r.handle !in failed && GroupOf(prefix, user, r) == n
  {
    hide GroupOf;
    if rules != [] {
      var front, last := rules[..|rules| - 1], rules[|rules| - 1];
      assert rules == front + [last];
      RemovedNames(prefix, user, front, p, failed, n);
    }
  }

  // A grant of the user held by the chain, as the filter lists it.
  lemma HeldIsListed(c: Chain, user: string, g: Grant) returns (e: Entry)
    requires AllProper(c) && ValidName(user) && g in Grants(c) && g.user == user
    ensures e in UserRules(c, user) && GrantOf(c.prefix, e) == g && GroupFromComment(c.prefix, user, e.comment) == g.group
  {
    e := GrantStands(c.prefix, ManagedRules(c), g);
    GrantInside(c.prefix, ManagedRules(c), e);
    assert Proper(g);
    ProperComment(c.prefix, e);
    ValidNameHasNoColon(user);
    ValidNameHasNoColon(g.group);
    UserFilterExact(c.prefix, user, user, g.group);
  }

  // And the other way around.
  lemma ListedIsHeld(c: Chain, user: string, e: Entry)
    requires AllProper(c) && ValidName(user) && e in UserRules(c, user)
    ensures var g := GrantOf(c.prefix, e);
            g in Grants(c) && g.user == user && GroupFromComment(c.prefix, user, e.comment) == g.group
  {
    ValidNameHasNoColon(user);
    UserRulesAreManaged(c.prefix, user, e);
    UserPrefixNamesOwner(c.prefix, user, e.comment);
    GrantInside(c.prefix, ManagedRules(c), e);
    ProperComment(c.prefix, e);
  }

  // Whatever fails: reported as added are the enabled groups whose rule was not here
  // and is now, and as removed those of the user's rules that are gone.
  lemma ReportNames(c: Chain, user: string, ip: Source, enabled: PortMap, order: seq<string>, r: UserReport, n: string)
    requires ValidChain(c) && !NextFails(c.faults) && AllProper(c) && ValidName(user) && Canonical(ip) && ProperMap(enabled)
    requires forall x :: x in order <==> x in enabled
    requires r == SpecReconcile(c, user, ip, enabled, order)
    ensures n in r.added <==> n in enabled && Grant(ip, enabled[n].port, enabled[n].proto, user, n) in Grants(r.chain) - Grants(c)
    ensures n in r.removed
            <==> exists e :: e in ManagedRules(c) && e !in r.chain.rules && GrantOf(c.prefix, e).user == user && GrantOf(c.prefix, e).group == n
  {
    hide AllProper, Grants, GroupsAdded, GroupsRemoved, GroupOf;
    ValidNameHasNoColon(user);
    assert forall x :: x in order ==> x in enabled && ValidName(x);
    var missing, adds, gone := ReconcileIsAUserPass(c, user, ip, enabled, order, r);
    UserPassGrants(c, user, r.chain, adds, gone);
    AddedReport(c, user, ip, enabled, order, r.failedAdds, n);
    RemovedReport(c, user, ip, enabled, r, adds, gone, n);
  }

  lemma AddedReport(c: Chain, user: string, ip: Source, enabled: PortMap, order: seq<string>, failed: set<Grant>, n: string)
    requires AllProper(c) && ValidName(user) && ProperMap(enabled) && forall x :: x in order <==> x in enabled
    ensures var missing := Missing(c.prefix, user, ip, enabled, order, ListAll(c.prefix, UserRules(c, user)));
            (n in enabled ==> (WantedFor(user, ip, n, enabled[n]) in missing <==> WantedFor(user, ip, n, enabled[n]) !in Grants(c))) &&
            (n in GroupsAdded(missing, failed) <==> n in enabled && WantedFor(user, ip, n, enabled[n]) !in Grants(c) + failed)
  {
    hide AllProper, Grants, GroupsAdded;
    var rules := ListAll(c.prefix, UserRules(c, user));
    var missing := Missing(c.prefix, user, ip, enabled, order, rules);
    AddedNames(missing, failed, n);
    if n in enabled {
      var d := WantedFor(user, ip, n, enabled[n]);
      if d in Grants(c) {
        var e := HeldIsListed(c, user, d);
        var i :| 0 <= i < |UserRules(c, user)| && UserRules(c, user)[i] == e;
        assert rules[i] == Listed(c.prefix, e);
        assert Exists(c.prefix, user, rules, d.At(), n);
      } else if Exists(c.prefix, user, rules, d.At(), n) {
        var e := SkippedIsThere(c, user, d);
        ListedIsHeld(c, user, e);
      }
    }
  }

  lemma RemovedReport(c: Chain, user: string, ip: Source, enabled: PortMap, r: UserReport, adds: seq<Entry>, gone: set<int>, n: string)
    requires ValidChain(c) && AllProper(c) && ValidName(user)
    requires UserPass(c, user, r.chain, adds, gone) && PassGone(c, user, ip, enabled, r.failedDeletes, gone)
    ensures n in GroupsRemoved(c.prefix, user, ListAll(c.prefix, UserRules(c, user)), StaleRule(c.prefix, user, ip, enabled), r.failedDeletes)
            <==> exists e :: e in ManagedRules(c) && e !in r.chain.rules && GrantOf(c.prefix, e).user == user && GrantOf(c.prefix, e).group == n
  {
    hide AllProper, Grants, UserRules, GroupOf, ManagedRules;
    var rules, p := ListAll(c.prefix, UserRules(c, user)), StaleRule(c.prefix, user, ip, enabled);
    RemovedNames(c.prefix, user, rules, p, r.failedDeletes, n);
    if x :| x in rules && p(x) && x.handle !in r.failedDeletes && GroupOf(c.prefix, user, x) == n {
      var e := RemovedIsGone(c, user, ip, enabled, r, adds, gone, x);
    }
    if e :| e in ManagedRules(c) && e !in r.chain.rules && GrantOf(c.prefix, e).user == user && GrantOf(c.prefix, e).group == n {
      var x := GoneIsRemoved(c, user, ip, enabled, r, adds, gone, e);
    }
  }

  lemma RemovedIsGone(c: Chain, user: string, ip: Source, enabled: PortMap, r: UserReport, adds: seq<Entry>, gone: set<int>, x: Rule)
    returns (e: Entry)
    requires ValidChain(c) && AllProper(c) && ValidName(user)
    requires UserPass(c, user, r.chain, adds, gone) && PassGone(c, user, ip, enabled, r.failedDeletes, gone)
    requires x in ListAll(c.prefix, UserRules(c, user)) && StaleRule(c.prefix, user, ip, enabled)(x) && x.handle !in r.failedDeletes
    ensures e in ManagedRules(c) && e !in r.chain.rules && GrantOf(c.prefix, e).user == user
    ensures GrantOf(c.prefix, e).group == GroupOf(c.prefix, user, x)
  {
    var mine := UserRules(c, user);
    var i :| 0 <= i < |mine| && ListAll(c.prefix, mine)[i] == x;
    e := mine[i];
    hide AllProper, Grants;
    ListedIsHeld(c, user, e);
    ValidNameHasNoColon(user);
    UserRulesAreManaged(c.prefix, user, e);
    assert StaleEntry(c.prefix, user, ip, enabled)(e) && e.handle in gone;
    GoneIsOut(c, user, r.chain, adds, gone, e);
  }

  lemma GoneIsOut(c: Chain, user: string, c2: Chain, adds: seq<Entry>, gone: set<int>, e: Entry)
    requires ValidChain(c) && UserPass(c, user, c2, adds, gone) && e in c.rules
    ensures e in c2.rules <==> e.handle !in gone
  {
    var i :| 0 <= i < |c.rules| && c.rules[i] == e;
    assert e.handle < c.next;
  }

  lemma GoneIsRemoved(c: Chain, user: string, ip: Source, enabled: PortMap, r: UserReport, adds: seq<Entry>, gone: set<int>, e: Entry)
    returns (x: Rule)
    requires ValidChain(c) && AllProper(c) && ValidName(user)
    requires UserPass(c, user, r.chain, adds, gone) && PassGone(c, user, ip, enabled, r.failedDeletes, gone)
    requires e in ManagedRules(c) && e !in r.chain.rules && GrantOf(c.prefix, e).user == user
    ensures x in ListAll(c.prefix, UserRules(c, user)) && StaleRule(c.prefix, user, ip, enabled)(x) && x.handle !in r.failedDeletes
    ensures GroupOf(c.prefix, user, x) == GrantOf(c.prefix, e).group
  {
    GoneIsOut(c, user, r.chain, adds, gone, e);
    var mine := UserRules(c, user);
    assert e in mine;
    hide AllProper, Grants;
    ListedIsHeld(c, user, e);
    var i :| 0 <= i < |mine| && mine[i] == e;
    x := ListAll(c.prefix, mine)[i];
    assert x == Listed(c.prefix, e) && StaleEntry(c.prefix, user, ip, enabled)(e);
  }

  // ---- SyncGuard ----

  lemma SyncEffect(c: Chain, ports: seq<PortProto>)
    requires Healthy(c)
    ensures var (c2, ok) := SpecSyncGuard(c, ports);
            ok && Healthy(c2) && c2.prefix == c.prefix && GuardIs(c2, ports) && ManagedRules(c2) == ManagedRules(c)
  {
    SyncKeepsValid(c, ports);
    SyncGuardLaysOut(c, ports);
    P.SyncGuardKeepsManaged(c, ports);
  }
}
