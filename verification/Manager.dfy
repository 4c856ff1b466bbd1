// The policy layer (internal/firewall/manager.go) on the nftables backend: one
// user's rules aligned with their groups, and all of a user's rules removed.
module Manager {
  import opened Net
  import opened Seqs
  import opened Comments
  import opened NftChain
  import opened Reconcile
  import opened NftReconcile
  import NB = NftBackend

  // A user's enabled groups: name to port and protocol.
  type PortMap = map<string, PortProto>

  function GroupOf(prefix: string, user: string, r: Rule): string {
    GroupFromComment(prefix, user, r.comment)
  }

  // The listed rules hold one for this match and group.
  predicate Exists(prefix: string, user: string, rules: seq<Rule>, at: Endpoint, group: string) {
    exists i :: 0 <= i < |rules| && rules[i].grant.At() == at && GroupOf(prefix, user, rules[i]) == group
  }

  function WantedFor(user: string, ip: Source, group: string, pp: PortProto): Grant {
    Grant(ip, pp.port, pp.proto, user, group)
  }

  // The grants the adding loop asks for, when it visits the groups in `order`.
  function Missing(prefix: string, user: string, ip: Source, enabled: PortMap, order: seq<string>, rules: seq<Rule>): (r: seq<Grant>)
    requires forall n :: n in order ==> n in enabled
    ensures forall d :: d in r ==> d.group in order && d == WantedFor(user, ip, d.group, enabled[d.group]) &&
                                   !Exists(prefix, user, rules, d.At(), d.group)
    ensures forall n :: n in order ==> var d := WantedFor(user, ip, n, enabled[n]);
                                       d in r || Exists(prefix, user, rules, d.At(), n)
  {
    if order == [] then []
    else
      var front, n := order[..|order| - 1], order[|order| - 1];
      var d := WantedFor(user, ip, n, enabled[n]);
      Missing(prefix, user, ip, enabled, front, rules)
      + if Exists(prefix, user, rules, d.At(), n) then [] else [d]
  }

  // A grouped rule whose group is not enabled any more or whose address is another.
  function StaleRule(prefix: string, user: string, ip: Source, enabled: PortMap): Rule -> bool {
    (r: Rule) => GroupOf(prefix, user, r) != "" && (GroupOf(prefix, user, r) !in enabled || r.grant.ip != ip)
  }

  function OwnedBy(user: string): Rule -> bool {
    (r: Rule) => r.grant.user == user
  }

  function HandlesWhere(rules: seq<Rule>, p: Rule -> bool): (r: seq<Handle>) {
    if rules == [] then []
    else
      var last := rules[|rules| - 1];
      HandlesWhere(rules[..|rules| - 1], p) + if p(last) then [last.handle] else []
  }

  function Nothing(c: Chain): Adding {
    Adding(Nft(c), {}, {}, 0, {})
  }

  // The groups of the grants that were added.
  function GroupsAdded(missing: seq<Grant>, failed: set<Grant>): seq<string> {
    if missing == [] then []
    else
      var last := missing[|missing| - 1];
      GroupsAdded(missing[..|missing| - 1], failed) + if last in failed then [] else [last.group]
  }

  // The groups of the rules that were deleted.
  function GroupsRemoved(prefix: string, user: string, rules: seq<Rule>, p: Rule -> bool, failed: set<Handle>): seq<string> {
    if rules == [] then []
    else
      var last := rules[|rules| - 1];
      GroupsRemoved(prefix, user, rules[..|rules| - 1], p, failed)
      + if p(last) && last.handle !in failed then [GroupOf(prefix, user, last)] else []
  }

  datatype UserReport = UserReport(chain: Chain, added: seq<string>, removed: seq<string>, failed: bool,
                                   failedAdds: set<Grant>, failedDeletes: set<Handle>)

  // Manager.Reconcile; `order` is the order the map iteration happens to take.
  function SpecReconcile(c: Chain, user: string, ip: Source, enabled: PortMap, order: seq<string>): UserReport
    requires forall n :: n in order ==> n in enabled
  {
    var (c1, listing) := SpecList(c, OfUser(c.prefix, user));
    match listing
    case None => UserReport(c1, [], [], true, {}, {})
    case Some(rules) =>
      var missing, p := Missing(c.prefix, user, ip, enabled, order, rules), StaleRule(c.prefix, user, ip, enabled);
      var a := AddAll(Nothing(c1), missing);
      var d := DeleteAll(Deleting(a.host, 0, {}), HandlesWhere(rules, p));
      UserReport(ChainOf(d.host, c), GroupsAdded(missing, a.failedAdds),
                 GroupsRemoved(c.prefix, user, rules, p, d.failedDeletes), a.failedAdds != {}, a.failedAdds, d.failedDeletes)
  }

  // RemoveUserRules: every managed rule of the user, grouped or not, at any address.
  function SpecRemoveUser(c: Chain, user: string): (Chain, bool) {
    var (c1, listing) := SpecList(c, IsManaged(c.prefix));
    match listing
    case None => (c1, false)
    case Some(rules) =>
      var d := DeleteAll(Deleting(Nft(c1), 0, {}), HandlesWhere(rules, OwnedBy(user)));
      (ChainOf(d.host, c), d.failedDeletes == {})
  }

  lemma {:induction false} AddAllNft(a: Adding, desired: seq<Grant>)
    requires a.host.Nft?
    ensures AddAll(a, desired).host.Nft? && AddAll(a, desired).host.chain.prefix == a.host.chain.prefix
    decreases |desired|
  {
    if desired != [] {
      AddAllNft(AddOne(a, desired[0]), desired[1..]);
    }
  }

  lemma {:induction false} DeleteAllNft(d: Deleting, extra: seq<Handle>)
    requires d.host.Nft?
    ensures DeleteAll(d, extra).host.Nft? && DeleteAll(d, extra).host.chain.prefix == d.host.chain.prefix
    decreases |extra|
  {
    if extra != [] {
      DeleteAllNft(DeleteOne(d, extra[0]), extra[1..]);
    }
  }

  // ---- the handles a loop over listed rules deletes ----

  function ListedWhere(prefix: string, p: Rule -> bool): Entry -> bool {
    (e: Entry) => p(Listed(prefix, e))
  }

  predicate Selects(prefix: string, entries: seq<Entry>, p: Rule -> bool, handles: seq<Handle>) {
    Distinct(handles) && Names(SetOf(handles), entries) &&
    forall e :: e in entries ==> (e.handle in Numbers(SetOf(handles)) <==> p(Listed(prefix, e)))
  }

  lemma SelectOneMore(prefix: string, front: seq<Entry>, last: Entry, p: Rule -> bool, handles: seq<Handle>)
    requires Selects(prefix, front, p, handles) && !Present(front, last.handle)
    ensures Selects(prefix, front + [last], p, handles + if p(Listed(prefix, last)) then [Number(last.handle)] else [])
  {
    var more := handles + if p(Listed(prefix, last)) then [Number(last.handle)] else [];
    NamesMore(SetOf(handles), front, last);
    assert Number(last.handle) !in SetOf(handles);
    if p(Listed(prefix, last)) {
      assert SetOf(more) == SetOf(handles) + {Number(last.handle)};
    } else {
      assert more == handles;
      assert Names(SetOf(handles), front + [last]);
    }
    assert forall e :: e in front ==> e.handle != last.handle;
  }

  lemma {:induction false} HandlesWhereSelects(prefix: string, entries: seq<Entry>, p: Rule -> bool)
    requires UniqueHandles(entries)
    ensures Selects(prefix, entries, p, HandlesWhere(ListAll(prefix, entries), p))
    decreases |entries|
  {
    if entries != [] {
      var n := |entries| - 1;
      var front, last := entries[..n], entries[n];
      assert ListAll(prefix, entries)[..n] == ListAll(prefix, front);
      HandlesWhereSelects(prefix, front, p);
      assert entries == front + [last];
      SelectOneMore(prefix, front, last, p, HandlesWhere(ListAll(prefix, front), p));
    }
  }

  // ---- the whole operation, in terms of what it put in front and took out ----

  function NotOfUser(prefix: string, user: string): Entry -> bool {
    (e: Entry) => !HasPrefix(e.comment, UserPrefix(prefix, user))
  }

  function StaleEntry(prefix: string, user: string, ip: Source, enabled: PortMap): Entry -> bool {
    ListedWhere(prefix, StaleRule(prefix, user, ip, enabled))
  }

  function FreshEntry(prefix: string, user: string, ip: Source, enabled: PortMap): Entry -> bool {
    (e: Entry) => !StaleRule(prefix, user, ip, enabled)(Listed(prefix, e))
  }

  function UserRules(c: Chain, user: string): seq<Entry> {
    Keep(c.rules, OfUser(c.prefix, user))
  }

  lemma UserRulesAreManaged(prefix: string, user: string, e: Entry)
    requires ':' !in user && OfUser(prefix, user)(e)
    ensures IsManaged(prefix)(e)
  {
    UserPrefixNamesOwner(prefix, user, e.comment);
  }

  // A comment that splits into a user and a group is the one AddRule writes for them.
  lemma SplitDetermines(prefix: string, comment: string)
    requires HasPrefix(comment, prefix + ":") && SplitComment(prefix, comment).1 != ""
    ensures var (user, group) := SplitComment(prefix, comment); comment == CommentFor(prefix, user, group)
  {
    CommentInvertsSplit(prefix, comment);
    var rest := comment[|prefix| + 1..];
    var i := IndexOf(rest, ':');
    assert i < |rest|;
    assert rest[i + 1..] != "";
  }

  lemma AddsAreOfUser(prefix: string, user: string, adds: seq<Entry>, desired: set<Grant>)
    requires ':' !in user && forall d :: d in desired ==> d.user == user && d.group != ""
    requires GrantsOf(prefix, adds) <= desired && forall e :: e in adds ==> IsManaged(prefix)(e)
    ensures forall e :: e in adds ==> OfUser(prefix, user)(e)
  {
    forall e | e in adds
      ensures OfUser(prefix, user)(e)
    {
      GrantInside(prefix, adds, e);
      SplitDetermines(prefix, e.comment);
      UserFilterExact(prefix, user, user, GrantOf(prefix, e).group);
    }
  }

  // What one call did: `adds` in front, the rules numbered in `gone` taken out,
  // all of them this user's.
  predicate UserPass(c: Chain, user: string, c2: Chain, adds: seq<Entry>, gone: set<int>) {
    c2.prefix == c.prefix && c2.present == c.present && ValidChain(c2) && (Healthy(c) ==> Healthy(c2)) &&
    c2.rules == adds + Without(c.rules, gone) &&
    (forall e :: e in adds ==> OfUser(c.prefix, user)(e) && e.handle >= c.next) &&
    forall e :: e in c.rules && e.handle in gone ==> OfUser(c.prefix, user)(e)
  }

  // What it added: one rule for each missing grant, but for the failed ones.
  predicate PassAdds(c: Chain, missing: seq<Grant>, adds: seq<Entry>, failedAdds: set<Grant>) {
    OneEach(c.prefix, adds) && GrantsOf(c.prefix, adds) == Wanted(missing) - failedAdds && failedAdds <= Wanted(missing) &&
    (Healthy(c) ==> forall d :: d in failedAdds ==> !Accepted(d)) &&
    forall d :: d in missing && !Accepted(d) ==> d in failedAdds
  }

  // What it took out: the stale ones, but for the failed ones.
  predicate PassGone(c: Chain, user: string, ip: Source, enabled: PortMap, failedDeletes: set<Handle>, gone: set<int>) {
    (forall e :: e in UserRules(c, user) ==>
      (e.handle in gone <==> StaleEntry(c.prefix, user, ip, enabled)(e) && e.handle !in Numbers(failedDeletes))) &&
    (Healthy(c) ==> failedDeletes == {})
  }

  lemma NamesInManaged(c: Chain, user: string, handles: set<Handle>)
    requires ':' !in user && Names(handles, UserRules(c, user))
    ensures Names(handles, ManagedRules(c))
  {
    forall h | h in handles
      ensures Present(ManagedRules(c), h.n)
    {
      var i :| 0 <= i < |UserRules(c, user)| && UserRules(c, user)[i].handle == h.n;
      var e := UserRules(c, user)[i];
      assert e in UserRules(c, user);
      UserRulesAreManaged(c.prefix, user, e);
      assert e in ManagedRules(c);
    }
  }

  lemma OnlyTheUserIsHit(c: Chain, user: string, handles: set<Handle>)
    requires UniqueHandles(c.rules) && Names(handles, UserRules(c, user))
    ensures forall e :: e in c.rules && e.handle in Numbers(handles) ==> OfUser(c.prefix, user)(e)
  {
    forall e | e in c.rules && e.handle in Numbers(handles)
      ensures OfUser(c.prefix, user)(e)
    {
      var i :| 0 <= i < |UserRules(c, user)| && UserRules(c, user)[i].handle == e.handle;
      assert UserRules(c, user)[i] in UserRules(c, user);
      SameHandleSameEntry(c.rules, e, UserRules(c, user)[i]);
    }
  }

  // The adding loop.
  lemma UserAdds(c: Chain, user: string, ip: Source, missing: seq<Grant>)
    returns (a: Adding, adds: seq<Entry>)
    requires ValidChain(c) && ':' !in user && ip == ListedForm(ip)
    requires forall d :: d in missing ==> d.ip == ip && d.user == user && d.group != ""
    ensures a == AddAll(Nothing(c), missing) && AddedTo(c, {}, a, adds) && a.have == Wanted(missing)
    ensures forall e :: e in adds ==> OfUser(c.prefix, user)(e)
  {
    NothingAddedYet(c, Sorting({}, {}, []));
    adds := AddAllAdds(c, {}, Nothing(c), [], missing);
    a := AddAll(Nothing(c), missing);
    AddsAreOfUser(c.prefix, user, adds, Wanted(missing));
  }

  // The handles of the deleting loop.
  lemma StaleHandles(c: Chain, user: string, p: Rule -> bool) returns (handles: seq<Handle>)
    requires ValidChain(c) && ':' !in user
    ensures handles == HandlesWhere(ListAll(c.prefix, UserRules(c, user)), p)
    ensures Distinct(handles) && Names(SetOf(handles), ManagedRules(c))
    ensures forall e :: e in c.rules && e.handle in Numbers(SetOf(handles)) ==> OfUser(c.prefix, user)(e)
    ensures forall e :: e in UserRules(c, user) ==> (e.handle in Numbers(SetOf(handles)) <==> p(Listed(c.prefix, e)))
  {
    handles := HandlesWhere(ListAll(c.prefix, UserRules(c, user)), p);
    KeepUnique(c.rules, OfUser(c.prefix, user));
    HandlesWhereSelects(c.prefix, UserRules(c, user), p);
    NamesInManaged(c, user, SetOf(handles));
    OnlyTheUserIsHit(c, user, SetOf(handles));
  }

  lemma UserPassFromParts(c: Chain, user: string, a: Adding, d: Deleting, adds: seq<Entry>, gone: set<int>)
    requires AddedTo(Tick(c), {}, a, adds) && DeletedFrom(a.host.chain, d, gone)
    requires d.host.chain.rules == adds + Without(c.rules, gone)
    requires forall e :: e in adds ==> OfUser(c.prefix, user)(e)
    requires forall e :: e in c.rules && e.handle in gone ==> OfUser(c.prefix, user)(e)
    ensures UserPass(c, user, d.host.chain, adds, gone)
  {
  }

  lemma PassAddsFromParts(c: Chain, missing: seq<Grant>, a: Adding, adds: seq<Entry>)
    requires AddedTo(Tick(c), {}, a, adds) && a.have == Wanted(missing)
    ensures PassAdds(c, missing, adds, a.failedAdds)
  {
  }

  // The deleting loop, once the adding loop is done.
  lemma StaleGo(c: Chain, user: string, ip: Source, enabled: PortMap, a: Adding, adds: seq<Entry>)
    returns (d: Deleting, gone: set<int>)
    requires ValidChain(c) && ':' !in user && AddedTo(Tick(c), {}, a, adds)
    ensures d == DeleteAll(Deleting(a.host, 0, {}),
                           HandlesWhere(ListAll(c.prefix, UserRules(c, user)), StaleRule(c.prefix, user, ip, enabled)))
    ensures DeletedFrom(a.host.chain, d, gone) && d.host.chain.rules == adds + Without(c.rules, gone)
    ensures forall e :: e in c.rules && e.handle in gone ==> OfUser(c.prefix, user)(e)
    ensures PassGone(c, user, ip, enabled, d.failedDeletes, gone)
  {
    hide AddAll, DeleteAll, ListAll, HandlesWhere, PassGone, StaleEntry, Without, UserRules, Numbers, SetOf;
    var handles := StaleHandles(c, user, StaleRule(c.prefix, user, ip, enabled));
    gone := DeletingTheExtra(Tick(c), Sorting({}, {}, handles), a, adds);
    d := DeleteAll(Deleting(a.host, 0, {}), handles);
    StaleAreGone(c, user, ip, enabled, handles, d.failedDeletes, gone);
  }

  lemma StaleAreGone(c: Chain, user: string, ip: Source, enabled: PortMap, handles: seq<Handle>, failed: set<Handle>, gone: set<int>)
    requires forall e :: e in UserRules(c, user) ==>
               (e.handle in Numbers(SetOf(handles)) <==> StaleRule(c.prefix, user, ip, enabled)(Listed(c.prefix, e)))
    requires gone == Numbers(SetOf(handles)) - Numbers(failed) && (Healthy(c) ==> failed == {})
    ensures PassGone(c, user, ip, enabled, failed, gone)
  {
    hide UserRules, Numbers, SetOf;
  }

  // Both loops, for any list of grants to add.
  lemma AddThenDelete(c: Chain, user: string, ip: Source, enabled: PortMap, missing: seq<Grant>)
    returns (a: Adding, d: Deleting, adds: seq<Entry>, gone: set<int>)
    requires ValidChain(c) && ':' !in user && ip == ListedForm(ip)
    requires forall d :: d in missing ==> d.ip == ip && d.user == user && d.group != ""
    ensures a == AddAll(Nothing(Tick(c)), missing)
    ensures d == DeleteAll(Deleting(a.host, 0, {}),
                           HandlesWhere(ListAll(c.prefix, UserRules(c, user)), StaleRule(c.prefix, user, ip, enabled)))
    ensures d.host.Nft? && UserPass(c, user, d.host.chain, adds, gone)
    ensures PassAdds(c, missing, adds, a.failedAdds)
    ensures PassGone(c, user, ip, enabled, d.failedDeletes, gone)
  {
    hide AddAll, DeleteAll, ListAll, HandlesWhere, UserPass, PassAdds, PassGone;
    a, adds := UserAdds(Tick(c), user, ip, missing);
    d, gone := StaleGo(c, user, ip, enabled, a, adds);
    UserPassFromParts(c, user, a, d, adds, gone);
    PassAddsFromParts(c, missing, a, adds);
  }

  lemma ReconcileIsAUserPass(c: Chain, user: string, ip: Source, enabled: PortMap, order: seq<string>, r: UserReport)
    returns (missing: seq<Grant>, adds: seq<Entry>, gone: set<int>)
    requires ValidChain(c) && !NextFails(c.faults) && ':' !in user && ip == ListedForm(ip)
    requires forall n :: n in order ==> n in enabled && n != ""
    requires r == SpecReconcile(c, user, ip, enabled, order)
    ensures missing == Missing(c.prefix, user, ip, enabled, order, ListAll(c.prefix, UserRules(c, user)))
    ensures UserPass(c, user, r.chain, adds, gone)
    ensures PassAdds(c, missing, adds, r.failedAdds)
    ensures PassGone(c, user, ip, enabled, r.failedDeletes, gone)
    ensures r.failed <==> r.failedAdds != {}
  {
    missing := Missing(c.prefix, user, ip, enabled, order, ListAll(c.prefix, UserRules(c, user)));
    var a, d;
    a, d, adds, gone := AddThenDelete(c, user, ip, enabled, missing);
  }

  // Whatever fails, every rule that is not a grouped rule of this user stays, in
  // place and in order.
  lemma OtherUsersUntouched(c: Chain, user: string, ip: Source, enabled: PortMap, order: seq<string>)
    requires ValidChain(c) && ':' !in user && ip == ListedForm(ip)
    requires forall n :: n in order ==> n in enabled && n != ""
    ensures var c2 := SpecReconcile(c, user, ip, enabled, order).chain;
            ValidChain(c2) && Keep(c2.rules, NotOfUser(c.prefix, user)) == Keep(c.rules, NotOfUser(c.prefix, user))
  {
    if !NextFails(c.faults) {
      var missing, adds, gone :=
        ReconcileIsAUserPass(c, user, ip, enabled, order, SpecReconcile(c, user, ip, enabled, order));
      UserPassKeepsOthers(c, user, adds, gone);
    }
  }

  lemma UserPassKeepsOthers(c: Chain, user: string, adds: seq<Entry>, gone: set<int>)
    requires forall e :: e in adds ==> OfUser(c.prefix, user)(e)
    requires forall e :: e in c.rules && e.handle in gone ==> OfUser(c.prefix, user)(e)
    ensures Keep(adds + Without(c.rules, gone), NotOfUser(c.prefix, user)) == Keep(c.rules, NotOfUser(c.prefix, user))
  {
    var others := NotOfUser(c.prefix, user);
    KeepConcat(adds, Without(c.rules, gone), others);
    KeepNone(adds, others);
    KeepCommutes(c.rules, HandleNotIn(gone), others);
    KeepAll(Keep(c.rules, others), HandleNotIn(gone));
  }

  // Whatever adds fail, a stale rule of the user stays only if its own delete failed.
  lemma StaleRulesGo(c: Chain, user: string, ip: Source, enabled: PortMap, order: seq<string>, e: Entry)
    requires ValidChain(c) && !NextFails(c.faults) && ':' !in user && ip == ListedForm(ip)
    requires forall n :: n in order ==> n in enabled && n != ""
    requires e in UserRules(c, user)
    ensures var r := SpecReconcile(c, user, ip, enabled, order);
            e in r.chain.rules <==>
            FreshEntry(c.prefix, user, ip, enabled)(e) || e.handle in Numbers(r.failedDeletes)
  {
    var r := SpecReconcile(c, user, ip, enabled, order);
    var missing, adds, gone := ReconcileIsAUserPass(c, user, ip, enabled, order, r);
    assert e in c.rules && e.handle < c.next;
    assert e in Without(c.rules, gone) <==> e.handle !in gone;
  }

  // Without failures: the user's grouped rules are the earlier ones at this
  // address for a group still enabled (whatever their port, and all copies),
  // behind one new rule for each enabled group that had none with its port.
  lemma ReconcileExactForUser(c: Chain, user: string, ip: Source, enabled: PortMap, order: seq<string>, r: UserReport)
    returns (adds: seq<Entry>)
    requires Healthy(c) && ':' !in user && Canonical(ip)
    requires forall n :: n in order <==> n in enabled
    requires forall n :: n in enabled ==> n != "" && ValidPort(enabled[n].port, enabled[n].proto)
    requires r == SpecReconcile(c, user, ip, enabled, order)
    ensures Healthy(r.chain) && r.chain.prefix == c.prefix && !r.failed
    ensures UserRules(r.chain, user) == adds + Keep(UserRules(c, user), FreshEntry(c.prefix, user, ip, enabled))
    ensures OneEach(c.prefix, adds)
    ensures forall g :: g in GrantsOf(c.prefix, adds) <==>
              g.group in enabled && g == WantedFor(user, ip, g.group, enabled[g.group]) &&
              !Exists(c.prefix, user, ListAll(c.prefix, UserRules(c, user)), g.At(), g.group)
  {
    var missing, gone;
    missing, adds, gone := ReconcileIsAUserPass(c, user, ip, enabled, order, r);
    assert r.failedAdds == {} by {
      assert forall d :: d in missing ==> Accepted(d);
    }
    UserRulesAfter(c, user, ip, enabled, r.chain, adds, gone);
  }

  lemma UserRulesAfter(c: Chain, user: string, ip: Source, enabled: PortMap, c2: Chain, adds: seq<Entry>, gone: set<int>)
    requires UserPass(c, user, c2, adds, gone) && PassGone(c, user, ip, enabled, {}, gone)
    ensures UserRules(c2, user) == adds + Keep(UserRules(c, user), FreshEntry(c.prefix, user, ip, enabled))
  {
    var mine := OfUser(c.prefix, user);
    KeepConcat(adds, Without(c.rules, gone), mine);
    KeepAll(adds, mine);
    KeepCommutes(c.rules, HandleNotIn(gone), mine);
    KeepSame(UserRules(c, user), HandleNotIn(gone), FreshEntry(c.prefix, user, ip, enabled));
  }

  // ---- RemoveUserRules ----

  function NotOwned(prefix: string, user: string): Entry -> bool {
    (e: Entry) => !(IsManaged(prefix)(e) && GrantOf(prefix, e).user == user)
  }

  lemma RemovesOwned(c: Chain, user: string, failed: set<Handle>, gone: set<int>, handles: seq<Handle>)
    requires ValidChain(c) && handles == HandlesWhere(ListAll(c.prefix, ManagedRules(c)), OwnedBy(user))
    requires gone == Numbers(SetOf(handles)) - Numbers(failed)
    ensures forall e :: e in c.rules ==> (e.handle in gone <==> !NotOwned(c.prefix, user)(e) && e.handle !in Numbers(failed))
  {
    KeepUnique(c.rules, IsManaged(c.prefix));
    HandlesWhereSelects(c.prefix, ManagedRules(c), OwnedBy(user));
    forall e | e in c.rules
      ensures e.handle in Numbers(SetOf(handles)) <==> !NotOwned(c.prefix, user)(e)
    {
      if e.handle in Numbers(SetOf(handles)) {
        var i :| 0 <= i < |ManagedRules(c)| && ManagedRules(c)[i].handle == e.handle;
        assert ManagedRules(c)[i] in ManagedRules(c);
        SameHandleSameEntry(c.rules, e, ManagedRules(c)[i]);
      }
    }
  }

  // All and only the managed rules of the user go, the others keeping their
  // order; one whose delete failed stays, and is reported.
  lemma RemoveUserRulesExact(c: Chain, user: string) returns (failed: set<Handle>)
    requires ValidChain(c) && !NextFails(c.faults)
    ensures var (c2, ok) := SpecRemoveUser(c, user);
            c2.prefix == c.prefix && ValidChain(c2) && (Healthy(c) ==> Healthy(c2) && failed == {}) && (ok <==> failed == {}) &&
            (forall e :: e in c2.rules <==> e in c.rules && (NotOwned(c.prefix, user)(e) || e.handle in Numbers(failed))) &&
            (ok ==> c2.rules == Keep(c.rules, NotOwned(c.prefix, user)))
  {
    var none := Sorting({}, {}, []);
    NothingAddedYet(Tick(c), none);
    var handles := HandlesWhere(ListAll(c.prefix, ManagedRules(c)), OwnedBy(user));
    KeepUnique(c.rules, IsManaged(c.prefix));
    HandlesWhereSelects(c.prefix, ManagedRules(c), OwnedBy(user));
    var gone := DeletingTheExtra(Tick(c), Sorting({}, {}, handles), Nothing(Tick(c)), []);
    var d := DeleteAll(Deleting(Nft(Tick(c)), 0, {}), handles);
    failed := d.failedDeletes;
    RemovesOwned(c, user, failed, gone, handles);
    assert [] + Without(c.rules, gone) == Without(c.rules, gone);
    if failed == {} {
      KeepSame(c.rules, HandleNotIn(gone), NotOwned(c.prefix, user));
    }
  }

  // ---- the program ----

  lemma {:induction false} HaveIsWanted(a: Adding, desired: seq<Grant>)
    requires a.host.Nft?
    ensures AddAll(a, desired).have == a.have + Wanted(desired)
    decreases |desired|
  {
    if desired != [] {
      HaveIsWanted(AddOne(a, desired[0]), desired[1..]);
    }
  }

  lemma MissingMore(prefix: string, user: string, ip: Source, enabled: PortMap, order: seq<string>, rules: seq<Rule>, group: string)
    requires group in enabled && forall n :: n in order ==> n in enabled
    ensures var d := WantedFor(user, ip, group, enabled[group]);
            var missing := Missing(prefix, user, ip, enabled, order, rules);
            Missing(prefix, user, ip, enabled, order + [group], rules)
            == if Exists(prefix, user, rules, d.At(), group) then missing else missing + [d]
  {
    assert (order + [group])[..|order|] == order;
  }

  lemma NotYetAsked(a: Adding, desired: seq<Grant>, d: Grant)
    requires a.host.Nft? && a.have == {} && forall x :: x in desired ==> x.group != d.group
    ensures d !in AddAll(a, desired).have
  {
    HaveIsWanted(a, desired);
  }

  lemma {:induction false} FailedWasAsked(a: Adding, desired: seq<Grant>)
    requires a.host.Nft? && a.failedAdds == {}
    ensures AddAll(a, desired).failedAdds <= Wanted(desired)
    decreases |desired|
  {
    if desired != [] {
      var front, last := desired[..|desired| - 1], desired[|desired| - 1];
      assert desired == front + [last];
      FailedWasAsked(a, front);
      AddOneMore(a, front, last);
    }
  }

  // One addition more, spelt out.
  lemma AskOneMore(start: Adding, missing: seq<Grant>, d: Grant)
    requires start.host.Nft? && start.have == {} && start.failedAdds == {} && forall x :: x in missing ==> x.group != d.group
    ensures AddAll(start, missing + [d]) == AddOne(AddAll(start, missing), d)
    ensures var a, b := AddAll(start, missing), AddOne(AddAll(start, missing), d);
            a.host.Nft? && b.host == Nft(SpecAdd(a.host.chain, d).0) && a.failedAdds <= Wanted(missing) &&
            b.failedAdds == (if SpecAdd(a.host.chain, d).1.Failed? then a.failedAdds + {d} else a.failedAdds)
  {
    AddOneMore(start, missing, d);
    NotYetAsked(start, missing, d);
    AddAllNft(start, missing);
    FailedWasAsked(start, missing);
  }

  lemma {:induction false} OtherFailure(missing: seq<Grant>, failed: set<Grant>, d: Grant)
    requires d !in missing
    ensures GroupsAdded(missing, failed + {d}) == GroupsAdded(missing, failed)
  {
    if missing != [] {
      OtherFailure(missing[..|missing| - 1], failed, d);
    }
  }

  lemma GroupsAddedMore(missing: seq<Grant>, failed: set<Grant>, d: Grant)
    requires failed <= Wanted(missing) && forall x :: x in missing ==> x.group != d.group
    ensures GroupsAdded(missing + [d], failed) == GroupsAdded(missing, failed) + [d.group]
    ensures GroupsAdded(missing + [d], failed + {d}) == GroupsAdded(missing, failed)
  {
    assert (missing + [d])[..|missing|] == missing;
    OtherFailure(missing, failed, d);
  }

  lemma AddOneMore(a: Adding, desired: seq<Grant>, d: Grant)
    ensures AddAll(a, desired + [d]) == AddOne(AddAll(a, desired), d)
  {
    AddAllConcat(a, desired, [d]);
    assert [d][1..] == [];
  }

  lemma DeleteOneMore(d: Deleting, handles: seq<Handle>, h: Handle)
    ensures DeleteAll(d, handles + [h]) == DeleteOne(DeleteAll(d, handles), h)
  {
    DeleteAllConcat(d, handles, [h]);
    assert [h][1..] == [];
  }

  predicate DistinctRules(rules: seq<Rule>) {
    forall i, j :: 0 <= i < j < |rules| ==> rules[i].handle != rules[j].handle
  }

  predicate NoHandle(rules: seq<Rule>, h: Handle) {
    forall i :: 0 <= i < |rules| ==> rules[i].handle != h
  }

  lemma {:induction false} OtherDeleteFails(prefix: string, user: string, rules: seq<Rule>, p: Rule -> bool, failed: set<Handle>, h: Handle)
    requires NoHandle(rules, h)
    ensures GroupsRemoved(prefix, user, rules, p, failed + {h}) == GroupsRemoved(prefix, user, rules, p, failed)
  {
    if rules != [] {
      OtherDeleteFails(prefix, user, rules[..|rules| - 1], p, failed, h);
    }
  }

  // One rule more of the deleting loop.
  lemma RemovedOneMore(prefix: string, user: string, rules: seq<Rule>, i: nat, p: Rule -> bool, failed: set<Handle>)
    requires i < |rules| && DistinctRules(rules) && forall h :: h in failed ==> !NoHandle(rules[..i], h)
    ensures NoHandle(rules[..i], rules[i].handle)
    ensures var before, h := GroupsRemoved(prefix, user, rules[..i], p, failed), rules[i].handle;
            GroupsRemoved(prefix, user, rules[..i + 1], p, failed)
            == (if p(rules[i]) then before + [GroupOf(prefix, user, rules[i])] else before) &&
            GroupsRemoved(prefix, user, rules[..i + 1], p, failed + {h}) == before
    ensures HandlesWhere(rules[..i + 1], p) == HandlesWhere(rules[..i], p) + if p(rules[i]) then [rules[i].handle] else []
  {
    assert rules[..i + 1][..i] == rules[..i];
    OtherDeleteFails(prefix, user, rules[..i], p, failed, rules[i].handle);
  }

  // A handle met before is met again among more rules.
  lemma StillMet(rules: seq<Rule>, i: nat, h: Handle)
    requires i < |rules| && (!NoHandle(rules[..i], h) || rules[i].handle == h)
    ensures !NoHandle(rules[..i + 1], h)
  {
    if rules[i].handle == h {
      assert rules[..i + 1][i].handle == h;
    } else {
      var j :| 0 <= j < i && rules[..i][j].handle == h;
      assert rules[..i + 1][j].handle == h;
    }
  }

  // The first i rules are dealt with: what is deleted, reported and failed so far.
  predicate Trimmed(prefix: string, user: string, rules: seq<Rule>, i: nat, p: Rule -> bool,
                    start: Deleting, d: Deleting, removed: seq<string>)
    requires i <= |rules|
  {
    d == DeleteAll(start, HandlesWhere(rules[..i], p)) &&
    (forall h :: h in d.failedDeletes ==> !NoHandle(rules[..i], h)) &&
    removed == GroupsRemoved(prefix, user, rules[..i], p, d.failedDeletes)
  }

  lemma TrimmedNext(prefix: string, user: string, rules: seq<Rule>, i: nat, p: Rule -> bool,
                    start: Deleting, d: Deleting, removed: seq<string>)
    requires i < |rules| && DistinctRules(rules) && Trimmed(prefix, user, rules, i, p, start, d, removed)
    ensures var r, d2 := rules[i], DeleteOne(d, rules[i].handle);
            var more := if Delete(d.host, r.handle).1 then [GroupOf(prefix, user, r)] else [];
            if p(r) then Trimmed(prefix, user, rules, i + 1, p, start, d2, removed + more)
            else Trimmed(prefix, user, rules, i + 1, p, start, d, removed)
  {
    var r := rules[i];
    var failed := d.failedDeletes;
    RemovedOneMore(prefix, user, rules, i, p, failed);
    forall h | h in failed + {r.handle}
      ensures !NoHandle(rules[..i + 1], h)
    {
      StillMet(rules, i, h);
    }
    var handles := HandlesWhere(rules[..i], p);
    assert handles + [] == handles && removed + [] == removed;
    DeleteOneMore(start, handles, r.handle);
  }

  class Manager {
    const be: NB.NftBackend

    constructor (be: NB.NftBackend)
      ensures this.be == be
    {
      this.be := be;
    }

    // The deleting loop of Reconcile and RemoveUserRules.
    method DeleteWhere(user: string, rules: seq<Rule>, p: Rule -> bool) returns (removed: seq<string>, ok: bool, ghost d: Deleting)
      requires be.Valid() && DistinctRules(rules)
      modifies be
      ensures be.Valid()
      ensures d == DeleteAll(Deleting(Nft(old(be.kernel)), 0, {}), HandlesWhere(rules, p))
      ensures d.host == Nft(be.kernel) && ok == (d.failedDeletes == {})
      ensures removed == GroupsRemoved(be.prefix, user, rules, p, d.failedDeletes)
    {
      ghost var start := Deleting(Nft(be.kernel), 0, {});
      d := start;
      removed, ok := [], true;
      for i := 0 to |rules|
        invariant be.Valid()
        invariant d.host == Nft(be.kernel) && ok == (d.failedDeletes == {})
        invariant Trimmed(be.prefix, user, rules, i, p, start, d, removed)
      {
        var r := rules[i];
        TrimmedNext(be.prefix, user, rules, i, p, start, d, removed);
        if !p(r) {
          continue;
        }
        d := DeleteOne(d, r.handle);
        var deleted := be.DeleteByHandle(r.handle);
        if deleted {
          removed := removed + [GroupOf(be.prefix, user, r)];
        } else {
          ok := false;
        }
      }
      assert rules[..|rules|] == rules;
    }

    // The adding loop of Reconcile, over a map: in whatever order.
    method AddMissing(user: string, ip: Source, enabled: PortMap, existing: set<(Endpoint, string)>, ghost rules: seq<Rule>)
      returns (added: seq<string>, failed: bool, ghost order: seq<string>, ghost a: Adding)
      requires be.Valid()
      requires forall at, group :: (at, group) in existing <==> Exists(be.prefix, user, rules, at, group)
      modifies be
      ensures be.Valid()
      ensures forall n :: n in order <==> n in enabled
      ensures a == AddAll(Nothing(old(be.kernel)), Missing(be.prefix, user, ip, enabled, order, rules))
      ensures a.host == Nft(be.kernel) && failed == (a.failedAdds != {})
      ensures added == GroupsAdded(Missing(be.prefix, user, ip, enabled, order, rules), a.failedAdds)
    {
      ghost var start := Nothing(be.kernel);
      ghost var missing: seq<Grant> := [];
      added, failed, order := [], false, [];
      a := start;
      var todo := enabled.Keys;
      while todo != {}
        invariant be.Valid()
        invariant todo <= enabled.Keys
        invariant forall n :: n in order <==> n in enabled && n !in todo
        invariant missing == Missing(be.prefix, user, ip, enabled, order, rules)
        invariant a == AddAll(start, missing)
        invariant a.host == Nft(be.kernel) && failed == (a.failedAdds != {})
        invariant added == GroupsAdded(missing, a.failedAdds)
      {
        var group :| group in todo;
        var pp := enabled[group];
        var d := WantedFor(user, ip, group, pp);
        MissingMore(be.prefix, user, ip, enabled, order, rules, group);
        if (d.At(), group) !in existing {
          AskOneMore(start, missing, d);
          GroupsAddedMore(missing, a.failedAdds, d);
          a := AddOne(a, d);
          missing := missing + [d];
          var outcome := be.AddRule(d);
          if outcome.Failed? {
            failed := true;
          } else {
            added := added + [group];
          }
        }
        order := order + [group];
        todo := todo - {group};
      }
    }

    method Reconcile(user: string, ip: Source, enabled: PortMap)
      returns (added: seq<string>, removed: seq<string>, failed: bool, ghost order: seq<string>)
      requires be.Valid()
      modifies be
      ensures be.Valid()
      ensures forall n :: n in order <==> n in enabled
      ensures be.kernel == SpecReconcile(old(be.kernel), user, ip, enabled, order).chain
      ensures added == SpecReconcile(old(be.kernel), user, ip, enabled, order).added
      ensures removed == SpecReconcile(old(be.kernel), user, ip, enabled, order).removed
      ensures failed == SpecReconcile(old(be.kernel), user, ip, enabled, order).failed
    {
      ghost var a: Adding, d: Deleting;
      KeepUnique(be.kernel.rules, OfUser(be.prefix, user));
      var listing := be.ListUserRules(user);
      if listing == None {
        order := EnumerateKeys(enabled);
        return [], [], true, order;
      }
      var rules := listing.value;
      var existing: set<(Endpoint, string)> := {};
      for i := 0 to |rules|
        invariant forall at, group :: (at, group) in existing <==> Exists(be.prefix, user, rules[..i], at, group)
        invariant be.Valid() && be.kernel == SpecList(old(be.kernel), OfUser(be.prefix, user)).0
      {
        existing := existing + {(rules[i].grant.At(), GroupOf(be.prefix, user, rules[i]))};
        ExistsOneMore(be.prefix, user, rules, i);
      }
      assert rules[..|rules|] == rules;
      added, failed, order, a := AddMissing(user, ip, enabled, existing, rules);
      var deleted;
      removed, deleted, d := DeleteWhere(user, rules, StaleRule(be.prefix, user, ip, enabled));
    }

    method RemoveUserRules(user: string) returns (ok: bool)
      requires be.Valid()
      modifies be
      ensures be.Valid()
      ensures be.kernel == SpecRemoveUser(old(be.kernel), user).0
      ensures ok == SpecRemoveUser(old(be.kernel), user).1
    {
      KeepUnique(be.kernel.rules, IsManaged(be.prefix));
      var listing := be.ListManaged();
      if listing == None {
        return false;
      }
      var removed;
      ghost var d;
      removed, ok, d := DeleteWhere(user, listing.value, OwnedBy(user));
    }
  }

  lemma ExistsOneMore(prefix: string, user: string, rules: seq<Rule>, i: nat)
    requires i < |rules|
    ensures forall at, group :: Exists(prefix, user, rules[..i + 1], at, group) <==>
              Exists(prefix, user, rules[..i], at, group) ||
              (rules[i].grant.At() == at && GroupOf(prefix, user, rules[i]) == group)
  {
    var before, after := rules[..i], rules[..i + 1];
    forall at, group
      ensures Exists(prefix, user, after, at, group) <==>
              Exists(prefix, user, before, at, group) ||
              (rules[i].grant.At() == at && GroupOf(prefix, user, rules[i]) == group)
    {
      if j :| 0 <= j < |before| && before[j].grant.At() == at && GroupOf(prefix, user, before[j]) == group {
        assert after[j] == before[j];
      }
      if j :| 0 <= j < |after| && after[j].grant.At() == at && GroupOf(prefix, user, after[j]) == group {
        assert j < i ==> before[j] == after[j];
      }
      assert after[i] == rules[i];
    }
  }

  // Some order of a map's keys.
  lemma EnumerateKeys(enabled: PortMap) returns (order: seq<string>)
    ensures forall n :: n in order <==> n in enabled
  {
    order := [];
    var todo := enabled.Keys;
    while todo != {}
      invariant todo <= enabled.Keys
      invariant forall n :: n in order <==> n in enabled && n !in todo
    {
      var n :| n in todo;
      order := order + [n];
      todo := todo - {n};
    }
  }
}
