// nft-okboy's one base chain in the kernel, and what each backend operation
// makes of it.  Every nft invocation takes its fate from the head of `faults`.
module NftChain {
  import opened Net
  import opened Seqs
  import opened Comments
  import opened GuardLayout

  // The three rule shapes the backend writes (AddRule, guardRule).
  datatype Body =
    | Allow(ip: Source, port: int, proto: Proto)
    | Loopback
    | DropNew(port: int, proto: Proto)

  datatype Entry = Entry(handle: int, comment: string, body: Body)

  // `present`: the table and chain exist (a flush removes them with their rules).
  datatype Chain = Chain(prefix: string, present: bool, rules: seq<Entry>, next: int, faults: seq<bool>)

  predicate UniqueHandles(rules: seq<Entry>) {
    forall i, j :: 0 <= i < j < |rules| ==> rules[i].handle != rules[j].handle
  }

  predicate Below(rules: seq<Entry>, next: int) {
    forall e :: e in rules ==> e.handle < next
  }

  // The kernel numbers rules upwards and never twice.
  predicate ValidChain(c: Chain) {
    UniqueHandles(c.rules) && Below(c.rules, c.next) && (!c.present ==> c.rules == [])
  }

  // Nothing fails from here on.
  predicate Healthy(c: Chain) {
    ValidChain(c) && c.present && FailureFree(c.faults)
  }

  // ---- selections ----

  function IsManaged(prefix: string): Entry -> bool {
    (e: Entry) => HasPrefix(e.comment, prefix + ":")
  }

  function OfUser(prefix: string, user: string): Entry -> bool {
    (e: Entry) => HasPrefix(e.comment, UserPrefix(prefix, user))
  }

  function IsGuard(prefix: string): Entry -> bool {
    (e: Entry) => e.comment == GuardComment(prefix)
  }

  function NotGuard(prefix: string): Entry -> bool {
    (e: Entry) => e.comment != GuardComment(prefix)
  }

  function HandleNotIn(handles: set<int>): Entry -> bool {
    (e: Entry) => e.handle !in handles
  }

  function Without(rules: seq<Entry>, handles: set<int>): seq<Entry> {
    Keep(rules, HandleNotIn(handles))
  }

  // ---- what a listing shows of an entry (parseExpr) ----

  function ListedPort(b: Body): PortProto {
    match b
    case Allow(_, port, proto) => PortProto(port, proto)
    case Loopback => PortProto(0, OtherProto(""))
    case DropNew(port, proto) => PortProto(port, proto)
  }

  function ListedIP(b: Body): Source {
    match b
    case Allow(ip, _, _) => ip
    case Loopback => NotAnIP("")
    case DropNew(_, _) => NotAnIP("")
  }

  function GrantOf(prefix: string, e: Entry): Grant {
    var (user, group) := SplitComment(prefix, e.comment);
    Grant(ListedIP(e.body), ListedPort(e.body).port, ListedPort(e.body).proto, user, group)
  }

  function Listed(prefix: string, e: Entry): Rule {
    Rule(Number(e.handle), GrantOf(prefix, e), e.comment)
  }

  function ListAll(prefix: string, rules: seq<Entry>): (r: seq<Rule>)
    ensures |r| == |rules|
    ensures forall i :: 0 <= i < |r| ==> r[i] == Listed(prefix, rules[i])
  {
    seq(|rules|, i requires 0 <= i < |rules| => Listed(prefix, rules[i]))
  }

  lemma ListAllMore(prefix: string, rules: seq<Entry>, e: Entry)
    ensures ListAll(prefix, rules + [e]) == ListAll(prefix, rules) + [Listed(prefix, e)]
  {
  }

  // ---- the operations ----

  function Tick(c: Chain): Chain {
    c.(faults := Later(c.faults))
  }

  predicate WriteFails(c: Chain) {
    !c.present || NextFails(c.faults)
  }

  function SpecEnsureBase(c: Chain): (Chain, bool) {
    if NextFails(c.faults) then (Tick(c), false) else (Tick(c).(present := true), true)
  }

  // A read of a missing chain lists nothing, which is no error.
  function SpecList(c: Chain, select: Entry -> bool): (Chain, Option<seq<Rule>>) {
    (Tick(c), if NextFails(c.faults) then None else Some(ListAll(c.prefix, Keep(c.rules, select))))
  }

  // The entry AddRule writes for g.
  function AllowEntry(c: Chain, g: Grant): Entry {
    Entry(c.next, CommentFor(c.prefix, g.user, g.group), Allow(ListedForm(g.ip), g.port, g.proto))
  }

  // Inserted at the head: before the guard at the tail.
  function Inserted(c: Chain, g: Grant): Chain {
    c.(rules := [AllowEntry(c, g)] + c.rules, next := c.next + 1)
  }

  function SpecAdd(c: Chain, g: Grant): (Chain, Outcome) {
    if !CheckRule(g.ip, g.port, g.proto) then (c, Failed(Refused))
    else if WriteFails(c) then (Tick(c), Failed(CommandFailed))
    else (Inserted(Tick(c), g), Done)
  }

  predicate HasHandle(rules: seq<Entry>, h: Handle) {
    h.Number? && exists i :: 0 <= i < |rules| && rules[i].handle == h.n
  }

  // Deleting a handle that is not there is an error in nft.
  function SpecDelete(c: Chain, h: Handle): (Chain, bool) {
    if WriteFails(c) || !HasHandle(c.rules, h) then (Tick(c), false)
    else (Tick(c).(rules := Without(c.rules, {h.n})), true)
  }

  // The first listed rule with exactly this match and comment.
  function FirstMatch(listed: seq<Rule>, at: Endpoint, comment: string): Option<Handle> {
    if listed == [] then None
    else if listed[0].grant.At() == at && listed[0].comment == comment then Some(listed[0].handle)
    else FirstMatch(listed[1..], at, comment)
  }

  function SpecRemove(c: Chain, g: Grant): (Chain, bool) {
    var (c1, listing) := SpecList(c, OfUser(c.prefix, g.user));
    match listing
    case None => (c1, false)
    case Some(rules) =>
      match FirstMatch(rules, g.At(), CommentFor(c.prefix, g.user, g.group))
      case None => (c1, true)
      case Some(h) => SpecDelete(c1, h)
  }

  // ---- the guard ----

  function GuardBody(p: PortProto): Body {
    if p.port == 0 then Loopback else DropNew(p.port, p.proto)
  }

  function GuardEntries(prefix: string, want: seq<PortProto>, next: int): (r: seq<Entry>)
    ensures |r| == |want|
    ensures forall i :: 0 <= i < |r| ==> r[i] == Entry(next + i, GuardComment(prefix), GuardBody(want[i]))
  {
    seq(|want|, i requires 0 <= i < |want| => Entry(next + i, GuardComment(prefix), GuardBody(want[i])))
  }

  predicate AtTail(rules: seq<Entry>, guard: seq<Entry>, want: seq<PortProto>)
    requires |guard| <= |rules|
  {
    |guard| == |want| &&
    var tail := rules[|rules| - |guard|..];
    forall i :: 0 <= i < |guard| ==>
      tail[i].handle == guard[i].handle && ListedPort(tail[i].body) == want[i]
  }

  // Rewritten in one transaction, unless the tail already matches.
  function SpecSyncGuard(c: Chain, ports: seq<PortProto>): (Chain, bool) {
    var want := Layout(ports);
    var c1 := Tick(c);
    if NextFails(c.faults) then (c1, false)
    else if AtTail(c.rules, Keep(c.rules, IsGuard(c.prefix)), want) then (c1, true)
    else if WriteFails(c1) then (Tick(c1), false)
    else (Tick(c1).(rules := Keep(c.rules, NotGuard(c.prefix)) + GuardEntries(c.prefix, want, c.next),
                    next := c.next + |want|), true)
  }

  // ---- laws of the selections ----

  lemma {:induction false} WithoutOne(rules: seq<Entry>, handles: set<int>, h: int)
    ensures Without(Without(rules, handles), {h}) == Without(rules, handles + {h})
  {
    KeepBoth(rules, HandleNotIn(handles), HandleNotIn({h}), HandleNotIn(handles + {h}));
  }

  lemma WithoutNone(rules: seq<Entry>)
    ensures Without(rules, {}) == rules
  {
    KeepAll(rules, HandleNotIn({}));
  }

  lemma {:induction false} KeepUnique(rules: seq<Entry>, p: Entry -> bool)
    requires UniqueHandles(rules)
    ensures UniqueHandles(Keep(rules, p))
  {
    if rules != [] {
      var rest := rules[1..];
      KeepUnique(rest, p);
      var r := Keep(rest, p);
      forall j | 0 <= j < |r|
        ensures r[j].handle != rules[0].handle
      {
        assert r[j] in r;
        var k :| 0 <= k < |rest| && rest[k] == r[j];
        assert rules[k + 1] == r[j];
      }
    }
  }

  lemma UniqueConcat(a: seq<Entry>, b: seq<Entry>)
    requires UniqueHandles(a) && UniqueHandles(b)
    requires forall x, y :: x in a && y in b ==> x.handle != y.handle
    ensures UniqueHandles(a + b)
  {
    var s := a + b;
    forall i, j | 0 <= i < j < |s|
      ensures s[i].handle != s[j].handle
    {
      if i < |a| && |a| <= j {
        assert s[i] in a && s[j] in b;
      }
    }
  }

  // Under unique handles an entry is its handle.
  lemma SameHandleSameEntry(rules: seq<Entry>, x: Entry, y: Entry)
    requires UniqueHandles(rules) && x in rules && y in rules && x.handle == y.handle
    ensures x == y
  {
    var i :| 0 <= i < |rules| && rules[i] == x;
    var j :| 0 <= j < |rules| && rules[j] == y;
    assert i == j;
  }

  // Deleting the handles of a selection leaves exactly the other entries.
  lemma DropSelected(rules: seq<Entry>, p: Entry -> bool, notp: Entry -> bool, handles: set<int>)
    requires UniqueHandles(rules)
    requires forall e :: notp(e) == !p(e)
    requires forall h :: h in handles <==> exists e :: e in Keep(rules, p) && e.handle == h
    ensures Without(rules, handles) == Keep(rules, notp)
  {
    forall e | e in rules
      ensures HandleNotIn(handles)(e) == notp(e)
    {
      if e.handle in handles {
        var x :| x in Keep(rules, p) && x.handle == e.handle;
        SameHandleSameEntry(rules, e, x);
      } else if p(e) {
        assert e in Keep(rules, p);
      }
    }
    KeepSame(rules, HandleNotIn(handles), notp);
  }

  // ---- every operation keeps the chain valid, and healthy ones succeed ----

  lemma AddKeepsValid(c: Chain, g: Grant)
    requires ValidChain(c)
    ensures ValidChain(SpecAdd(c, g).0)
    ensures Healthy(c) ==> Healthy(SpecAdd(c, g).0) && (SpecAdd(c, g).1.Done? <==> CheckRule(g.ip, g.port, g.proto))
  {
    if SpecAdd(c, g).1.Done? {
      UniqueConcat([AllowEntry(Tick(c), g)], c.rules);
    }
  }

  lemma DeleteKeepsValid(c: Chain, h: Handle)
    requires ValidChain(c)
    ensures ValidChain(SpecDelete(c, h).0)
    ensures Healthy(c) ==> Healthy(SpecDelete(c, h).0) && (SpecDelete(c, h).1 <==> HasHandle(c.rules, h))
  {
    if SpecDelete(c, h).1 {
      KeepUnique(c.rules, HandleNotIn({h.n}));
    }
  }

  lemma GuardEntriesUnique(prefix: string, want: seq<PortProto>, next: int)
    ensures UniqueHandles(GuardEntries(prefix, want, next))
    ensures Below(GuardEntries(prefix, want, next), next + |want|)
    ensures forall e :: e in GuardEntries(prefix, want, next) ==> e.handle >= next
  {
  }

  lemma SyncKeepsValid(c: Chain, ports: seq<PortProto>)
    requires ValidChain(c)
    ensures ValidChain(SpecSyncGuard(c, ports).0)
    ensures Healthy(c) ==> Healthy(SpecSyncGuard(c, ports).0) && SpecSyncGuard(c, ports).1
  {
    var want := Layout(ports);
    KeepUnique(c.rules, NotGuard(c.prefix));
    GuardEntriesUnique(c.prefix, want, c.next);
    UniqueConcat(Keep(c.rules, NotGuard(c.prefix)), GuardEntries(c.prefix, want, c.next));
  }

  // ---- what a listing shows of a rule AddRule wrote ----

  // A grant that is listed back as it was added: one canonical-form literal, and
  // a user name a comment can carry.
  predicate ListsBack(g: Grant) {
    g.ip == ListedForm(g.ip) && ':' !in g.user
  }

  lemma AddedGrant(c: Chain, g: Grant)
    ensures IsManaged(c.prefix)(AllowEntry(c, g))
    ensures GrantOf(c.prefix, AllowEntry(c, g)) == g <==> ListsBack(g)
    ensures AllowEntry(c, g).comment != GuardComment(c.prefix)
  {
    SplitInvertsComment(c.prefix, g.user, g.group);
    GuardIsNeverManaged(c.prefix);
  }

  // ---- the guard theorem ----

  // The guard is exactly the layout of `ports`, at the end of the chain.
  predicate GuardIs(c: Chain, ports: seq<PortProto>) {
    var guard := Keep(c.rules, IsGuard(c.prefix));
    AtTail(c.rules, guard, Layout(ports))
  }

  // A matching tail consists of the guard rules, all of them, in order.
  lemma TailIsGuard(c: Chain, want: seq<PortProto>)
    requires ValidChain(c)
    requires AtTail(c.rules, Keep(c.rules, IsGuard(c.prefix)), want)
    ensures c.rules == Keep(c.rules, NotGuard(c.prefix)) + Keep(c.rules, IsGuard(c.prefix))
    ensures forall i :: 0 <= i < |want| ==> ListedPort(Keep(c.rules, IsGuard(c.prefix))[i].body) == want[i]
  {
    var isG, notG := IsGuard(c.prefix), NotGuard(c.prefix);
    var guard := Keep(c.rules, isG);
    var n := |c.rules| - |guard|;
    var front, tail := c.rules[..n], c.rules[n..];
    assert c.rules == front + tail;
    forall i | 0 <= i < |tail|
      ensures tail[i] == guard[i]
    {
      assert guard[i] in guard;
      assert tail[i] in c.rules;
      SameHandleSameEntry(c.rules, tail[i], guard[i]);
    }
    assert tail == guard;
    SelectionAtTail(front, tail, isG, notG);
  }

  // Conversely, guard entries in layout order behind everything else are at the tail.
  lemma GuardTailFormed(c: Chain, others: seq<Entry>, guard: seq<Entry>, want: seq<PortProto>)
    requires c.rules == others + guard && |guard| == |want|
    requires forall e :: e in others ==> NotGuard(c.prefix)(e)
    requires forall i :: 0 <= i < |guard| ==> IsGuard(c.prefix)(guard[i]) && ListedPort(guard[i].body) == want[i]
    ensures Keep(c.rules, IsGuard(c.prefix)) == guard
    ensures AtTail(c.rules, guard, want)
  {
    KeepConcat(others, guard, IsGuard(c.prefix));
    KeepNone(others, IsGuard(c.prefix));
    KeepAll(guard, IsGuard(c.prefix));
    assert c.rules[|c.rules| - |guard|..] == guard;
  }

  lemma GuardBodyListed(ports: seq<PortProto>, i: int)
    requires 0 <= i < |Layout(ports)|
    ensures ListedPort(GuardBody(Layout(ports)[i])) == Layout(ports)[i]
  {
    if i > 0 {
      assert Layout(ports)[i] == Drops(ports)[i - 1];
      assert Drops(ports)[i - 1] in Drops(ports);
    }
  }

  // After a successful SyncGuard: the other rules, in their order, then the
  // guard as laid out for `ports`.
  lemma SyncGuardLaysOut(c: Chain, ports: seq<PortProto>)
    requires ValidChain(c) && SpecSyncGuard(c, ports).1
    ensures var c2 := SpecSyncGuard(c, ports).0;
            GuardIs(c2, ports) && c2.prefix == c.prefix
    ensures var c2 := SpecSyncGuard(c, ports).0;
            Keep(c2.rules, NotGuard(c.prefix)) == Keep(c.rules, NotGuard(c.prefix))
    ensures var c2 := SpecSyncGuard(c, ports).0;
            c2.rules == Keep(c.rules, NotGuard(c.prefix)) + Keep(c2.rules, IsGuard(c.prefix))
  {
    var want := Layout(ports);
    var c2 := SpecSyncGuard(c, ports).0;
    var others := Keep(c.rules, NotGuard(c.prefix));
    if AtTail(c.rules, Keep(c.rules, IsGuard(c.prefix)), want) {
      TailIsGuard(c, want);
    } else {
      var guard := GuardEntries(c.prefix, want, c.next);
      forall i | 0 <= i < |guard|
        ensures ListedPort(guard[i].body) == want[i]
      {
        GuardBodyListed(ports, i);
      }
      GuardTailFormed(c2, others, guard, want);
      KeepConcat(others, guard, NotGuard(c.prefix));
      KeepAll(others, NotGuard(c.prefix));
      KeepNone(guard, NotGuard(c.prefix));
    }
  }

  // Asked again, for any list with the same valid ports, it changes nothing.
  lemma SyncGuardIdempotent(c: Chain, ports: seq<PortProto>, again: seq<PortProto>)
    requires ValidChain(c) && GuardIs(c, ports) && SameValidPorts(ports, again)
    ensures SpecSyncGuard(c, again).0 == Tick(c)
  {
    LayoutIsTheSet(ports, again);
  }

  lemma TailOfConcat(a: seq<Entry>, b: seq<Entry>, n: nat)
    requires n <= |b|
    ensures (a + b)[|a + b| - n..] == b[|b| - n..]
  {
  }

  lemma PrependKeepsGuard(c: Chain, c2: Chain, adds: seq<Entry>, ports: seq<PortProto>)
    requires GuardIs(c, ports) && forall e :: e in adds ==> !IsGuard(c.prefix)(e)
    requires c2.prefix == c.prefix && c2.rules == adds + c.rules
    ensures GuardIs(c2, ports) && Keep(c2.rules, IsGuard(c.prefix)) == Keep(c.rules, IsGuard(c.prefix))
  {
    var p := IsGuard(c.prefix);
    KeepConcat(adds, c.rules, p);
    KeepNone(adds, p);
    assert Keep(c2.rules, p) == Keep(c.rules, p);
    TailOfConcat(adds, c.rules, |Keep(c.rules, p)|);
  }

  // AddRule keeps the guard at the tail, in place and unchanged.
  lemma AddKeepsGuard(c: Chain, g: Grant, ports: seq<PortProto>)
    requires ValidChain(c) && GuardIs(c, ports)
    ensures GuardIs(SpecAdd(c, g).0, ports)
    ensures Keep(SpecAdd(c, g).0.rules, IsGuard(c.prefix)) == Keep(c.rules, IsGuard(c.prefix))
  {
    if SpecAdd(c, g).1.Done? {
      AddedGrant(Tick(c), g);
      PrependKeepsGuard(c, SpecAdd(c, g).0, [AllowEntry(Tick(c), g)], ports);
    }
  }

  // So does deleting any set of rules that holds no guard rule.
  lemma WithoutKeepsGuard(c: Chain, handles: set<int>, ports: seq<PortProto>)
    requires ValidChain(c) && GuardIs(c, ports)
    requires forall e :: e in c.rules && IsGuard(c.prefix)(e) ==> e.handle !in handles
    ensures GuardIs(c.(rules := Without(c.rules, handles)), ports)
    ensures Keep(Without(c.rules, handles), IsGuard(c.prefix)) == Keep(c.rules, IsGuard(c.prefix))
  {
    hide ValidChain, Layout;
    var want := Layout(ports);
    TailIsGuard(c, want);
    var others, guard := Keep(c.rules, NotGuard(c.prefix)), Keep(c.rules, IsGuard(c.prefix));
    KeepConcat(others, guard, HandleNotIn(handles));
    KeepAll(guard, HandleNotIn(handles));
    GuardTailFormed(c.(rules := Without(c.rules, handles)), Without(others, handles), guard, want);
  }
}
