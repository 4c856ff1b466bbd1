// The nftables backend (internal/firewall/nft.go): the Go methods, running nft
// transactions against the kernel's chain, proved to be the operations of
// NftChain.
module NftBackend {
  import opened Net
  import opened Seqs
  import opened Comments
  import opened GuardLayout
  import opened NftChain

  // One command of an nft JSON program.
  datatype Command =
    | CreateBase
    | InsertRule(comment: string, body: Body)
    | AppendRule(comment: string, body: Body)
    | DeleteRule(handle: Handle)

  function Apply1(c: Chain, cmd: Command): Option<Chain> {
    match cmd
    case CreateBase => Some(c.(present := true))
    case InsertRule(comment, body) =>
      if !c.present then None
      else Some(c.(rules := [Entry(c.next, comment, body)] + c.rules, next := c.next + 1))
    case AppendRule(comment, body) =>
      if !c.present then None
      else Some(c.(rules := c.rules + [Entry(c.next, comment, body)], next := c.next + 1))
    case DeleteRule(h) =>
      if !c.present || !HasHandle(c.rules, h) then None
      else Some(c.(rules := Without(c.rules, {h.n})))
  }

  // All commands in order, or (the transaction being atomic) none of them.
  function Apply(c: Chain, cmds: seq<Command>): Option<Chain>
    decreases |cmds|
  {
    if cmds == [] then Some(c)
    else
      match Apply1(c, cmds[0])
      case None => None
      case Some(c1) => Apply(c1, cmds[1..])
  }

  lemma {:induction false} ApplyConcat(c: Chain, a: seq<Command>, b: seq<Command>)
    ensures Apply(c, a + b) == match Apply(c, a) case None => None case Some(c1) => Apply(c1, b)
    decreases |a|
  {
    if a == [] {
      assert a + b == b;
    } else {
      assert (a + b)[1..] == a[1..] + b;
      match Apply1(c, a[0])
      case None =>
      case Some(c1) => ApplyConcat(c1, a[1..], b);
    }
  }

  lemma ApplyOne(c: Chain, cmd: Command)
    ensures Apply(c, [cmd]) == Apply1(c, cmd)
  {
    assert [cmd][1..] == [];
  }

  function Deletes(guard: seq<Entry>): (r: seq<Command>)
    ensures |r| == |guard|
    ensures forall i :: 0 <= i < |r| ==> r[i] == DeleteRule(Number(guard[i].handle))
  {
    seq(|guard|, i requires 0 <= i < |guard| => DeleteRule(Number(guard[i].handle)))
  }

  function Appends(prefix: string, want: seq<PortProto>): (r: seq<Command>)
    ensures |r| == |want|
    ensures forall i :: 0 <= i < |r| ==> r[i] == AppendRule(GuardComment(prefix), GuardBody(want[i]))
  {
    seq(|want|, i requires 0 <= i < |want| => AppendRule(GuardComment(prefix), GuardBody(want[i])))
  }

  function HandlesOf(rules: seq<Entry>): (r: set<int>)
    ensures forall h :: h in r <==> exists e :: e in rules && e.handle == h
  {
    set e | e in rules :: e.handle
  }

  // c with its rules replaced by `others` and a freshly numbered guard.
  function WithTail(c: Chain, others: seq<Entry>, want: seq<PortProto>): Chain {
    c.(rules := others + GuardEntries(c.prefix, want, c.next), next := c.next + |want|)
  }

  lemma StillThere(rules: seq<Entry>, doomed: seq<Entry>)
    requires doomed != [] && UniqueHandles(doomed) && forall e :: e in doomed ==> e in rules
    ensures forall e :: e in doomed[1..] ==> e in Without(rules, {doomed[0].handle})
  {
    forall e | e in doomed[1..]
      ensures e in Without(rules, {doomed[0].handle})
    {
      var k :| 0 <= k < |doomed[1..]| && doomed[1..][k] == e;
      assert doomed[k + 1] == e && e in doomed;
      assert HandleNotIn({doomed[0].handle})(e);
    }
  }

  lemma HandlesOfMore(doomed: seq<Entry>)
    requires doomed != []
    ensures HandlesOf(doomed) == {doomed[0].handle} + HandlesOf(doomed[1..])
    ensures Deletes(doomed)[1..] == Deletes(doomed[1..])
  {
    assert doomed == [doomed[0]] + doomed[1..];
  }

  // Deleting listed rules one by one drops them all.
  lemma {:induction false} ApplyDeletes(c: Chain, doomed: seq<Entry>)
    requires c.present && UniqueHandles(doomed)
    requires forall e :: e in doomed ==> e in c.rules
    ensures Apply(c, Deletes(doomed)) == Some(c.(rules := Without(c.rules, HandlesOf(doomed))))
    decreases |doomed|
  {
    if doomed == [] {
      assert HandlesOf(doomed) == {};
      WithoutNone(c.rules);
    } else {
      var h, rest := doomed[0].handle, doomed[1..];
      assert doomed[0] in c.rules;
      var c1 := c.(rules := Without(c.rules, {h}));
      assert Apply1(c, Deletes(doomed)[0]) == Some(c1);
      StillThere(c.rules, doomed);
      HandlesOfMore(doomed);
      ApplyDeletes(c1, rest);
      KeepBoth(c.rules, HandleNotIn({h}), HandleNotIn(HandlesOf(rest)), HandleNotIn(HandlesOf(doomed)));
    }
  }

  lemma GuardEntriesFrom(prefix: string, want: seq<PortProto>, next: int)
    requires want != []
    ensures GuardEntries(prefix, want, next)
            == [Entry(next, GuardComment(prefix), GuardBody(want[0]))] + GuardEntries(prefix, want[1..], next + 1)
    ensures Appends(prefix, want)[1..] == Appends(prefix, want[1..])
  {
  }

  lemma ConcatAssociates(a: seq<Entry>, b: seq<Entry>, c: seq<Entry>)
    ensures a + b + c == a + (b + c)
  {
  }

  // One appended guard rule is the first of the tail.
  lemma TailFrom(c: Chain, want: seq<PortProto>, e: Entry)
    requires want != [] && e == Entry(c.next, GuardComment(c.prefix), GuardBody(want[0]))
    ensures var c1 := c.(rules := c.rules + [e], next := c.next + 1);
            WithTail(c1, c1.rules, want[1..]) == WithTail(c, c.rules, want)
  {
    GuardEntriesFrom(c.prefix, want, c.next);
    ConcatAssociates(c.rules, [e], GuardEntries(c.prefix, want[1..], c.next + 1));
  }

  lemma {:induction false} ApplyAppends(c: Chain, want: seq<PortProto>)
    requires c.present
    ensures Apply(c, Appends(c.prefix, want)) == Some(WithTail(c, c.rules, want))
    decreases |want|
  {
    if want == [] {
      assert c.rules + GuardEntries(c.prefix, want, c.next) == c.rules;
    } else {
      var e := Entry(c.next, GuardComment(c.prefix), GuardBody(want[0]));
      var c1 := c.(rules := c.rules + [e], next := c.next + 1);
      assert Apply1(c, Appends(c.prefix, want)[0]) == Some(c1);
      GuardEntriesFrom(c.prefix, want, c.next);
      ApplyAppends(c1, want[1..]);
      TailFrom(c, want, e);
    }
  }

  lemma DeletesDropTheGuard(c: Chain, guard: seq<Entry>)
    requires ValidChain(c) && c.present && guard == Keep(c.rules, IsGuard(c.prefix))
    ensures Apply(c, Deletes(guard)) == Some(c.(rules := Keep(c.rules, NotGuard(c.prefix))))
  {
    KeepUnique(c.rules, IsGuard(c.prefix));
    ApplyDeletes(c, guard);
    DropSelected(c.rules, IsGuard(c.prefix), NotGuard(c.prefix), HandlesOf(guard));
  }

  // Nothing can be appended to a chain that is not there.
  lemma NothingToAppendTo(c: Chain, want: seq<PortProto>)
    requires !c.present && want != []
    ensures Apply(c, Appends(c.prefix, want)) == None
  {
    assert Appends(c.prefix, want)[0].AppendRule?;
  }

  lemma TransactionRuns(c: Chain, guard: seq<Entry>, want: seq<PortProto>)
    requires ValidChain(c) && c.present && guard == Keep(c.rules, IsGuard(c.prefix))
    ensures Apply(c, Deletes(guard) + Appends(c.prefix, want)) == Some(WithTail(c, Keep(c.rules, NotGuard(c.prefix)), want))
  {
    hide Apply, Deletes, Appends, UniqueHandles, Below;
    ApplyConcat(c, Deletes(guard), Appends(c.prefix, want));
    DeletesDropTheGuard(c, guard);
    ApplyAppends(c.(rules := Keep(c.rules, NotGuard(c.prefix))), want);
  }

  // The SyncGuard transaction: the guard rules go and the new ones are appended,
  // with no state in between.
  lemma GuardTransaction(c: Chain, guard: seq<Entry>, want: seq<PortProto>)
    requires ValidChain(c) && guard == Keep(c.rules, IsGuard(c.prefix))
    requires guard != [] || want != []
    ensures Apply(c, Deletes(guard) + Appends(c.prefix, want))
            == if c.present then Some(WithTail(c, Keep(c.rules, NotGuard(c.prefix)), want)) else None
  {
    if c.present {
      TransactionRuns(c, guard, want);
    } else {
      assert guard == [] && Deletes(guard) + Appends(c.prefix, want) == Appends(c.prefix, want);
      NothingToAppendTo(c, want);
    }
  }

  class NftBackend {
    const prefix: string
    var kernel: Chain // what nft reads and writes

    ghost predicate Valid()
      reads this
    {
      kernel.prefix == prefix && ValidChain(kernel)
    }

    constructor (prefix: string, kernel: Chain)
      requires kernel.prefix == prefix && ValidChain(kernel)
      ensures Valid() && this.prefix == prefix && this.kernel == kernel
    {
      this.prefix := prefix;
      this.kernel := kernel;
    }

    // nft -j -f -: one atomic transaction, whose fate is the next of the faults.
    method RunJSON(cmds: seq<Command>) returns (ok: bool)
      modifies this
      ensures NextFails(old(kernel).faults) ==> !ok && kernel == Tick(old(kernel))
      ensures !NextFails(old(kernel).faults) ==>
                match Apply(old(kernel), cmds)
                case None => !ok && kernel == Tick(old(kernel))
                case Some(done) => ok && kernel == done.(faults := Later(old(kernel).faults))
    {
      ok := false;
      if !NextFails(kernel.faults) {
        match Apply(kernel, cmds) {
          case None =>
          case Some(done) =>
            kernel := done.(faults := kernel.faults);
            ok := true;
        }
      }
      kernel := Tick(kernel);
    }

    // listChain: every rule of the chain, in order (an empty list when missing).
    method ListChain() returns (chain: Option<seq<Entry>>)
      modifies this
      ensures kernel == Tick(old(kernel))
      ensures chain == if NextFails(old(kernel).faults) then None else Some(old(kernel).rules)
    {
      chain := if NextFails(kernel.faults) then None else Some(kernel.rules);
      kernel := Tick(kernel);
    }

    method EnsureBase() returns (ok: bool)
      requires Valid()
      modifies this
      ensures Valid()
      ensures kernel == SpecEnsureBase(old(kernel)).0
      ensures ok == SpecEnsureBase(old(kernel)).1
      ensures kernel.rules == old(kernel).rules && kernel.next == old(kernel).next && (ok ==> kernel.present)
      ensures !ok ==> kernel.present == old(kernel).present
    {
      ApplyOne(kernel, CreateBase);
      ok := RunJSON([CreateBase]);
    }

    method AddRule(g: Grant) returns (outcome: Outcome)
      requires Valid()
      modifies this
      ensures Valid()
      ensures kernel == SpecAdd(old(kernel), g).0
      ensures outcome == SpecAdd(old(kernel), g).1
    {
      AddKeepsValid(kernel, g);
      if !CheckRule(g.ip, g.port, g.proto) {
        return Failed(Refused);
      }
      var cmd := InsertRule(CommentFor(prefix, g.user, g.group), Allow(ListedForm(g.ip), g.port, g.proto));
      ApplyOne(kernel, cmd);
      var ok := RunJSON([cmd]);
      outcome := if ok then Done else Failed(CommandFailed);
    }

    // listFiltered: the rules whose comment starts with commentPrefix, which is
    // what `select` tells of an entry.
    method ListFiltered(commentPrefix: string, ghost select: Entry -> bool) returns (listing: Option<seq<Rule>>)
      requires Valid()
      requires forall e :: select(e) == HasPrefix(e.comment, commentPrefix)
      modifies this
      ensures Valid()
      ensures kernel == SpecList(old(kernel), select).0
      ensures listing == SpecList(old(kernel), select).1
    {
      var chain := ListChain();
      if chain == None {
        return None;
      }
      var all := chain.value;
      var rules: seq<Rule> := [];
      for i := 0 to |all|
        invariant rules == ListAll(prefix, Keep(all[..i], select))
        invariant Valid() && kernel == Tick(old(kernel))
      {
        KeepNext(all, i, select);
        ListAllMore(prefix, Keep(all[..i], select), all[i]);
        if HasPrefix(all[i].comment, commentPrefix) {
          rules := rules + [Listed(prefix, all[i])];
        }
      }
      assert all[..|all|] == all;
      return Some(rules);
    }

    method ListUserRules(user: string) returns (listing: Option<seq<Rule>>)
      requires Valid()
      modifies this
      ensures Valid()
      ensures kernel == SpecList(old(kernel), OfUser(prefix, user)).0
      ensures listing == SpecList(old(kernel), OfUser(prefix, user)).1
    {
      listing := ListFiltered(UserPrefix(prefix, user), OfUser(prefix, user));
    }

    method ListManaged() returns (listing: Option<seq<Rule>>)
      requires Valid()
      modifies this
      ensures Valid()
      ensures kernel == SpecList(old(kernel), IsManaged(prefix)).0
      ensures listing == SpecList(old(kernel), IsManaged(prefix)).1
    {
      listing := ListFiltered(prefix + ":", IsManaged(prefix));
    }

    method DeleteByHandle(h: Handle) returns (ok: bool)
      requires Valid()
      modifies this
      ensures Valid()
      ensures kernel == SpecDelete(old(kernel), h).0
      ensures ok == SpecDelete(old(kernel), h).1
    {
      DeleteKeepsValid(kernel, h);
      ApplyOne(kernel, DeleteRule(h));
      ok := RunJSON([DeleteRule(h)]);
    }

    method RemoveRule(g: Grant) returns (ok: bool)
      requires Valid()
      modifies this
      ensures Valid()
      ensures kernel == SpecRemove(old(kernel), g).0
      ensures ok == SpecRemove(old(kernel), g).1
    {
      var listing := ListUserRules(g.user);
      if listing == None {
        return false;
      }
      var rules := listing.value;
      var want := CommentFor(prefix, g.user, g.group);
      for i := 0 to |rules|
        invariant FirstMatch(rules, g.At(), want) == FirstMatch(rules[i..], g.At(), want)
        invariant Valid() && kernel == SpecList(old(kernel), OfUser(prefix, g.user)).0
      {
        if rules[i].grant.At() == g.At() && rules[i].comment == want {
          ok := DeleteByHandle(rules[i].handle);
          return;
        }
      }
      return true;
    }

    // SyncGuard's program: delete the old guard rules, append the new ones.
    method GuardCommands(guard: seq<Entry>, want: seq<PortProto>) returns (cmds: seq<Command>)
      ensures cmds == Deletes(guard) + Appends(prefix, want)
    {
      cmds := [];
      for i := 0 to |guard|
        invariant cmds == Deletes(guard)[..i]
      {
        cmds := cmds + [DeleteRule(Number(guard[i].handle))];
      }
      for i := 0 to |want|
        invariant cmds == Deletes(guard) + Appends(prefix, want)[..i]
      {
        cmds := cmds + [AppendRule(GuardComment(prefix), GuardBody(want[i]))];
      }
    }

    method SyncGuard(ports: seq<PortProto>) returns (ok: bool)
      requires Valid()
      modifies this
      ensures Valid()
      ensures kernel == SpecSyncGuard(old(kernel), ports).0
      ensures ok == SpecSyncGuard(old(kernel), ports).1
    {
      SyncKeepsValid(kernel, ports);
      var want := MakeLayout(ports);
      var listing := ListChain();
      if listing == None {
        return false;
      }
      var chain := listing.value;
      var guard: seq<Entry> := [];
      for i := 0 to |chain|
        invariant guard == Keep(chain[..i], IsGuard(prefix))
        invariant kernel == Tick(old(kernel))
      {
        KeepNext(chain, i, IsGuard(prefix));
        if chain[i].comment == GuardComment(prefix) {
          guard := guard + [chain[i]];
        }
      }
      assert chain[..|chain|] == chain;
      if AtTail(chain, guard, want) {
        return true;
      }
      var cmds := GuardCommands(guard, want);
      GuardTransaction(kernel, guard, want);
      ok := RunJSON(cmds);
    }
  }
}
