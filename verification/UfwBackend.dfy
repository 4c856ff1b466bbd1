// The ufw backend (internal/firewall/ufw.go): the Go methods, under the lock,
// proved to be the operations of UfwTable.
module UfwBackend {
  import opened Net
  import opened Comments
  import opened UfwTable

  class UfwBackend {
    const prefix: string
    var ufw: Table                // the host's ufw
    var warnedInactive: bool
    var warnedHost: set<Endpoint> // matches already reported as left to a host rule

    ghost predicate Valid()
      reads this
    {
      ufw.prefix == prefix
    }

    constructor (prefix: string, ufw: Table)
      requires ufw.prefix == prefix
      ensures Valid() && this.prefix == prefix && this.ufw == ufw
      ensures !warnedInactive && warnedHost == {}
    {
      this.prefix := prefix;
      this.ufw := ufw;
      this.warnedInactive := false;
      this.warnedHost := {};
    }

    // Taking the lock, or running one ufw command.
    method Command() returns (ok: bool)
      modifies this`ufw
      ensures ufw == Tick(old(ufw)) && ok == !NextFails(old(ufw).faults)
    {
      ok := !NextFails(ufw.faults);
      ufw := Tick(ufw);
    }

    // hostRuleFor.
    method FindHostRule(lines: seq<Line>, at: Endpoint) returns (action: Option<Action>)
      ensures action == HostRuleFor(prefix, lines, at)
    {
      for i := 0 to |lines|
        invariant HostRuleFor(prefix, lines, at) == HostRuleFor(prefix, lines[i..], at)
      {
        if Managed(prefix, lines[i]) || !MatchesPlain(lines[i], at) {
          continue;
        }
        return Some(lines[i].shape.action);
      }
      return None;
    }

    // parseUfwStatus.
    method ParseStatus(lines: seq<Line>) returns (numbered: seq<Numbered>)
      ensures numbered == Parse(prefix, lines)
    {
      numbered := [];
      for i := 0 to |lines|
        invariant numbered + ParseFrom(prefix, lines, i) == Parse(prefix, lines)
      {
        if Managed(prefix, lines[i]) {
          numbered := numbered + [Numbered(i + 1, ListedLine(prefix, lines[i]))];
        }
      }
    }

    // listManagedLines, with the lock taken: the error, or the managed lines.
    method ListManagedLines() returns (err: Option<Error>, numbered: seq<Numbered>)
      requires Valid()
      modifies this`ufw
      ensures Valid()
      ensures ufw == Status(old(ufw)).0 && err == Status(old(ufw)).1
      ensures err == None ==> numbered == Parse(prefix, old(ufw).lines)
    {
      numbered := [];
      var locked := Command();
      if !locked {
        return Some(CommandFailed), [];
      }
      var ran := Command();
      if !ran {
        return Some(CommandFailed), [];
      }
      if !ufw.active {
        return Some(Inactive), [];
      }
      numbered := ParseStatus(ufw.lines);
      err := None;
    }

    method EnsureBase() returns (ok: bool)
      requires Valid()
      modifies this`ufw, this`warnedInactive
      ensures Valid()
      ensures var (t, err) := Status(old(ufw));
              ufw == t && ok == (err == None || err == Some(Inactive)) &&
              warnedInactive == if ok then err == Some(Inactive) else old(warnedInactive)
    {
      var locked := Command();
      if !locked {
        return false;
      }
      var ran := Command();
      if !ran {
        return false;
      }
      if !ufw.active {
        if !warnedInactive {
          warnedInactive := true;
        }
      } else {
        warnedInactive := false;
      }
      ok := true;
    }

    method AddRule(g: Grant) returns (outcome: Outcome)
      requires Valid()
      modifies this`ufw, this`warnedHost
      ensures Valid()
      ensures ufw == SpecAdd(old(ufw), g).0
      ensures outcome == SpecAdd(old(ufw), g).1
      ensures warnedHost == old(warnedHost) + if outcome.HostRule? then {g.At()} else {}
    {
      var locked := Command();
      if !locked {
        return Failed(CommandFailed);
      }
      if !CheckRule(g.ip, g.port, g.proto) {
        return Failed(Refused);
      }
      var ran := Command();
      if !ran {
        return Failed(CommandFailed);
      }
      if !ufw.active {
        return Failed(Inactive);
      }
      var action := FindHostRule(ufw.lines, g.At());
      if action.Some? {
        if g.At() !in warnedHost {
          warnedHost := warnedHost + {g.At()};
        }
        return HostRule(action.value);
      }
      var allowed := Command();
      if !allowed {
        return Failed(CommandFailed);
      }
      ufw := ufw.(lines := RunAllow(prefix, ufw.lines, g));
      return Done;
    }

    // deleteNumber.
    method DeleteNumber(num: nat) returns (ok: bool)
      requires Valid()
      modifies this`ufw
      ensures Valid()
      ensures NextFails(old(ufw).faults) ==> !ok && ufw == Tick(old(ufw))
      ensures !NextFails(old(ufw).faults) ==>
                match RunDelete(old(ufw).lines, num)
                case None => !ok && ufw == Tick(old(ufw))
                case Some(lines) => ok && ufw == Tick(old(ufw)).(lines := lines)
    {
      var ran := Command();
      if !ran {
        return false;
      }
      match RunDelete(ufw.lines, num) {
        case None => ok := false;
        case Some(lines) =>
          ufw := ufw.(lines := lines);
          ok := true;
      }
    }

    method DeleteByHandle(h: Handle) returns (ok: bool)
      requires Valid()
      modifies this`ufw
      ensures Valid()
      ensures ufw == SpecDelete(old(ufw), h).0
      ensures ok == SpecDelete(old(ufw), h).1
    {
      var err, numbered := ListManagedLines();
      if err.Some? {
        return false;
      }
      for i := 0 to |numbered|
        invariant FirstNumber(numbered, h) == FirstNumber(numbered[i..], h)
        invariant ufw == Status(old(ufw)).0
      {
        if numbered[i].rule.handle == h {
          ok := DeleteNumber(numbered[i].num);
          return;
        }
      }
      return true;
    }

    // Matching on address, port, protocol and exact comment is matching the handle.
    method RemoveRule(g: Grant) returns (ok: bool)
      requires Valid()
      modifies this`ufw
      ensures Valid()
      ensures ufw == SpecRemove(old(ufw), g).0
      ensures ok == SpecRemove(old(ufw), g).1
    {
      var want := CommentFor(prefix, g.user, g.group);
      var err, numbered := ListManagedLines();
      if err.Some? {
        return false;
      }
      ghost var h := Digest(want, g.ip, g.port, g.proto);
      for i := 0 to |numbered|
        invariant FirstNumber(numbered, h) == FirstNumber(numbered[i..], h)
        invariant ufw == Status(old(ufw)).0
      {
        ParseFromSound(prefix, old(ufw).lines, 0, i);
        if numbered[i].rule.grant.At() == g.At() && numbered[i].rule.comment == want {
          ok := DeleteNumber(numbered[i].num);
          return;
        }
      }
      return true;
    }

    method ListManaged() returns (listing: Option<seq<Rule>>)
      requires Valid()
      modifies this`ufw
      ensures Valid()
      ensures ufw == SpecList(old(ufw)).0
      ensures listing == SpecList(old(ufw)).1
    {
      var err, numbered := ListManagedLines();
      if err.Some? {
        return None;
      }
      var out: seq<Rule> := [];
      for i := 0 to |numbered|
        invariant out == RulesOf(numbered)[..i]
        invariant ufw == Status(old(ufw)).0
      {
        out := out + [numbered[i].rule];
      }
      assert out == RulesOf(numbered);
      return Some(out);
    }
  }
}
