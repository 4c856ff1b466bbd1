// The vocabulary every part of nft-okboy shares: addresses as text, ports,
// grants (who may reach what) and the rules a firewall lists back.
module Net {
  datatype Option<+T> = None | Some(value: T)

  // The transport protocol field as the program carries it: text that is
  // normally "tcp" or "udp", but may be anything a caller or a hub sent.
  datatype Proto = Tcp | Udp | OtherProto(name: string)

  // What net.ParseIP yields, up to IPv4-mapped equality (net.IP.Equal).
  datatype IPValue = V4(bits: nat) | V6(bits: nat)

  // An address field: text that parses as one IP address, or any other text
  // (a CIDR, "any", a hostname, the empty string).  `mapped` tells the spelling
  // "::ffff:192.0.2.1" from "192.0.2.1"; `form` tells further spellings of one
  // address apart, 0 being the one net.IP.String and the firewalls print.
  datatype Source =
    | IPv4(bits4: nat, mapped: bool, form: nat)
    | IPv6(bits6: nat, form: nat)
    | NotAnIP(text: string)

  function ParseIP(s: Source): Option<IPValue> {
    match s
    case IPv4(bits, _, _) => Some(V4(bits))
    case IPv6(bits, _) => Some(V6(bits))
    case NotAnIP(_) => None
  }

  // backend.go CanonicalIP: one canonical spelling of the same address, or nothing.
  function CanonicalIP(s: Source): (r: Option<Source>)
    ensures r.Some? <==> ParseIP(s).Some?
    ensures r.Some? ==> ParseIP(r.value) == ParseIP(s)
  {
    match s
    case IPv4(bits, _, _) => Some(IPv4(bits, false, 0))
    case IPv6(bits, _) => Some(IPv6(bits, 0))
    case NotAnIP(_) => None
  }

  predicate Canonical(s: Source) {
    CanonicalIP(s) == Some(s)
  }

  // The spelling a firewall lists an accepted literal back in.
  function ListedForm(s: Source): Source {
    match s
    case IPv4(bits, mapped, _) => IPv4(bits, mapped, 0)
    case IPv6(bits, _) => IPv6(bits, 0)
    case NotAnIP(_) => s
  }

  // Whether the text holds a ':' (an IPv6 spelling).
  predicate HasColon(s: Source) {
    s.IPv6? || (s.IPv4? && s.mapped)
  }

  datatype PortProto = PortProto(port: int, proto: Proto)

  // What one packet has to match: source, destination port and protocol.
  datatype Endpoint = Endpoint(ip: Source, port: int, proto: Proto)

  // One allowance: (user, group) may reach the endpoint.  It is the key
  // ReconcileAll compares on, and all that a desired rule carries.
  datatype Grant = Grant(ip: Source, port: int, proto: Proto, user: string, group: string) {
    function At(): Endpoint {
      Endpoint(ip, port, proto)
    }
  }

  // A rule's delete key: the kernel's number (nftables), or the digest of the
  // rule's identity (ufw; taken as collision free).
  datatype Handle =
    | Number(n: int)
    | Digest(comment: string, ip: Source, port: int, proto: Proto)

  // A managed rule as a backend lists it.
  datatype Rule = Rule(handle: Handle, grant: Grant, comment: string)

  datatype Action = ALLOW | DENY | REJECT | LIMIT

  datatype Error =
    | Inactive             // ufw is disabled
    | Refused              // checkRule: not one IP, a port in 1..65535 and tcp or udp
    | CommandFailed        // nft, ufw or the lock failed

  // How one AddRule ended.  HostRule is not a failure: the host's own rule decides.
  datatype Outcome = Done | HostRule(action: Action) | Failed(error: Error)

  predicate ValidPort(port: int, proto: Proto) {
    1 <= port <= 65535 && (proto.Tcp? || proto.Udp?)
  }

  // backend.go checkRule.
  predicate CheckRule(ip: Source, port: int, proto: Proto) {
    ParseIP(ip).Some? && ValidPort(port, proto)
  }

  // The fate of the commands still to come: true = that command fails.
  predicate FailureFree(faults: seq<bool>) {
    forall i :: 0 <= i < |faults| ==> !faults[i]
  }

  predicate NextFails(faults: seq<bool>) {
    |faults| > 0 && faults[0]
  }

  function Later(faults: seq<bool>): (r: seq<bool>)
    ensures FailureFree(faults) ==> FailureFree(r)
  {
    if |faults| > 0 then faults[1..] else faults
  }
}
