/** The address a request comes from, behind proxies: `sourceIP` and `trustedProxy`
    (backend/internal/httpapi/middleware.go). */
module Forwarded {
  import opened Text
  import opened Wrappers

  type Ip = Bytes

  /** The address library and the configured proxy networks. */
  datatype Network = Network(parse: string -> Option<Ip>, show: Ip -> string, proxies: seq<Ip -> bool>) {

    ghost predicate Trusted(ip: Ip) {
      exists i :: 0 <= i < |proxies| && proxies[i](ip)
    }

    /** Written addresses are read back, and are free of separators and blanks. */
    ghost predicate Faithful(ip: Ip) {
      && parse(show(ip)) == Some(ip) && show(ip) != ""
      && forall i | 0 <= i < |show(ip)| :: show(ip)[i] != ',' && !Blank(show(ip)[i])
    }
  }

  predicate Blank(c: char) {
    c == ' ' || 9 <= c as int <= 13
  }

  /** `strings.TrimSpace`. */
  function Trim(s: string): string {
    if s != "" && Blank(s[0]) then Trim(s[1..])
    else if s != "" && Blank(s[|s| - 1]) then Trim(s[..|s| - 1])
    else s
  }

  /** What is cut off on both sides is blanks, tabs and line ends, and no more of them is left at the
      ends. */
  lemma {:induction false} TrimCutsBlanks(s: string) returns (before: string, after: string)
    ensures s == before + (Trim(s) + after)
    ensures forall i | 0 <= i < |before| :: before[i] as int in {9, 10, 11, 12, 13, 32}
    ensures forall i | 0 <= i < |after| :: after[i] as int in {9, 10, 11, 12, 13, 32}
    ensures var t := Trim(s);
            t != "" ==> t[0] as int !in {9, 10, 11, 12, 13, 32} && t[|t| - 1] as int !in {9, 10, 11, 12, 13, 32}
    decreases |s|
  {
    before, after := "", "";
    if s != "" && Blank(s[0]) {
      var b, a := TrimCutsBlanks(s[1..]);
      before, after := [s[0]] + b, a;
    } else if s != "" && Blank(s[|s| - 1]) {
      var b, a := TrimCutsBlanks(s[..|s| - 1]);
      before, after := b, a + [s[|s| - 1]];
      Regrouped(b, Trim(s[..|s| - 1]), a, [s[|s| - 1]]);
    }
  }

  lemma Regrouped(b: string, t: string, a: string, last: string)
    ensures b + (t + (a + last)) == (b + (t + a)) + last
  {
  }

  /** The addresses of a forwarded list, left to right; `None` where one does not parse. */
  function Hops(net: Network, header: string): (hops: seq<Option<Ip>>)
    ensures |hops| == |Split(header, ',')|
  {
    var parts := Split(header, ',');
    seq(|parts|, i requires 0 <= i < |parts| => net.parse(Trim(parts[i])))
  }

  /** Walking a list from the right: the answer once the hops after `result`'s are trusted. */
  ghost function Walk(net: Network, hops: seq<Option<Ip>>, host: string, result: string): string {
    if hops == [] then result
    else
      var hop := hops[|hops| - 1];
      if hop.None? then host
      else if !net.Trusted(hop.value) then net.show(hop.value)
      else Walk(net, hops[..|hops| - 1], host, net.show(hop.value))
  }

  ghost function SourceOf(net: Network, host: string, header: string): string {
    var remote := net.parse(host);
    if remote.None? || !net.Trusted(remote.value) then host
    else Walk(net, Hops(net, header), host, net.show(remote.value))
  }

  /** The direct peer is a trusted proxy. */
  ghost predicate FromProxy(net: Network, host: string) {
    net.parse(host).Some? && net.Trusted(net.parse(host).value)
  }

  /** The hop decides: all hops to its right are trusted proxies, and it does not parse, is not
      trusted, or is the leftmost. */
  ghost predicate Decides(net: Network, hops: seq<Option<Ip>>, at: nat) {
    && at < |hops| && (forall i | at < i < |hops| :: hops[i].Some? && net.Trusted(hops[i].value))
    && (hops[at].None? || !net.Trusted(hops[at].value) || at == 0)
  }

  /** Only a trusted proxy is believed: the list of any other peer is not even read. */
  lemma PeerDecides(net: Network, host: string, header: string)
    ensures !FromProxy(net, host) ==> SourceOf(net, host, header) == host
  {
  }

  method TrustedProxy(net: Network, candidate: Ip) returns (trusted: bool)
    ensures trusted <==> net.Trusted(candidate)
  {
    for i := 0 to |net.proxies|
      invariant forall j | 0 <= j < i :: !net.proxies[j](candidate)
    {
      if net.proxies[i](candidate) {
        return true;
      }
    }
    return false;
  }

  /** `sourceIP`; `host` is the direct peer without its port. */
  method SourceIp(net: Network, host: string, header: string) returns (result: string)
    ensures result == SourceOf(net, host, header)
    ensures !FromProxy(net, host) ==> result == host
    ensures FromProxy(net, host) ==>
      forall at: nat :: Decides(net, Hops(net, header), at) ==>
        result == if Hops(net, header)[at].None? then host else net.show(Hops(net, header)[at].value)
  {
    PeerDecides(net, host, header);
    if FromProxy(net, host) {
      forall at: nat | Decides(net, Hops(net, header), at)
        ensures SourceOf(net, host, header) ==
                if Hops(net, header)[at].None? then host else net.show(Hops(net, header)[at].value)
      {
        RightmostUntrustedHop(net, Hops(net, header), host, net.show(net.parse(host).value), at);
      }
    }
    hide FromProxy, Decides;
    var remote := net.parse(host);
    if remote.None? {
      return host;
    }
    var direct := TrustedProxy(net, remote.value);
    if !direct {
      return host;
    }
    result := net.show(remote.value);
    var forwarded := Split(header, ',');
    ghost var hops := Hops(net, header);
    var index := |forwarded|;
    assert hops[..index] == hops;
    while index > 0
      invariant index <= |forwarded|
      invariant Walk(net, hops[..index], host, result) == SourceOf(net, host, header)
      decreases index
    {
      index := index - 1;
      var candidate := net.parse(Trim(forwarded[index]));
      assert hops[..index + 1][..index] == hops[..index];
      if candidate.None? {
        return host;
      }
      result := net.show(candidate.value);
      var trusted := TrustedProxy(net, candidate.value);
      if !trusted {
        return;
      }
    }
  }

  /** In general the answer is decided by the rightmost hop that is not a trusted proxy: its
      address, or the direct peer if it does not parse. If every hop is trusted it is the
      leftmost. */
  lemma {:induction false} RightmostUntrustedHop(net: Network, hops: seq<Option<Ip>>, host: string, result: string,
                                                 at: nat)
    requires at < |hops|
    requires forall i | at < i < |hops| :: hops[i].Some? && net.Trusted(hops[i].value)
    ensures hops[at].None? ==> Walk(net, hops, host, result) == host
    ensures hops[at].Some? && !net.Trusted(hops[at].value) ==> Walk(net, hops, host, result) == net.show(hops[at].value)
    ensures at == 0 && hops[0].Some? ==> Walk(net, hops, host, result) == net.show(hops[0].value)
    decreases |hops|
  {
    if at < |hops| - 1 {
      RightmostUntrustedHop(net, hops[..|hops| - 1], host, net.show(hops[|hops| - 1].value), at);
    }
  }

  // ---- chains of proxies ----

  /** What a proxy sends on: the list it received with its peer appended. */
  function Forward(net: Network, header: string, peer: Ip): string {
    if header == "" then net.show(peer) else header + ", " + net.show(peer)
  }

  function ForwardAll(net: Network, header: string, peers: seq<Ip>): string
    decreases |peers|
  {
    if peers == [] then header else Forward(net, ForwardAll(net, header, peers[..|peers| - 1]), peers[|peers| - 1])
  }

  lemma {:induction false} TrimKeeps(s: string)
    requires s != "" ==> !Blank(s[0]) && !Blank(s[|s| - 1])
    ensures Trim(s) == s
  {
  }

  lemma ForwardAddsAHop(net: Network, header: string, peer: Ip)
    requires net.Faithful(peer)
    ensures var hops := Hops(net, Forward(net, header, peer));
            |hops| > 0 && hops[|hops| - 1] == Some(peer) &&
            (header != "" ==> hops[..|hops| - 1] == Hops(net, header))
  {
    var shown := net.show(peer);
    assert ',' !in shown;
    TrimKeeps(shown);
    if header == "" {
      SplitUnseparated(shown, ',');
    } else {
      var spaced := " " + shown;
      assert header + ", " + shown == header + [','] + spaced;
      SplitAtSeparator(header, spaced, ',');
      SplitUnseparated(spaced, ',');
      assert spaced[1..] == shown && Trim(spaced) == shown;
    }
  }

  /** The list ends with exactly these addresses. */
  predicate EndsWith(hops: seq<Option<Ip>>, peers: seq<Ip>) {
    peers == [] ||
    (hops != [] && hops[|hops| - 1] == Some(peers[|peers| - 1]) && EndsWith(hops[..|hops| - 1], peers[..|peers| - 1]))
  }

  lemma {:induction false} ForwardedPeersAreLast(net: Network, header: string, peers: seq<Ip>)
    requires forall i | 0 <= i < |peers| :: net.Faithful(peers[i])
    ensures EndsWith(Hops(net, ForwardAll(net, header, peers)), peers)
    decreases |peers|
  {
    if peers != [] {
      var front, last := peers[..|peers| - 1], peers[|peers| - 1];
      assert ForwardAll(net, header, peers) == Forward(net, ForwardAll(net, header, front), last);
      hide Network.Faithful, Forward, Hops;
      ForwardAddsAHop(net, ForwardAll(net, header, front), last);
      if front != [] {
        ForwardedPeersAreLast(net, header, front);
        NotEmpty(net, header, front);
      }
    }
  }

  lemma NotEmpty(net: Network, header: string, peers: seq<Ip>)
    requires peers != [] && net.Faithful(peers[|peers| - 1])
    ensures ForwardAll(net, header, peers) != ""
  {
  }

  // Trusted hops are skipped until the client's.
  lemma {:induction false} WalkReachesClient(net: Network, hops: seq<Option<Ip>>, client: Ip, proxies: seq<Ip>,
                                             host: string, result: string)
    requires !net.Trusted(client) && forall i | 0 <= i < |proxies| :: net.Trusted(proxies[i])
    requires EndsWith(hops, [client] + proxies)
    ensures Walk(net, hops, host, result) == net.show(client)
    decreases |proxies|
  {
    var peers := [client] + proxies;
    if proxies == [] {
      assert peers == [client];
    } else {
      var front := proxies[..|proxies| - 1];
      assert peers[..|peers| - 1] == [client] + front && peers[|peers| - 1] == proxies[|proxies| - 1];
      WalkReachesClient(net, hops[..|hops| - 1], client, front, host, net.show(proxies[|proxies| - 1]));
    }
  }

  /** Through any chain of trusted proxies, each appending its peer, the answer is the address
      of the untrusted client, whatever list the client sent. */
  lemma ClientBehindProxies(net: Network, claimed: string, client: Ip, proxies: seq<Ip>)
    requires proxies != [] && !net.Trusted(client) && net.Faithful(client)
    requires forall i | 0 <= i < |proxies| :: net.Trusted(proxies[i]) && net.Faithful(proxies[i])
    ensures var peers := [client] + proxies[..|proxies| - 1];
            SourceOf(net, net.show(proxies[|proxies| - 1]), ForwardAll(net, claimed, peers)) == net.show(client)
  {
    var front, last := proxies[..|proxies| - 1], proxies[|proxies| - 1];
    ForwardedPeersAreLast(net, claimed, [client] + front);
    hide Hops, ForwardAll, EndsWith;
    WalkReachesClient(net, Hops(net, ForwardAll(net, claimed, [client] + front)), client, front,
                      net.show(last), net.show(last));
  }
}
