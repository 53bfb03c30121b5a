/** Query plans: the datacenter-aware round robin with an explicit local datacenter, and the
    token-aware policy over it. */
module Policies {
  import opened Bits
  import opened Seqs
  import opened Topology
  import NetworkTopology
  import RackSpread

  datatype Distance = Local | Remote | Ignored

  /** `local_dc` and `used_hosts_per_remote_dc`. */
  datatype Config = Config(localDc: string, usedPerRemoteDc: nat)

  /** `_dc_live_hosts`. */
  type LiveHosts = map<string, seq<Host>>

  function DcOf(c: Config, h: Host): string {
    if Truthy(h.datacenter) then h.datacenter.value else c.localDc
  }

  function HostsIn(live: LiveHosts, dc: string): seq<Host> {
    if dc in live then live[dc] else []
  }

  // ------------------------------------------------------------------- up and down events

  function Without(s: seq<Host>, h: Host): seq<Host> {
    if s == [] then [] else (if s[0] != h then [s[0]] else []) + Without(s[1..], h)
  }

  lemma WithoutHead(s: seq<Host>, i: nat, h: Host)
    requires i < |s|
    ensures Without(s[i..], h) == (if s[i] != h then [s[i]] else []) + Without(s[i + 1..], h)
  {
    assert s[i..][1..] == s[i + 1..];
  }

  lemma NothingLeft(s: seq<Host>, h: Host)
    ensures s[0..] == s && Without(s[|s|..], h) == []
  {
  }

  function OnUp(c: Config, live: LiveHosts, h: Host): LiveHosts {
    var current := HostsIn(live, DcOf(c, h));
    if h in current then live else live[DcOf(c, h) := current + [h]]
  }

  function OnDown(c: Config, live: LiveHosts, h: Host): LiveHosts {
    var dc := DcOf(c, h);
    var hosts := Without(HostsIn(live, dc), h);
    if h !in HostsIn(live, dc) then live
    else if hosts != [] then live[dc := hosts]
    else live - {dc}
  }

  datatype Event = Up(host: Host) | Down(host: Host) | Added(host: Host) | Removed(host: Host)

  function Apply(c: Config, live: LiveHosts, e: Event): LiveHosts {
    match e
    case Up(h) => OnUp(c, live, h)
    case Added(h) => OnUp(c, live, h)
    case Down(h) => OnDown(c, live, h)
    case Removed(h) => OnDown(c, live, h)
  }

  /** The policy's table after the events, latest last, from an empty policy. */
  function Table(c: Config, events: seq<Event>): LiveHosts {
    if events == [] then map[] else Apply(c, Table(c, events[..|events| - 1]), events[|events| - 1])
  }

  /** A host is live when the last event about it brought it up. */
  predicate LiveAfter(events: seq<Event>, h: Host) {
    events != [] &&
    var last := events[|events| - 1];
    if last.host == h then last.Up? || last.Added? else LiveAfter(events[..|events| - 1], h)
  }

  predicate WellKept(c: Config, live: LiveHosts) {
    forall dc <- live :: live[dc] != [] && Distinct(live[dc]) && (forall h <- live[dc] :: DcOf(c, h) == dc)
  }

  lemma {:induction false} WithoutFacts(s: seq<Host>, h: Host)
    requires Distinct(s)
    ensures Distinct(Without(s, h)) && (forall x :: x in Without(s, h) <==> x in s && x != h)
  {
    if s != [] {
      assert s == [s[0]] + s[1..];
      WithoutFacts(s[1..], h);
      assert s[0] !in s[1..];
    }
  }

  lemma OnUpKeeps(c: Config, live: LiveHosts, h: Host)
    requires WellKept(c, live)
    ensures WellKept(c, OnUp(c, live, h))
    ensures forall x :: x in HostsIn(OnUp(c, live, h), DcOf(c, x)) <==> x in HostsIn(live, DcOf(c, x)) || x == h
  {
    var dc := DcOf(c, h);
    var current := HostsIn(live, dc);
    if h !in current {
      assert Distinct(current + [h]);
      assert forall x :: x in current + [h] <==> x in current || x == h;
    }
  }

  lemma OnDownKeeps(c: Config, live: LiveHosts, h: Host)
    requires WellKept(c, live)
    ensures WellKept(c, OnDown(c, live, h))
    ensures forall x :: x in HostsIn(OnDown(c, live, h), DcOf(c, x)) <==> x in HostsIn(live, DcOf(c, x)) && x != h
  {
    var dc := DcOf(c, h);
    if h in HostsIn(live, dc) {
      WithoutFacts(live[dc], h);
    }
  }

  /** After any run the table holds exactly the live hosts, each once and under its own
      datacenter, and no empty datacenter. */
  lemma {:induction false} TableIsLive(c: Config, events: seq<Event>, h: Host)
    ensures WellKept(c, Table(c, events))
    ensures h in HostsIn(Table(c, events), DcOf(c, h)) <==> LiveAfter(events, h)
  {
    hide WellKept, OnUp, OnDown, HostsIn;
    if events == [] {
      NothingLive(c, h);
    } else {
      var before, last := Table(c, events[..|events| - 1]), events[|events| - 1];
      TableIsLive(c, events[..|events| - 1], h);
      OnUpKeeps(c, before, last.host);
      OnDownKeeps(c, before, last.host);
    }
  }

  lemma {:induction false} WithoutInOrder(s: seq<Host>, h: Host) returns (at: seq<nat>)
    ensures Embeds(Without(s, h), s, at)
  {
    if s == [] {
      at := [];
    } else {
      var rest := WithoutInOrder(s[1..], h);
      at := EmbedsLater(Without(s[1..], h), s[1..], rest, s[0], s[0] != h);
      assert [s[0]] + s[1..] == s;
    }
  }

  /** The host came up with event k, and has stayed up since. */
  predicate UpSince(events: seq<Event>, h: Host, k: nat) {
    && k < |events| && events[k].host == h && (events[k].Up? || events[k].Added?)
    && !LiveAfter(events[..k], h)
    && (forall j :: k < j < |events| && events[j].host == h ==> events[j].Up? || events[j].Added?)
  }

  lemma StillUp(events: seq<Event>, e: Event, h: Host, k: nat)
    requires UpSince(events, h, k) && (e.host == h ==> e.Up? || e.Added?)
    ensures UpSince(events + [e], h, k)
  {
    assert (events + [e])[..k] == events[..k];
  }

  /** The hosts came up with these events, one after the other. */
  ghost predicate InOrderOfUp(events: seq<Event>, hosts: seq<Host>, since: seq<nat>) {
    && |since| == |hosts|
    && (forall i :: 0 <= i < |hosts| ==> UpSince(events, hosts[i], since[i]))
    && (forall i, j :: 0 <= i < j < |since| ==> since[i] < since[j])
  }

  /** The hosts of a datacenter stand in the order in which they came up. */
  lemma {:induction false} TableInOrder(c: Config, events: seq<Event>, dc: string) returns (since: seq<nat>)
    ensures InOrderOfUp(events, HostsIn(Table(c, events), dc), since)
  {
    if events == [] {
      since := [];
    } else {
      var front, e := events[..|events| - 1], events[|events| - 1];
      assert events == front + [e];
      var before := TableInOrder(c, front, dc);
      since := OrderAfter(c, front, dc, before, e);
    }
  }

  lemma OrderAfter(c: Config, front: seq<Event>, dc: string, before: seq<nat>, e: Event) returns (since: seq<nat>)
    requires InOrderOfUp(front, HostsIn(Table(c, front), dc), before)
    ensures InOrderOfUp(front + [e], HostsIn(Apply(c, Table(c, front), e), dc), since)
  {
    hide Table, LiveAfter, Without, InOrderOfUp;
    var live := Table(c, front);
    var hosts := HostsIn(live, dc);
    TableIsLive(c, front, e.host);
    if DcOf(c, e.host) == dc && (e.Up? || e.Added?) && e.host !in hosts {
      since := OrderWithOneMore(front, hosts, before, e);
    } else if DcOf(c, e.host) == dc && (e.Down? || e.Removed?) && e.host in hosts {
      since := OrderWithout(front, hosts, before, e);
    } else {
      since := before;
      GoneOrElsewhere(c, live, dc, e.host);
      OrderKept(front, hosts, before, e);
    }
  }

  lemma OrderKept(front: seq<Event>, hosts: seq<Host>, before: seq<nat>, e: Event)
    requires InOrderOfUp(front, hosts, before) && (e.Up? || e.Added? || e.host !in hosts)
    ensures InOrderOfUp(front + [e], hosts, before)
  {
    hide UpSince;
    forall i | 0 <= i < |hosts| ensures UpSince(front + [e], hosts[i], before[i]) {
      StillUp(front, e, hosts[i], before[i]);
    }
  }

  lemma OrderWithOneMore(front: seq<Event>, hosts: seq<Host>, before: seq<nat>, e: Event) returns (since: seq<nat>)
    requires InOrderOfUp(front, hosts, before) && (e.Up? || e.Added?) && !LiveAfter(front, e.host)
    ensures InOrderOfUp(front + [e], hosts + [e.host], since)
  {
    OrderKept(front, hosts, before, e);
    hide UpSince, LiveAfter;
    since := before + [|front|];
    NowUp(front, e);
    forall i | 0 <= i < |before| ensures before[i] < |front| { SinceWhen(front, hosts[i], before[i]); }
  }

  lemma {:induction false} WithoutIsGone(s: seq<Host>, h: Host)
    ensures h !in Without(s, h)
  {
    if s != [] { WithoutIsGone(s[1..], h); }
  }

  lemma OrderWithout(front: seq<Event>, hosts: seq<Host>, before: seq<nat>, e: Event) returns (since: seq<nat>)
    requires InOrderOfUp(front, hosts, before)
    ensures InOrderOfUp(front + [e], Without(hosts, e.host), since)
  {
    hide UpSince, Without;
    var at := WithoutInOrder(hosts, e.host);
    WithoutIsGone(hosts, e.host);
    var left := Without(hosts, e.host);
    since := seq(|at|, i requires 0 <= i < |at| && at[i] < |before| => before[at[i]]);
    forall i | 0 <= i < |left| ensures UpSince(front + [e], left[i], since[i]) {
      assert left[i] in left;
      StillUp(front, e, hosts[at[i]], before[at[i]]);
    }
  }

  lemma NowUp(front: seq<Event>, e: Event)
    requires (e.Up? || e.Added?) && !LiveAfter(front, e.host)
    ensures UpSince(front + [e], e.host, |front|)
  {
    assert (front + [e])[..|front|] == front;
  }

  lemma SinceWhen(events: seq<Event>, h: Host, k: nat)
    requires UpSince(events, h, k)
    ensures k < |events|
  {
  }

  lemma GoneOrElsewhere(c: Config, live: LiveHosts, dc: string, h: Host)
    requires WellKept(c, live)
    ensures h !in Without(HostsIn(live, dc), h)
    ensures DcOf(c, h) != dc ==> h !in HostsIn(live, dc)
  {
    WithoutFacts(HostsIn(live, dc), h);
  }

  lemma TableStep(c: Config, events: seq<Event>, e: Event)
    ensures Table(c, events + [e]) == Apply(c, Table(c, events), e)
  {
    hide OnUp, OnDown;
    assert (events + [e])[..|events|] == events;
  }

  lemma NothingLive(c: Config, h: Host)
    ensures WellKept(c, map[]) && h !in HostsIn(map[], DcOf(c, h))
  {
  }

  // ------------------------------------------------------------------ the DC-aware policy

  function DistanceOf(c: Config, live: LiveHosts, h: Host): Distance {
    var dc := DcOf(c, h);
    if dc == c.localDc then Local
    else if c.usedPerRemoteDc == 0 then Ignored
    else if HostsIn(live, dc) == [] then Ignored
    else if h in Take(HostsIn(live, dc), c.usedPerRemoteDc) then Remote
    else Ignored
  }

  /** Live, and of interest to this client. */
  predicate Usable(c: Config, live: LiveHosts, h: Host) {
    h in HostsIn(live, DcOf(c, h)) && DistanceOf(c, live, h) != Ignored
  }

  /** The local hosts from position `pos` on, round to where they started. */
  function LocalPart(c: Config, live: LiveHosts, pos: nat): seq<Host> {
    var hosts := HostsIn(live, c.localDc);
    if hosts == [] then [] else Rotate(hosts, pos % |hosts|)
  }

  function RemotePart(c: Config, live: LiveHosts, dcs: seq<string>): seq<Host> {
    if dcs == [] then []
    else
      (if dcs[0] != c.localDc then Take(HostsIn(live, dcs[0]), c.usedPerRemoteDc) else []) +
      RemotePart(c, live, dcs[1..])
  }

  /** `make_query_plan`; `dcs` lists the table's keys in the order the dict gives them. */
  function DcAwarePlan(c: Config, live: LiveHosts, dcs: seq<string>, pos: nat): seq<Host> {
    LocalPart(c, live, pos) + RemotePart(c, live, dcs)
  }

  predicate KeysOf(live: LiveHosts, dcs: seq<string>) {
    Distinct(dcs) && (forall dc <- dcs :: dc in live) && (forall dc <- live :: dc in dcs)
  }

  lemma RotateFacts(s: seq<Host>, i: nat)
    requires i <= |s| && Distinct(s)
    ensures Distinct(Rotate(s, i)) && (forall x :: x in Rotate(s, i) <==> x in s)
  {
    assert s == s[..i] + s[i..];
    DistinctConcat(s[i..], s[..i]);
  }

  lemma LocalPartFacts(c: Config, live: LiveHosts, pos: nat, h: Host)
    requires WellKept(c, live)
    ensures Distinct(LocalPart(c, live, pos))
    ensures h in LocalPart(c, live, pos) <==> DcOf(c, h) == c.localDc && h in HostsIn(live, DcOf(c, h))
  {
    var hosts := HostsIn(live, c.localDc);
    if hosts != [] {
      RotateFacts(hosts, pos % |hosts|);
    }
  }

  lemma TakeFacts(s: seq<Host>, n: nat)
    requires Distinct(s)
    ensures Distinct(Take(s, n)) && (forall x :: x in Take(s, n) ==> x in s)
  {
  }

  /** A remote host is in the plan when it is among the first of its own datacenter. */
  predicate AmongFirst(c: Config, live: LiveHosts, h: Host) {
    DcOf(c, h) != c.localDc && h in Take(HostsIn(live, DcOf(c, h)), c.usedPerRemoteDc)
  }

  lemma FirstOfDc(c: Config, live: LiveHosts, dc: string, h: Host)
    requires WellKept(c, live)
    ensures Distinct(Take(HostsIn(live, dc), c.usedPerRemoteDc))
    ensures h in Take(HostsIn(live, dc), c.usedPerRemoteDc) ==> DcOf(c, h) == dc
  {
    TakeFacts(HostsIn(live, dc), c.usedPerRemoteDc);
  }

  lemma {:induction false} RemotePartHas(c: Config, live: LiveHosts, dcs: seq<string>, h: Host)
    requires WellKept(c, live)
    ensures h in RemotePart(c, live, dcs) <==> DcOf(c, h) in dcs && AmongFirst(c, live, h)
  {
    hide WellKept, Take, HostsIn, DcOf;
    if dcs != [] {
      FirstOfDc(c, live, dcs[0], h);
      RemotePartHas(c, live, dcs[1..], h);
      assert dcs == [dcs[0]] + dcs[1..];
    }
  }

  lemma {:induction false} RemotePartDistinct(c: Config, live: LiveHosts, dcs: seq<string>)
    requires WellKept(c, live) && Distinct(dcs)
    ensures Distinct(RemotePart(c, live, dcs))
  {
    hide WellKept, Take, HostsIn, DcOf;
    if dcs != [] && dcs[0] != c.localDc {
      var first, rest := Take(HostsIn(live, dcs[0]), c.usedPerRemoteDc), RemotePart(c, live, dcs[1..]);
      RemotePartDistinct(c, live, dcs[1..]);
      forall h <- first
        ensures h !in rest
      {
        FirstOfDc(c, live, dcs[0], h);
        RemotePartHas(c, live, dcs[1..], h);
      }
      if first != [] { FirstOfDc(c, live, dcs[0], first[0]); }
      DistinctConcat(first, rest);
    } else if dcs != [] {
      RemotePartDistinct(c, live, dcs[1..]);
      assert [] + RemotePart(c, live, dcs[1..]) == RemotePart(c, live, dcs[1..]);
    }
  }

  lemma AmongFirstIsRemote(c: Config, live: LiveHosts, h: Host)
    ensures AmongFirst(c, live, h) <==> DistanceOf(c, live, h) == Remote
    ensures DistanceOf(c, live, h) == Local <==> DcOf(c, h) == c.localDc
    ensures DistanceOf(c, live, h) == Remote ==> h in HostsIn(live, DcOf(c, h)) && DcOf(c, h) in live
  {
  }

  /** The DC-aware plan lists the usable hosts, each once. */
  lemma DcAwarePlanFacts(c: Config, live: LiveHosts, dcs: seq<string>, pos: nat)
    requires WellKept(c, live) && KeysOf(live, dcs)
    ensures Distinct(DcAwarePlan(c, live, dcs, pos))
    ensures forall h :: h in DcAwarePlan(c, live, dcs, pos) <==> Usable(c, live, h)
  {
    hide WellKept, Take, HostsIn, DcOf, LocalPart, RemotePart, DistanceOf, AmongFirst;
    var first, rest := LocalPart(c, live, pos), RemotePart(c, live, dcs);
    RemotePartDistinct(c, live, dcs);
    forall h: Host
      ensures h in first + rest <==> Usable(c, live, h)
      ensures h in first ==> h !in rest
      ensures Distinct(first)
    {
      LocalPartFacts(c, live, pos, h);
      RemotePartHas(c, live, dcs, h);
      AmongFirstIsRemote(c, live, h);
    }
    assert Distinct(first) by { LocalPartFacts(c, live, pos, Host("", None, None)); }
    DistinctConcat(first, rest);
  }

  lemma WrapsOnce(pos: nat, j: nat, n: nat)
    requires j < n
    ensures (pos + j) % n == if pos % n + j < n then pos % n + j else pos % n + j - n
  {
    var q, r := pos / n, pos % n;
    if r + j < n {
      ModUnique(pos + j, n, q, r + j);
    } else {
      assert (q + 1) * n == q * n + n;
      ModUnique(pos + j, n, q + 1, r + j - n);
    }
  }

  /** The hosts of one datacenter, in the order of the plan. */
  function OfDc(c: Config, plan: seq<Host>, dc: string): seq<Host> {
    if plan == [] then [] else (if DcOf(c, plan[0]) == dc then [plan[0]] else []) + OfDc(c, plan[1..], dc)
  }

  lemma {:induction false} OfDcConcat(c: Config, s: seq<Host>, t: seq<Host>, dc: string)
    ensures OfDc(c, s + t, dc) == OfDc(c, s, dc) + OfDc(c, t, dc)
  {
    hide DcOf;
    if s == [] {
      assert s + t == t;
    } else {
      var head := if DcOf(c, s[0]) == dc then [s[0]] else [];
      assert (s + t)[1..] == s[1..] + t;
      assert OfDc(c, s + t, dc) == head + OfDc(c, s[1..] + t, dc);
      assert OfDc(c, s, dc) == head + OfDc(c, s[1..], dc);
      hide OfDc;
      OfDcConcat(c, s[1..], t, dc);
    }
  }

  lemma {:induction false} AllOfDc(c: Config, s: seq<Host>, dc: string, other: string)
    requires forall h <- s :: DcOf(c, h) == dc
    ensures OfDc(c, s, other) == if other == dc then s else []
  {
    hide DcOf;
    if s != [] {
      assert s[0] in s && s == [s[0]] + s[1..];
      AllOfDc(c, s[1..], dc, other);
    }
  }

  lemma {:induction false} RemoteOfDc(c: Config, live: LiveHosts, dcs: seq<string>, dc: string)
    requires WellKept(c, live) && Distinct(dcs)
    ensures OfDc(c, RemotePart(c, live, dcs), dc) ==
            if dc in dcs && dc != c.localDc then Take(HostsIn(live, dc), c.usedPerRemoteDc) else []
  {
    hide WellKept, Take, HostsIn, DcOf, OfDc;
    if dcs == [] {
      NoHostsOfDc(c, dc);
    } else {
      var first := if dcs[0] != c.localDc then Take(HostsIn(live, dcs[0]), c.usedPerRemoteDc) else [];
      RemoteOfDc(c, live, dcs[1..], dc);
      OfDcConcat(c, first, RemotePart(c, live, dcs[1..]), dc);
      forall h <- first ensures DcOf(c, h) == dcs[0] { FirstOfDc(c, live, dcs[0], h); }
      AllOfDc(c, first, dcs[0], dc);
      NoHostsOfDc(c, dc);
      assert dcs == [dcs[0]] + dcs[1..];
      if dc == dcs[0] { assert dc !in dcs[1..]; }
    }
  }

  lemma NoHostsOfDc(c: Config, dc: string)
    ensures OfDc(c, [], dc) == []
  {
  }

  /** The order of the plan: first all live local hosts, cyclically from the position on; then remote
      hosts only, of each other datacenter the first ones in table order. */
  lemma DcAwareOrder(c: Config, live: LiveHosts, dcs: seq<string>, pos: nat, dc: string)
    requires WellKept(c, live) && KeysOf(live, dcs)
    ensures var plan, hosts := DcAwarePlan(c, live, dcs, pos), HostsIn(live, c.localDc);
            && |hosts| <= |plan|
            && (forall k :: 0 <= k < |hosts| ==> plan[k] == hosts[(pos + k) % |hosts|])
            && (forall k :: 0 <= k < |plan| ==> (DistanceOf(c, live, plan[k]) == Remote <==> |hosts| <= k))
            && (forall i, j :: 0 <= i < j < |plan| && DistanceOf(c, live, plan[i]) == Remote ==>
                  DistanceOf(c, live, plan[j]) == Remote)
            && (dc != c.localDc ==> OfDc(c, plan, dc) == Take(HostsIn(live, dc), c.usedPerRemoteDc))
  {
    hide WellKept, Take, HostsIn, DcOf, LocalPart, RemotePart, DistanceOf, AmongFirst, OfDc, KeysOf;
    var plan, hosts := DcAwarePlan(c, live, dcs, pos), HostsIn(live, c.localDc);
    var first, rest := LocalPart(c, live, pos), RemotePart(c, live, dcs);
    LocalPartIs(c, live, pos);
    forall k | 0 <= k < |plan|
      ensures DistanceOf(c, live, plan[k]) == Remote <==> |hosts| <= k
    {
      AmongFirstIsRemote(c, live, plan[k]);
      if k < |hosts| {
        LocalPartFacts(c, live, pos, plan[k]);
        assert plan[k] in first;
      } else {
        RemotePartHas(c, live, dcs, plan[k]);
        assert plan[k] == rest[k - |hosts|];
      }
    }
    if dc != c.localDc {
      OfDcConcat(c, first, rest, dc);
      forall h <- first ensures DcOf(c, h) == c.localDc { LocalPartFacts(c, live, pos, h); }
      AllOfDc(c, first, c.localDc, dc);
      KeysDistinct(live, dcs);
      RemoteOfDc(c, live, dcs, dc);
      AbsentDcHasNone(c, live, dcs, dc);
    }
  }

  /** The remote hosts come datacenter by datacenter, in the order the dict gives. */
  lemma RemoteByDatacenter(c: Config, live: LiveHosts, dcs: seq<string>, pos: nat, i: nat, j: nat)
    returns (a: nat, b: nat)
    requires WellKept(c, live) && KeysOf(live, dcs)
    requires |HostsIn(live, c.localDc)| <= i <= j < |DcAwarePlan(c, live, dcs, pos)|
    ensures var plan := DcAwarePlan(c, live, dcs, pos);
            a <= b < |dcs| && DcOf(c, plan[i]) == dcs[a] && DcOf(c, plan[j]) == dcs[b]
  {
    hide WellKept, HostsIn, DcOf, LocalPart, RemotePart, KeysOf;
    LocalPartIs(c, live, pos);
    var n := |HostsIn(live, c.localDc)|;
    a, b := RemotePartByDatacenter(c, live, dcs, i - n, j - n);
  }

  lemma {:induction false} RemotePartByDatacenter(c: Config, live: LiveHosts, dcs: seq<string>, i: nat, j: nat)
    returns (a: nat, b: nat)
    requires WellKept(c, live) && i <= j < |RemotePart(c, live, dcs)|
    ensures var rest := RemotePart(c, live, dcs);
            a <= b < |dcs| && DcOf(c, rest[i]) == dcs[a] && DcOf(c, rest[j]) == dcs[b]
    decreases |dcs|
  {
    hide WellKept, Take, HostsIn, DcOf;
    var first := if dcs[0] != c.localDc then Take(HostsIn(live, dcs[0]), c.usedPerRemoteDc) else [];
    forall h <- first ensures DcOf(c, h) == dcs[0] { FirstOfDc(c, live, dcs[0], h); }
    a, b := 0, 0;
    if j >= |first| {
      a, b := RemotePartByDatacenter(c, live, dcs[1..], if i < |first| then j - |first| else i - |first|, j - |first|);
      a, b := if i < |first| then 0 else a + 1, b + 1;
    }
  }

  lemma KeysDistinct(live: LiveHosts, dcs: seq<string>)
    requires KeysOf(live, dcs)
    ensures Distinct(dcs)
  {
  }

  lemma AbsentDcHasNone(c: Config, live: LiveHosts, dcs: seq<string>, dc: string)
    requires KeysOf(live, dcs)
    ensures dc !in dcs ==> Take(HostsIn(live, dc), c.usedPerRemoteDc) == []
  {
  }

  lemma LocalPartIs(c: Config, live: LiveHosts, pos: nat)
    ensures var hosts, first := HostsIn(live, c.localDc), LocalPart(c, live, pos);
            |first| == |hosts| && forall k :: 0 <= k < |hosts| ==> first[k] == hosts[(pos + k) % |hosts|]
  {
    var hosts, first := HostsIn(live, c.localDc), LocalPart(c, live, pos);
    forall k | 0 <= k < |hosts|
      ensures first[k] == hosts[(pos + k) % |hosts|]
    {
      WrapsOnce(pos, k, |hosts|);
    }
  }

  predicate StartsWith(c: Config, live: LiveHosts, dcs: seq<string>, pos: nat, host: Host) {
    DcAwarePlan(c, live, dcs, pos) != [] && DcAwarePlan(c, live, dcs, pos)[0] == host
  }

  /** Round robin: while the table does not change, of as many plans in a row as there are local
      hosts exactly one starts with any given local host. */
  lemma EachLocalHostComesFirst(c: Config, live: LiveHosts, dcs: seq<string>, pos: nat, i: nat) returns (turn: nat)
    requires WellKept(c, live) && i < |HostsIn(live, c.localDc)|
    ensures var hosts := HostsIn(live, c.localDc);
            && pos <= turn < pos + |hosts|
            && (forall k :: pos <= k < pos + |hosts| ==> (StartsWith(c, live, dcs, k, hosts[i]) <==> k == turn))
  {
    hide DcAwarePlan;
    var hosts := HostsIn(live, c.localDc);
    var n, r := |hosts|, pos % |hosts|;
    turn := if r <= i then pos + i - r else pos + i + n - r;
    forall k | pos <= k < pos + n
      ensures StartsWith(c, live, dcs, k, hosts[i]) <==> k == turn
    {
      WrapsOnce(pos, k - pos, n);
      FirstOfPlan(c, live, dcs, k);
      SameHost(hosts, k % n, i);
    }
  }

  lemma SameHost(hosts: seq<Host>, i: nat, j: nat)
    requires Distinct(hosts) && i < |hosts| && j < |hosts|
    ensures hosts[i] == hosts[j] <==> i == j
  {
  }

  lemma FirstOfPlan(c: Config, live: LiveHosts, dcs: seq<string>, pos: nat)
    requires HostsIn(live, c.localDc) != []
    ensures DcAwarePlan(c, live, dcs, pos) != []
    ensures DcAwarePlan(c, live, dcs, pos)[0] == HostsIn(live, c.localDc)[pos % |HostsIn(live, c.localDc)|]
  {
  }

  // --------------------------------------------------------------- the token-aware policy

  /** The replicas yielded first: those flagged up at local distance, in the order given. */
  function LocalReplicas(c: Config, live: LiveHosts, replicas: seq<Host>, up: set<Host>): seq<Host> {
    if replicas == [] then []
    else
      (if replicas[0] in up && DistanceOf(c, live, replicas[0]) == Local then [replicas[0]] else []) +
      LocalReplicas(c, live, replicas[1..], up)
  }

  /** The child's plan without the hosts already listed. */
  function NotYetListed(c: Config, live: LiveHosts, replicas: seq<Host>, plan: seq<Host>): seq<Host> {
    if plan == [] then []
    else
      (if plan[0] !in replicas || DistanceOf(c, live, plan[0]) == Remote then [plan[0]] else []) +
      NotYetListed(c, live, replicas, plan[1..])
  }

  /** `make_query_plan`; without a query, a routing key or a keyspace there are no replicas to
      prefer, and the child's plan is used as it is. */
  function TokenAwarePlan(c: Config, live: LiveHosts, dcs: seq<string>, pos: nat,
                          replicas: Option<seq<Host>>, up: set<Host>): seq<Host>
  {
    match replicas
    case None => DcAwarePlan(c, live, dcs, pos)
    case Some(rs) => LocalReplicas(c, live, rs, up) + NotYetListed(c, live, rs, DcAwarePlan(c, live, dcs, pos))
  }

  /** No local replica that is flagged up is given twice. */
  predicate NoneTwice(c: Config, replicas: seq<Host>, up: set<Host>) {
    forall i, j :: 0 <= i < j < |replicas| && replicas[i] == replicas[j] ==>
      replicas[i] !in up || DcOf(c, replicas[i]) != c.localDc
  }

  lemma {:induction false} LocalReplicasHas(c: Config, live: LiveHosts, replicas: seq<Host>, up: set<Host>)
    ensures forall h :: h in LocalReplicas(c, live, replicas, up) <==>
              h in replicas && h in up && DcOf(c, h) == c.localDc
    ensures Distinct(LocalReplicas(c, live, replicas, up)) <==> NoneTwice(c, replicas, up)
  {
    hide HostsIn, Take, NoneTwice, DcOf, Distinct;
    if replicas == [] {
      NothingTwice(c, live, up);
    } else {
      var h, rest := replicas[0], LocalReplicas(c, live, replicas[1..], up);
      LocalReplicasHas(c, live, replicas[1..], up);
      assert replicas == [h] + replicas[1..];
      FirstTwice(c, replicas, up);
      FirstDistinct(h, rest);
      assert [] + rest == rest;
    }
  }

  lemma NothingTwice(c: Config, live: LiveHosts, up: set<Host>)
    ensures NoneTwice(c, [], up) && Distinct(LocalReplicas(c, live, [], up))
  {
  }

  lemma FirstTwice(c: Config, replicas: seq<Host>, up: set<Host>)
    requires replicas != []
    ensures NoneTwice(c, replicas, up) <==>
            && NoneTwice(c, replicas[1..], up)
            && (replicas[0] in up && DcOf(c, replicas[0]) == c.localDc ==> replicas[0] !in replicas[1..])
  {
    hide DcOf;
    var rest := replicas[1..];
    assert forall k :: 1 <= k < |replicas| ==> replicas[k] == rest[k - 1];
    if NoneTwice(c, replicas, up) {
      assert forall k :: 0 <= k < |rest| ==> rest[k] == replicas[k + 1];
    }
  }

  lemma FirstDistinct(h: Host, rest: seq<Host>)
    ensures Distinct([h] + rest) <==> Distinct(rest) && h !in rest
  {
    var all := [h] + rest;
    assert forall k :: 0 <= k < |rest| ==> rest[k] == all[k + 1];
    if h in rest {
      var k :| 0 <= k < |rest| && rest[k] == h;
      assert all[0] == all[k + 1];
    }
  }

  lemma {:induction false} NotYetListedHas(c: Config, live: LiveHosts, replicas: seq<Host>, plan: seq<Host>)
    requires Distinct(plan)
    ensures forall h :: h in NotYetListed(c, live, replicas, plan) <==>
              h in plan && (h !in replicas || DistanceOf(c, live, h) == Remote)
    ensures Distinct(NotYetListed(c, live, replicas, plan))
  {
    hide DistanceOf;
    if plan != [] {
      assert plan == [plan[0]] + plan[1..];
      assert plan[0] !in plan[1..];
      NotYetListedHas(c, live, replicas, plan[1..]);
    }
  }

  lemma EmbedsLater(s: seq<Host>, t: seq<Host>, at: seq<nat>, h: Host, kept: bool) returns (more: seq<nat>)
    requires Embeds(s, t, at)
    ensures Embeds((if kept then [h] else []) + s, [h] + t, more)
  {
    var shifted := seq(|at|, i requires 0 <= i < |at| => at[i] + 1);
    more := (if kept then [0] else []) + shifted;
    var all := (if kept then [h] else []) + s;
    var d := if kept then 1 else 0;
    assert forall i :: d <= i < |all| ==> all[i] == s[i - d] && more[i] == at[i - d] + 1;
  }

  lemma {:induction false} LocalReplicasInOrder(c: Config, live: LiveHosts, replicas: seq<Host>, up: set<Host>)
    returns (at: seq<nat>)
    ensures Embeds(LocalReplicas(c, live, replicas, up), replicas, at)
  {
    hide DistanceOf;
    if replicas == [] {
      at := [];
    } else {
      var rest := LocalReplicasInOrder(c, live, replicas[1..], up);
      at := EmbedsLater(LocalReplicas(c, live, replicas[1..], up), replicas[1..], rest, replicas[0],
        replicas[0] in up && DistanceOf(c, live, replicas[0]) == Local);
      assert [replicas[0]] + replicas[1..] == replicas;
    }
  }

  lemma {:induction false} NotYetListedInOrder(c: Config, live: LiveHosts, replicas: seq<Host>, plan: seq<Host>)
    returns (at: seq<nat>)
    ensures Embeds(NotYetListed(c, live, replicas, plan), plan, at)
  {
    hide DistanceOf;
    if plan == [] {
      at := [];
    } else {
      var rest := NotYetListedInOrder(c, live, replicas, plan[1..]);
      at := EmbedsLater(NotYetListed(c, live, replicas, plan[1..]), plan[1..], rest, plan[0],
        plan[0] !in replicas || DistanceOf(c, live, plan[0]) == Remote);
      assert [plan[0]] + plan[1..] == plan;
    }
  }

  /** The token-aware plan is local replicas in the order they are given, and then hosts in the order
      of the child's plan. */
  lemma TokenAwareOrder(c: Config, live: LiveHosts, dcs: seq<string>, pos: nat, replicas: seq<Host>, up: set<Host>)
    returns (n: nat, first: seq<nat>, rest: seq<nat>)
    requires WellKept(c, live) && KeysOf(live, dcs)
    ensures var plan := TokenAwarePlan(c, live, dcs, pos, Some(replicas), up);
            && n <= |plan|
            && Embeds(plan[..n], replicas, first)
            && Embeds(plan[n..], DcAwarePlan(c, live, dcs, pos), rest)
            && (forall k :: 0 <= k < n ==> plan[k] in up && DcOf(c, plan[k]) == c.localDc)
            && (forall k :: n <= k < |plan| ==> plan[k] !in replicas || DistanceOf(c, live, plan[k]) == Remote)
  {
    hide WellKept, KeysOf, DistanceOf, DcAwarePlan, LocalReplicas, NotYetListed, DcOf;
    var plan, child := TokenAwarePlan(c, live, dcs, pos, Some(replicas), up), DcAwarePlan(c, live, dcs, pos);
    var mine, others := LocalReplicas(c, live, replicas, up), NotYetListed(c, live, replicas, child);
    n := |mine|;
    first := LocalReplicasInOrder(c, live, replicas, up);
    rest := NotYetListedInOrder(c, live, replicas, child);
    assert plan[..n] == mine && plan[n..] == others;
    LocalReplicasHas(c, live, replicas, up);
    DcAwarePlanFacts(c, live, dcs, pos);
    NotYetListedHas(c, live, replicas, child);
    forall k | 0 <= k < |plan|
      ensures if k < n then plan[k] in mine else plan[k] in others
    {
      if k >= n { assert plan[k] == others[k - n]; }
    }
  }

  /** The up flags of the local replicas agree with the policy's table. */
  predicate FlagsAgree(c: Config, live: LiveHosts, replicas: seq<Host>, up: set<Host>) {
    forall h <- replicas :: DcOf(c, h) == c.localDc ==> (h in up <==> h in HostsIn(live, c.localDc))
  }

  /** Duplicate-free exactly when no local replica that is flagged up is given twice. */
  lemma TokenAwareDistinct(c: Config, live: LiveHosts, dcs: seq<string>, pos: nat, replicas: Option<seq<Host>>,
    up: set<Host>)
    requires WellKept(c, live) && KeysOf(live, dcs)
    ensures Distinct(TokenAwarePlan(c, live, dcs, pos, replicas, up)) <==>
            (replicas.Some? ==> NoneTwice(c, replicas.value, up))
  {
    hide WellKept, KeysOf, HostsIn, DistanceOf, DcAwarePlan, LocalReplicas, NotYetListed, DcOf, NoneTwice;
    DcAwarePlanFacts(c, live, dcs, pos);
    if replicas.Some? {
      var rs, plan := replicas.value, DcAwarePlan(c, live, dcs, pos);
      LocalReplicasHas(c, live, rs, up);
      NotYetListedHas(c, live, rs, plan);
      forall h <- LocalReplicas(c, live, rs, up)
        ensures h !in NotYetListed(c, live, rs, plan)
      {
        AmongFirstIsRemote(c, live, h);
      }
      DistinctConcat(LocalReplicas(c, live, rs, up), NotYetListed(c, live, rs, plan));
    }
  }

  /** The plan lists exactly the usable hosts if and only if the up flags of the local replicas
      agree with the table. */
  lemma TokenAwareCovers(c: Config, live: LiveHosts, dcs: seq<string>, pos: nat, replicas: seq<Host>, up: set<Host>)
    requires WellKept(c, live) && KeysOf(live, dcs)
    ensures (forall h :: h in TokenAwarePlan(c, live, dcs, pos, Some(replicas), up) <==> Usable(c, live, h)) <==>
            FlagsAgree(c, live, replicas, up)
  {
    hide WellKept, KeysOf, HostsIn, DistanceOf, DcAwarePlan, LocalReplicas, NotYetListed, DcOf;
    var plan := TokenAwarePlan(c, live, dcs, pos, Some(replicas), up);
    forall h: Host
      ensures h in plan <==> Listed(c, live, replicas, up, h)
      ensures DcOf(c, h) == c.localDc ==> (Usable(c, live, h) <==> h in HostsIn(live, c.localDc))
    {
      TokenAwareHas(c, live, dcs, pos, replicas, up, h);
      AmongFirstIsRemote(c, live, h);
    }
    hide Usable, TokenAwarePlan;
    if FlagsAgree(c, live, replicas, up) {
      assert forall h :: h in plan <==> Usable(c, live, h);
    } else {
      var h :| h in replicas && DcOf(c, h) == c.localDc && !(h in up <==> h in HostsIn(live, c.localDc));
      assert !(h in plan <==> Usable(c, live, h));
    }
  }

  /** A local replica is listed when it is flagged up; any other host, when it is usable. */
  predicate Listed(c: Config, live: LiveHosts, replicas: seq<Host>, up: set<Host>, h: Host) {
    if h in replicas && DcOf(c, h) == c.localDc then h in up else Usable(c, live, h)
  }

  lemma TokenAwareHas(c: Config, live: LiveHosts, dcs: seq<string>, pos: nat, replicas: seq<Host>, up: set<Host>,
    h: Host)
    requires WellKept(c, live) && KeysOf(live, dcs)
    ensures h in TokenAwarePlan(c, live, dcs, pos, Some(replicas), up) <==> Listed(c, live, replicas, up, h)
  {
    hide WellKept, KeysOf, HostsIn, DistanceOf, DcAwarePlan, LocalReplicas, NotYetListed, DcOf;
    DcAwarePlanFacts(c, live, dcs, pos);
    LocalReplicasHas(c, live, replicas, up);
    NotYetListedHas(c, live, replicas, DcAwarePlan(c, live, dcs, pos));
    AmongFirstIsRemote(c, live, h);
  }

  /** The plan starts with the live local replicas, in the order the replicas come. */
  function LiveLocal(c: Config, events: seq<Event>, replicas: seq<Host>): seq<Host> {
    if replicas == [] then []
    else
      (if LiveAfter(events, replicas[0]) && DcOf(c, replicas[0]) == c.localDc then [replicas[0]] else []) +
      LiveLocal(c, events, replicas[1..])
  }

  lemma {:induction false} LocalReplicasAreLive(c: Config, events: seq<Event>, replicas: seq<Host>, up: set<Host>)
    requires forall h <- replicas :: h in up <==> LiveAfter(events, h)
    ensures LocalReplicas(c, Table(c, events), replicas, up) == LiveLocal(c, events, replicas)
  {
    hide LiveAfter, Table, HostsIn, Take;
    if replicas != [] {
      LocalReplicasAreLive(c, events, replicas[1..], up);
    }
  }

  /** After any run from an empty policy, with flags that tell the live hosts: the token-aware
      plan starts with the live local replicas, holds exactly the live hosts whose distance is not
      ignored, and has duplicates only if the replicas it is given have one. */
  lemma TokenAwarePlanAfterAnyRun(c: Config, events: seq<Event>, dcs: seq<string>, pos: nat, replicas: seq<Host>,
    up: set<Host>)
    requires KeysOf(Table(c, events), dcs)
    requires forall h <- replicas :: h in up <==> LiveAfter(events, h)
    ensures var plan := TokenAwarePlan(c, Table(c, events), dcs, pos, Some(replicas), up);
            && (Distinct(plan) <==> NoneTwice(c, replicas, up))
            && LiveLocal(c, events, replicas) <= plan
            && (forall h :: h in plan <==> LiveAfter(events, h) && DistanceOf(c, Table(c, events), h) != Ignored)
  {
    hide WellKept, KeysOf, HostsIn, DistanceOf, LocalReplicas, NotYetListed, DcOf, Table, LiveAfter, DcAwarePlan,
      NoneTwice;
    var live := Table(c, events);
    forall h: Host
      ensures WellKept(c, live) && (h in HostsIn(live, DcOf(c, h)) <==> LiveAfter(events, h))
    {
      TableIsLive(c, events, h);
    }
    assert WellKept(c, live) by { TableIsLive(c, events, Host("", None, None)); }
    TokenAwareDistinct(c, live, dcs, pos, Some(replicas), up);
    LocalReplicasAreLive(c, events, replicas, up);
    assert FlagsAgree(c, live, replicas, up);
    TokenAwareCovers(c, live, dcs, pos, replicas, up);
  }

  // ------------------------------------------------------- plans over the replica map of a ring

  lemma {:induction false} DistinctInDc(c: Config, replicas: seq<Host>, up: set<Host>)
    requires forall h <- replicas :: Located(h) && (h.datacenter == Some(c.localDc) ==> h in up)
    ensures NoneTwice(c, replicas, up) <==> Distinct(NetworkTopology.InDc(replicas, Some(c.localDc)))
  {
    if replicas != [] {
      var front, h := replicas[..|replicas| - 1], replicas[|replicas| - 1];
      DistinctInDc(c, front, up);
      hide Distinct;
      NetworkTopology.InDcElems(front, Some(c.localDc));
      LastTwice(c, replicas, up);
      LastDistinct(NetworkTopology.InDc(front, Some(c.localDc)), h);
      assert h in replicas;
    }
  }

  lemma LastTwice(c: Config, replicas: seq<Host>, up: set<Host>)
    requires replicas != []
    ensures var front, h := replicas[..|replicas| - 1], replicas[|replicas| - 1];
            NoneTwice(c, replicas, up) <==>
            NoneTwice(c, front, up) && (h in up && DcOf(c, h) == c.localDc ==> h !in front)
  {
    hide DcOf;
    var front := replicas[..|replicas| - 1];
    if NoneTwice(c, replicas, up) {
      assert forall k :: 0 <= k < |front| ==> front[k] == replicas[k];
    }
  }

  lemma LastDistinct(front: seq<Host>, h: Host)
    ensures Distinct(front + [h]) <==> Distinct(front) && h !in front
  {
    var all := front + [h];
    assert forall k :: 0 <= k < |front| ==> front[k] == all[k];
    if h in front {
      var k :| 0 <= k < |front| && front[k] == h;
      assert all[k] == all[|front|];
    }
  }

  /** With the replicas of a ring position under a network topology, all local ones flagged up, the
      plan has no duplicates exactly when the passed-over tokens of the local datacenter that fill
      the places left are of distinct hosts; which they are when each host owns one token. */
  lemma TokenAwareOverRing(c: Config, live: LiveHosts, dcs: seq<string>, pos: nat, factors: map<string, int>,
    owner: map<Token, Host>, ring: seq<Token>, i: nat, up: set<Host>)
    requires WellKept(c, live) && KeysOf(live, dcs)
    requires Owned(owner, ring) && Distinct(ring) && i < |ring|
    requires NetworkTopology.AllLocated(Owners(owner, ring))
    requires c.localDc in factors && factors[c.localDc] > 0
    requires forall h <- Owners(owner, ring) :: h in up
    ensures ring[i] in NetworkTopology.ReplicaMapOf(factors, owner, ring)
    ensures var owners := Owners(owner, ring);
            var replicas := NetworkTopology.ReplicaMapOf(factors, owner, ring)[ring[i]];
            var walk := NetworkTopology.DcWalk(owners, i, Some(c.localDc));
            var spares := Take(RackSpread.Spares(walk[..RackSpread.Cover(walk)]),
                               factors[c.localDc] - |RackSpread.Racks(walk)|);
            var plan := TokenAwarePlan(c, live, dcs, pos, Some(replicas), up);
            (Distinct(plan) <==> Distinct(spares)) && (Distinct(owners) ==> Distinct(plan))
  {
    hide WellKept, KeysOf, TokenAwarePlan, NoneTwice, Distinct, NetworkTopology.ReplicaMapOf, NetworkTopology.InDc,
      NetworkTopology.DcWalk, RackSpread.Spares, RackSpread.Cover, RackSpread.Racks;
    NetworkTopology.ReplicasOfDatacenter(factors, owner, ring, i, c.localDc);
    var replicas := NetworkTopology.ReplicaMapOf(factors, owner, ring)[ring[i]];
    TokenAwareDistinct(c, live, dcs, pos, Some(replicas), up);
    forall h <- replicas
      ensures Located(h) && h in up
    {
      NetworkTopology.ReplicasAreOwners(factors, owner, ring, i, h);
    }
    DistinctInDc(c, replicas, up);
  }

  /** On the ring that lists a host twice, a plan over its first token has that host twice. */
  lemma PlanWithAHostTwice(dcs: seq<string>, pos: nat, live: LiveHosts, a: Host, b: Host, d: Host)
    requires Located(a) && Located(b) && Located(d) && a.datacenter == b.datacenter == d.datacenter == Some("dc1")
    requires a != b && a.rack == b.rack && b.rack != d.rack
    requires WellKept(Config("dc1", 0), live) && KeysOf(live, dcs)
    ensures var owner := NetworkTopology.RepeatOwner(a, b, d);
            && Owned(owner, NetworkTopology.REPEAT_RING)
            && (var m := NetworkTopology.ReplicaMapOf(map["dc1" := 4], owner, NetworkTopology.REPEAT_RING);
                0 in m && !Distinct(TokenAwarePlan(Config("dc1", 0), live, dcs, pos, Some(m[0]), {b})))
  {
    hide WellKept, KeysOf, TokenAwarePlan, NetworkTopology.ReplicaMapOf, Distinct;
    NetworkTopology.HostListedTwice(a, b, d, "dc1");
    TokenAwareDistinct(Config("dc1", 0), live, dcs, pos, Some([a, d, b, b]), {b});
    assert [a, d, b, b][2] == [a, d, b, b][3];
  }

  /** With stale flags the plan can miss a live host: a replica still flagged down is skipped as
      a replica and then filtered out of the child's plan as one already listed. */
  lemma StaleFlagDropsAHost()
    ensures var c, h := Config("dc1", 0), Host("a", Some("dc1"), None);
            LiveAfter([Up(h)], h) && TokenAwarePlan(c, Table(c, [Up(h)]), ["dc1"], 0, Some([h]), {}) == []
  {
    var c, h := Config("dc1", 0), Host("a", Some("dc1"), None);
    var live := Table(c, [Up(h)]);
    assert [Up(h)][..0] == [];
    assert Table(c, []) == map[] && live == OnUp(c, map[], h);
    assert live == map["dc1" := [] + [h]];
    assert KeysOf(live, ["dc1"]);
    assert WellKept(c, live) by { TableIsLive(c, [Up(h)], h); }
    var plan := TokenAwarePlan(c, live, ["dc1"], 0, Some([h]), {});
    forall x: Host
      ensures x !in plan
    {
      TokenAwareHas(c, live, ["dc1"], 0, [h], {}, x);
    }
  }

  // ------------------------------------------------------------------- the policy objects

  class DcAwareRoundRobinPolicy {
    const config: Config
    var dcLiveHosts: LiveHosts
    var position: nat

    ghost var events: seq<Event>

    ghost predicate Valid()
      reads this
    {
      dcLiveHosts == Table(config, events)
    }

    constructor (config: Config, position: nat)
      ensures Valid() && this.config == config && events == []
    {
      this.config, this.position, dcLiveHosts, events := config, position, map[], [];
    }

    method OnUpEvent(host: Host, e: Event)
      requires Valid() && e.host == host && (e.Up? || e.Added?)
      modifies this`dcLiveHosts, this`events
      ensures Valid() && events == old(events) + [e]
      ensures host in HostsIn(dcLiveHosts, DcOf(config, host))
      ensures forall h :: h != host ==>
                (h in HostsIn(dcLiveHosts, DcOf(config, h)) <==> h in old(HostsIn(dcLiveHosts, DcOf(config, h))))
    {
      hide WellKept, LiveAfter, Table, OnUp, OnDown, HostsIn, DcOf;
      TableIsLive(config, events, host);
      OnUpKeeps(config, dcLiveHosts, host);
      TableStep(config, events, e);
      dcLiveHosts := Enter(config, dcLiveHosts, host);
      events := events + [e];
    }

    static method Enter(config: Config, live: LiveHosts, host: Host) returns (after: LiveHosts)
      ensures after == OnUp(config, live, host)
    {
      var dc := DcOf(config, host);
      var currentHosts := if dc in live then live[dc] else [];
      after := live;
      if host !in currentHosts {
        after := live[dc := currentHosts + [host]];
      }
    }

    method OnDownEvent(host: Host, e: Event)
      requires Valid() && e.host == host && (e.Down? || e.Removed?)
      modifies this`dcLiveHosts, this`events
      ensures Valid() && events == old(events) + [e]
      ensures host !in HostsIn(dcLiveHosts, DcOf(config, host))
      ensures forall h :: h != host ==>
                (h in HostsIn(dcLiveHosts, DcOf(config, h)) <==> h in old(HostsIn(dcLiveHosts, DcOf(config, h))))
    {
      hide WellKept, LiveAfter, Table, OnUp, OnDown, HostsIn, DcOf;
      TableIsLive(config, events, host);
      OnDownKeeps(config, dcLiveHosts, host);
      TableStep(config, events, e);
      dcLiveHosts := Leave(config, dcLiveHosts, host);
      events := events + [e];
    }

    static method Leave(config: Config, live: LiveHosts, host: Host) returns (after: LiveHosts)
      ensures after == OnDown(config, live, host)
    {
      hide Without;
      var dc := DcOf(config, host);
      var currentHosts := if dc in live then live[dc] else [];
      after := live;
      if host in currentHosts {
        var hosts := AllBut(currentHosts, host);
        if hosts != [] {
          after := live[dc := hosts];
        } else {
          after := live - {dc};
        }
      }
    }

    static method AllBut(hosts: seq<Host>, host: Host) returns (kept: seq<Host>)
      ensures kept == Without(hosts, host)
    {
      NothingLeft(hosts, host);
      hide Without;
      kept := [];
      var i := 0;
      while i < |hosts|
        invariant 0 <= i <= |hosts|
        invariant kept + Without(hosts[i..], host) == Without(hosts, host)
      {
        WithoutHead(hosts, i, host);
        if hosts[i] != host {
          kept := kept + [hosts[i]];
        }
        i := i + 1;
      }
    }

    method GetDistance(host: Host) returns (d: Distance)
      ensures d == DistanceOf(config, dcLiveHosts, host)
      ensures d == Local <==> DcOf(config, host) == config.localDc
      ensures d == Remote <==> AmongFirst(config, dcLiveHosts, host)
    {
      AmongFirstIsRemote(config, dcLiveHosts, host);
      var dc := DcOf(config, host);
      if dc == config.localDc {
        return Local;
      }
      if config.usedPerRemoteDc == 0 {
        return Ignored;
      }
      var dcHosts := if dc in dcLiveHosts then dcLiveHosts[dc] else [];
      if dcHosts == [] {
        return Ignored;
      }
      if host in Take(dcHosts, config.usedPerRemoteDc) {
        return Remote;
      }
      d := Ignored;
    }

    /** `dcs` is `_dc_live_hosts.copy().keys()`. */
    method MakeQueryPlan(dcs: seq<string>) returns (plan: seq<Host>)
      requires Valid() && KeysOf(dcLiveHosts, dcs)
      modifies this`position
      ensures position == old(position) + 1
      ensures plan == DcAwarePlan(config, dcLiveHosts, dcs, old(position))
      ensures Distinct(plan) && (forall h :: h in plan <==> Usable(config, dcLiveHosts, h))
    {
      TableIsLive(config, events, Host("", None, None));
      DcAwarePlanFacts(config, dcLiveHosts, dcs, position);
      var pos := position;
      position := position + 1;
      plan := CycleLocal(pos);
      plan := AddRemote(plan, dcs);
    }

    /** `islice(cycle(local_live), pos, pos + len(local_live))`. */
    method CycleLocal(position: nat) returns (plan: seq<Host>)
      ensures plan == LocalPart(config, dcLiveHosts, position)
    {
      var localLive := if config.localDc in dcLiveHosts then dcLiveHosts[config.localDc] else [];
      plan := [];
      if localLive == [] {
        return;
      }
      var pos := position % |localLive|;
      var i := pos;
      while i < pos + |localLive|
        invariant pos <= i <= pos + |localLive|
        invariant plan == Rotate(localLive, pos)[..i - pos]
      {
        RotateIndex(localLive, pos, i - pos);
        plan := plan + [localLive[i % |localLive|]];
        i := i + 1;
      }
    }

    method AddRemote(start: seq<Host>, dcs: seq<string>) returns (plan: seq<Host>)
      ensures plan == start + RemotePart(config, dcLiveHosts, dcs)
    {
      plan := start;
      var i := 0;
      while i < |dcs|
        invariant 0 <= i <= |dcs|
        invariant plan + RemotePart(config, dcLiveHosts, dcs[i..]) == start + RemotePart(config, dcLiveHosts, dcs)
      {
        var dc := dcs[i];
        if dc != config.localDc {
          var remoteLive := if dc in dcLiveHosts then dcLiveHosts[dc] else [];
          plan := plan + Take(remoteLive, config.usedPerRemoteDc);
        }
        i := i + 1;
      }
    }
  }

  class TokenAwarePolicy {
    const child: DcAwareRoundRobinPolicy

    constructor (child: DcAwareRoundRobinPolicy)
      ensures this.child == child
    {
      this.child := child;
    }

    /** `replicas` is what the cluster metadata gives for the routing key, shuffled or not, and
        `up` the replicas whose `is_up` is set. */
    method MakeQueryPlan(dcs: seq<string>, replicas: Option<seq<Host>>, up: set<Host>) returns (plan: seq<Host>)
      requires child.Valid() && KeysOf(child.dcLiveHosts, dcs)
      modifies child`position
      ensures plan == TokenAwarePlan(child.config, child.dcLiveHosts, dcs, old(child.position), replicas, up)
      ensures Distinct(plan) <==> (replicas.Some? ==> NoneTwice(child.config, replicas.value, up))
      ensures replicas.Some? ==>
                ((forall h :: h in plan <==> Usable(child.config, child.dcLiveHosts, h)) <==>
                 FlagsAgree(child.config, child.dcLiveHosts, replicas.value, up))
    {
      hide WellKept, KeysOf, HostsIn, DistanceOf, LocalReplicas, NotYetListed, DcAwarePlan, FlagsAgree, Distinct,
        NoneTwice;
      ghost var c, live, pos := child.config, child.dcLiveHosts, child.position;
      TableIsLive(c, child.events, Host("", None, None));
      TokenAwareDistinct(c, live, dcs, pos, replicas, up);
      if replicas.None? {
        plan := child.MakeQueryPlan(dcs);
      } else {
        TokenAwareCovers(c, live, dcs, pos, replicas.value, up);
        var first := ReplicasFirst(replicas.value, up);
        var rest := child.MakeQueryPlan(dcs);
        rest := SkipListed(replicas.value, rest);
        plan := first + rest;
      }
    }

    lemma NoReplicas(up: set<Host>)
      ensures LocalReplicas(child.config, child.dcLiveHosts, [], up) == []
    {
    }

    /** One turn of the loop over the replicas. */
    lemma KeepOne(replicas: seq<Host>, up: set<Host>, plan: seq<Host>, i: nat)
      requires i < |replicas|
      ensures var kept := if replicas[i] in up && DistanceOf(child.config, child.dcLiveHosts, replicas[i]) == Local
              then [replicas[i]] else [];
              plan + LocalReplicas(child.config, child.dcLiveHosts, replicas[i..], up) ==
              (plan + kept) + LocalReplicas(child.config, child.dcLiveHosts, replicas[i + 1..], up)
    {
      hide DistanceOf;
      assert replicas[i..][0] == replicas[i] && replicas[i..][1..] == replicas[i + 1..];
    }

    method ReplicasFirst(replicas: seq<Host>, up: set<Host>) returns (plan: seq<Host>)
      ensures plan == LocalReplicas(child.config, child.dcLiveHosts, replicas, up)
    {
      hide DistanceOf, LocalReplicas, AmongFirst;
      plan := [];
      var i := 0;
      assert replicas[0..] == replicas;
      while i < |replicas|
        invariant 0 <= i <= |replicas|
        invariant plan + LocalReplicas(child.config, child.dcLiveHosts, replicas[i..], up) ==
                  LocalReplicas(child.config, child.dcLiveHosts, replicas, up)
      {
        var d := child.GetDistance(replicas[i]);
        KeepOne(replicas, up, plan, i);
        if replicas[i] in up && d == Local {
          plan := plan + [replicas[i]];
        } else {
          assert plan + [] == plan;
        }
        i := i + 1;
      }
      NoReplicas(up);
      assert replicas[i..] == [] && plan + [] == plan;
    }

    lemma NothingToSkip(replicas: seq<Host>)
      ensures NotYetListed(child.config, child.dcLiveHosts, replicas, []) == []
    {
    }

    /** One turn of the filter. */
    lemma SkipOne(replicas: seq<Host>, hosts: seq<Host>, plan: seq<Host>, i: nat)
      requires i < |hosts|
      ensures var kept := if hosts[i] !in replicas || DistanceOf(child.config, child.dcLiveHosts, hosts[i]) == Remote
              then [hosts[i]] else [];
              plan + NotYetListed(child.config, child.dcLiveHosts, replicas, hosts[i..]) ==
              (plan + kept) + NotYetListed(child.config, child.dcLiveHosts, replicas, hosts[i + 1..])
    {
      hide DistanceOf;
      assert hosts[i..][0] == hosts[i] && hosts[i..][1..] == hosts[i + 1..];
    }

    method SkipListed(replicas: seq<Host>, hosts: seq<Host>) returns (plan: seq<Host>)
      ensures plan == NotYetListed(child.config, child.dcLiveHosts, replicas, hosts)
    {
      hide DistanceOf, NotYetListed, AmongFirst;
      plan := [];
      var i := 0;
      assert hosts[0..] == hosts;
      while i < |hosts|
        invariant 0 <= i <= |hosts|
        invariant plan + NotYetListed(child.config, child.dcLiveHosts, replicas, hosts[i..]) ==
                  NotYetListed(child.config, child.dcLiveHosts, replicas, hosts)
      {
        var d := child.GetDistance(hosts[i]);
        SkipOne(replicas, hosts, plan, i);
        if hosts[i] !in replicas || d == Remote {
          plan := plan + [hosts[i]];
        } else {
          assert plan + [] == plan;
        }
        i := i + 1;
      }
      NothingToSkip(replicas);
      assert hosts[i..] == [] && plan + [] == plan;
    }
  }
}
