/** Commands that reach every host "beyond" a given one (base/commands.c): switching
    notifications and scheduling downtime. Both recurse over child links without remembering
    where they have been, so they rely on the cycle check to terminate. */
module Propagation {
  import opened Common
  import opened Graphs

  /** The attributes a runtime command may have changed; a set stands for the C bit mask. */
  datatype ModifiedAttribute = NotificationsEnabledAttribute | OtherAttribute(bit: nat)

  /** The part of a host or a service that these commands write. */
  datatype Flags = Flags(notificationsEnabled: bool, modifiedAttributes: set<ModifiedAttribute>)

  class Service {
    var notificationsEnabled: bool
    var modifiedAttributes: set<ModifiedAttribute>
  }

  /** The links of a host do not change once the configuration is read. */
  class Host {
    const name: string
    const childHosts: seq<Host>
    const services: seq<Service>
    var notificationsEnabled: bool
    var modifiedAttributes: set<ModifiedAttribute>

    constructor (name: string, childHosts: seq<Host>, services: seq<Service>)
      ensures this.name == name && this.childHosts == childHosts && this.services == services
    {
      this.name, this.childHosts, this.services := name, childHosts, services;
    }
  }

  // ---------- the effect, on values ----------

  /** Switching records the attribute only when the switch actually moves. */
  function Switched(f: Flags, on: bool): Flags {
    if f.notificationsEnabled == on then f
    else Flags(on, f.modifiedAttributes + {NotificationsEnabledAttribute})
  }

  /** Switching exactly the objects in `touched`. */
  ghost function SwitchAll<T>(m: map<T, Flags>, touched: set<T>, on: bool): (r: map<T, Flags>)
    ensures r.Keys == m.Keys
  {
    map x | x in m :: if x in touched then Switched(m[x], on) else m[x]
  }

  lemma SwitchTwice<T>(m: map<T, Flags>, a: set<T>, b: set<T>, on: bool)
    ensures SwitchAll(SwitchAll(m, a, on), b, on) == SwitchAll(m, a + b, on)
  {
  }

  lemma SwitchNone<T>(m: map<T, Flags>, on: bool)
    ensures SwitchAll(m, {}, on) == m
  {
  }

  /** The hosts reached through the first `i` children, those children included. */
  ghost function BeyondFirst<T>(g: Links<T>, h: T, i: nat): set<T>
    requires h in g && i <= |g[h]|
  {
    if i == 0 then {} else BeyondFirst(g, h, i - 1) + {g[h][i - 1]} + Descendants(g, g[h][i - 1])
  }

  /** Going through all children reaches exactly the proper descendants. */
  lemma {:induction false} BeyondAllChildren<T>(g: Links<T>, h: T)
    requires Closed(g) && h in g
    ensures BeyondFirst(g, h, |g[h]|) == Descendants(g, h)
  {
    forall d | d in g ensures d in BeyondFirst(g, h, |g[h]|) <==> Below(g, h, d) {
      BeyondFirstExactly(g, h, |g[h]|, d);
    }
    BeyondFirstInside(g, h, |g[h]|);
  }

  lemma {:induction false} BeyondFirstInside<T>(g: Links<T>, h: T, i: nat)
    requires Closed(g) && h in g && i <= |g[h]|
    ensures BeyondFirst(g, h, i) <= g.Keys
  {
    if i > 0 { BeyondFirstInside(g, h, i - 1); }
  }

  lemma {:induction false} BeyondFirstExactly<T>(g: Links<T>, h: T, i: nat, d: T)
    requires Closed(g) && h in g && i <= |g[h]| && d in g
    ensures d in BeyondFirst(g, h, i) <==> exists j :: 0 <= j < i && Reaches(g, g[h][j], d)
  {
    if i > 0 {
      BeyondFirstExactly(g, h, i - 1, d);
      ReachesSplit(g, g[h][i - 1], d);
    }
  }

  /** The services running on a set of hosts. */
  ghost function ServicesOn<T, S>(on: map<T, seq<S>>, hosts: set<T>): set<S> {
    set h, s | h in hosts && h in on && s in on[h] :: s
  }

  // ---------- switching notifications ----------

  /** `g` and `runs` are what the child links and the service lists of `hosts` say. */
  ghost predicate Configured(g: Links<Host>, runs: map<Host, seq<Service>>, hosts: set<Host>, svcs: set<Service>)
  {
    && g.Keys == hosts == runs.Keys
    && (forall h {:trigger h.childHosts} :: h in hosts ==> h.childHosts == g[h])
    && (forall h {:trigger h.services} :: h in hosts ==> h.services == runs[h])
    && (forall h, s {:trigger s in runs[h]} :: h in hosts && s in runs[h] ==> s in svcs)
  }

  ghost function HostFlags(hosts: set<Host>): (m: map<Host, Flags>)
    reads hosts`notificationsEnabled, hosts`modifiedAttributes
    ensures m.Keys == hosts
  {
    map h | h in hosts :: Flags(h.notificationsEnabled, h.modifiedAttributes)
  }

  ghost function ServiceFlags(svcs: set<Service>): (m: map<Service, Flags>)
    reads svcs`notificationsEnabled, svcs`modifiedAttributes
    ensures m.Keys == svcs
  {
    map s | s in svcs :: Flags(s.notificationsEnabled, s.modifiedAttributes)
  }

  method SwitchHostNotifications(hst: Host, on: bool, ghost hosts: set<Host>)
    requires hst in hosts
    modifies hst`notificationsEnabled, hst`modifiedAttributes
    ensures HostFlags(hosts) == SwitchAll<Host>(old(HostFlags(hosts)), {hst}, on)
    ensures hst.notificationsEnabled == on
    ensures old(hst.notificationsEnabled) == on ==> hst.modifiedAttributes == old(hst.modifiedAttributes)
    ensures old(hst.notificationsEnabled) != on ==>
      hst.modifiedAttributes == old(hst.modifiedAttributes) + {NotificationsEnabledAttribute}
  {
    if hst.notificationsEnabled == on {
      return;
    }
    hst.modifiedAttributes := hst.modifiedAttributes + {NotificationsEnabledAttribute};
    hst.notificationsEnabled := on;
  }

  method SwitchServiceNotifications(svc: Service, on: bool, ghost svcs: set<Service>)
    requires svc in svcs
    modifies svc`notificationsEnabled, svc`modifiedAttributes
    ensures ServiceFlags(svcs) == SwitchAll<Service>(old(ServiceFlags(svcs)), {svc}, on)
    ensures svc.notificationsEnabled == on
    ensures old(svc.notificationsEnabled) == on ==> svc.modifiedAttributes == old(svc.modifiedAttributes)
    ensures old(svc.notificationsEnabled) != on ==>
      svc.modifiedAttributes == old(svc.modifiedAttributes) + {NotificationsEnabledAttribute}
  {
    if svc.notificationsEnabled == on {
      return;
    }
    svc.modifiedAttributes := svc.modifiedAttributes + {NotificationsEnabledAttribute};
    svc.notificationsEnabled := on;
  }

  /** The inner loop: all services of one host. */
  method SwitchServicesOf(services: seq<Service>, on: bool, ghost svcs: set<Service>)
    requires forall s :: s in services ==> s in svcs
    modifies svcs`notificationsEnabled, svcs`modifiedAttributes
    ensures ServiceFlags(svcs) == SwitchAll<Service>(old(ServiceFlags(svcs)), Elements<Service>(services), on)
  {
    ghost var before := ServiceFlags(svcs);
    for i := 0 to |services|
      invariant ServiceFlags(svcs) == SwitchAll<Service>(before, Elements<Service>(services[..i]), on)
    {
      SwitchServiceNotifications(services[i], on, svcs);
      SwitchTwice<Service>(before, Elements<Service>(services[..i]), {services[i]}, on);
      assert Elements<Service>(services[..i + 1]) == Elements<Service>(services[..i]) + {services[i]};
    }
    assert services[..|services|] == services;
  }

  /** The hosts a call switches: the top host and/or every proper descendant. */
  ghost function HostsToSwitch(g: Links<Host>, hst: Host, top: bool, affectHosts: bool): set<Host> {
    (if top then {hst} else {}) + (if affectHosts then Descendants<Host>(g, hst) else {})
  }

  /** The services a call switches: those on the proper descendants, not those on the top host. */
  ghost function ServicesToSwitch(g: Links<Host>, runs: map<Host, seq<Service>>, hst: Host,
                                  affectServices: bool): set<Service> {
    if affectServices then ServicesOn<Host, Service>(runs, Descendants<Host>(g, hst)) else {}
  }

  /** The hosts a call has switched after `i` children. */
  ghost function HostsTouched(g: Links<Host>, hst: Host, i: nat, top: bool, affectHosts: bool): set<Host>
    requires hst in g && i <= |g[hst]|
  {
    (if top then {hst} else {}) + (if affectHosts then BeyondFirst<Host>(g, hst, i) else {})
  }

  ghost function ServicesTouched(g: Links<Host>, runs: map<Host, seq<Service>>, hst: Host, i: nat,
                                 affectServices: bool): set<Service>
    requires hst in g && i <= |g[hst]|
  {
    if affectServices then ServicesOn<Host, Service>(runs, BeyondFirst<Host>(g, hst, i)) else {}
  }

  /** The rest of a turn of the loop, after the recursive call. */
  method SwitchChild(child: Host, affectHosts: bool, affectServices: bool, on: bool,
                     ghost hosts: set<Host>, ghost svcs: set<Service>, ghost runs: map<Host, seq<Service>>)
    requires child in hosts && child in runs && child.services == runs[child]
    requires forall s :: s in runs[child] ==> s in svcs
    modifies child`notificationsEnabled, child`modifiedAttributes, svcs`notificationsEnabled, svcs`modifiedAttributes
    ensures HostFlags(hosts) ==
      if affectHosts then SwitchAll<Host>(old(HostFlags(hosts)), {child}, on) else old(HostFlags(hosts))
    ensures ServiceFlags(svcs) ==
      if affectServices then SwitchAll<Service>(old(ServiceFlags(svcs)), Elements<Service>(runs[child]), on)
      else old(ServiceFlags(svcs))
  {
    if affectHosts {
      SwitchHostNotifications(child, on, hosts);
    }
    assert ServiceFlags(svcs) == old(ServiceFlags(svcs));
    label Middle:
    if affectServices {
      SwitchServicesOf(child.services, on, svcs);
    }
    assert HostFlags(hosts) == old@Middle(HostFlags(hosts));
  }

  /** What has been switched is on or off as asked for, and what has not been is untouched. */
  lemma SwitchedAt<T>(m: map<T, Flags>, touched: set<T>, on: bool)
    ensures forall x {:trigger SwitchAll(m, touched, on)[x]} :: x in m ==>
      && SwitchAll(m, touched, on)[x].notificationsEnabled == (if x in touched then on else m[x].notificationsEnabled)
      && SwitchAll(m, touched, on)[x].modifiedAttributes == m[x].modifiedAttributes +
           (if x in touched && m[x].notificationsEnabled != on then {NotificationsEnabledAttribute} else {})
  {
  }

  /** Switching on and then off leaves exactly these objects off, whatever they were. */
  lemma OnThenOff<T>(m: map<T, Flags>, touched: set<T>)
    ensures var r := SwitchAll(SwitchAll(m, touched, true), touched, false);
      && r.Keys == m.Keys
      && forall x :: x in m ==>
           && r[x].notificationsEnabled == (m[x].notificationsEnabled && x !in touched)
           && r[x].modifiedAttributes ==
                m[x].modifiedAttributes + if x in touched then {NotificationsEnabledAttribute} else {}
  {
  }

  method PropagateNotifications(hst: Host, level: nat, affectTopHost: bool, affectHosts: bool, affectServices: bool,
                                on: bool, ghost hosts: set<Host>, ghost svcs: set<Service>, ghost g: Links<Host>,
                                ghost runs: map<Host, seq<Service>>)
    requires Configured(g, runs, hosts, svcs) && Closed<Host>(g)
    requires hst in hosts && !ReachesCycle<Host>(g, hst)
    modifies hosts`notificationsEnabled, hosts`modifiedAttributes, svcs`notificationsEnabled, svcs`modifiedAttributes
    ensures HostFlags(hosts) ==
      SwitchAll<Host>(old(HostFlags(hosts)), HostsToSwitch(g, hst, affectTopHost && level == 0, affectHosts), on)
    ensures ServiceFlags(svcs) ==
      SwitchAll<Service>(old(ServiceFlags(svcs)), ServicesToSwitch(g, runs, hst, affectServices), on)
    ensures forall h :: h in hosts ==>
      var switched := (h == hst && affectTopHost && level == 0) || (affectHosts && Below<Host>(g, hst, h));
      && h.notificationsEnabled == (if switched then on else old(h.notificationsEnabled))
      && h.modifiedAttributes == old(h.modifiedAttributes) +
           (if switched && old(h.notificationsEnabled) != on then {NotificationsEnabledAttribute} else {})
    ensures forall s :: s in svcs ==>
      var switched := affectServices && RunsBeyond(g, hst, s);
      && s.notificationsEnabled == (if switched then on else old(s.notificationsEnabled))
      && s.modifiedAttributes == old(s.modifiedAttributes) +
           (if switched && old(s.notificationsEnabled) != on then {NotificationsEnabledAttribute} else {})
    decreases Descendants<Host>(g, hst), 1
  {
    hide ReachesCycle, HostsTouched, ServicesTouched, HostsToSwitch, ServicesToSwitch, Below, RunsBeyond, SwitchAll;
    ghost var hosts0, svcs0 := HostFlags(hosts), ServiceFlags(svcs);
    ghost var top := affectTopHost && level == 0;
    if affectTopHost && level == 0 {
      SwitchHostNotifications(hst, on, hosts);
    }
    TouchedNone(g, runs, hst, top, affectHosts, affectServices);
    SwitchNone<Host>(hosts0, on);
    SwitchNone<Service>(svcs0, on);
    SwitchBeyond(hst, level, affectTopHost, affectHosts, affectServices, on, hosts, svcs, g, runs, hosts0, svcs0);
    TouchedAll(g, runs, hst, top, affectHosts, affectServices);
    SwitchedAt<Host>(hosts0, HostsToSwitch(g, hst, top, affectHosts), on);
    SwitchedAt<Service>(svcs0, ServicesToSwitch(g, runs, hst, affectServices), on);
    ToSwitch(g, runs, hosts, svcs, hst, top, affectHosts, affectServices);
    assert forall h :: h in hosts ==> HostFlags(hosts)[h] == Flags(h.notificationsEnabled, h.modifiedAttributes);
    assert forall s :: s in svcs ==> ServiceFlags(svcs)[s] == Flags(s.notificationsEnabled, s.modifiedAttributes);
  }

  /** The loop over the child hosts. */
  method SwitchBeyond(hst: Host, level: nat, affectTopHost: bool, affectHosts: bool, affectServices: bool, on: bool,
                      ghost hosts: set<Host>, ghost svcs: set<Service>, ghost g: Links<Host>,
                      ghost runs: map<Host, seq<Service>>, ghost hosts0: map<Host, Flags>,
                      ghost svcs0: map<Service, Flags>)
    requires Configured(g, runs, hosts, svcs) && Closed<Host>(g)
    requires hst in hosts && !ReachesCycle<Host>(g, hst)
    requires HostFlags(hosts) ==
      SwitchAll<Host>(hosts0, HostsTouched(g, hst, 0, affectTopHost && level == 0, affectHosts), on)
    requires ServiceFlags(svcs) == SwitchAll<Service>(svcs0, ServicesTouched(g, runs, hst, 0, affectServices), on)
    modifies hosts`notificationsEnabled, hosts`modifiedAttributes, svcs`notificationsEnabled, svcs`modifiedAttributes
    ensures HostFlags(hosts) ==
      SwitchAll<Host>(hosts0, HostsTouched(g, hst, |g[hst]|, affectTopHost && level == 0, affectHosts), on)
    ensures ServiceFlags(svcs) == SwitchAll<Service>(svcs0, ServicesTouched(g, runs, hst, |g[hst]|, affectServices), on)
    decreases Descendants<Host>(g, hst), 0
  {
    hide ReachesCycle, HostsTouched, ServicesTouched, HostsToSwitch, ServicesToSwitch, Below, RunsBeyond, SwitchAll;
    hide HostFlags, ServiceFlags;
    ghost var top := affectTopHost && level == 0;
    var children := hst.childHosts;
    for i := 0 to |children|
      invariant HostFlags(hosts) == SwitchAll<Host>(hosts0, HostsTouched(g, hst, i, top, affectHosts), on)
      invariant ServiceFlags(svcs) == SwitchAll<Service>(svcs0, ServicesTouched(g, runs, hst, i, affectServices), on)
    {
      var child := children[i];
      DescendantsShrink<Host>(g, hst, child);
      PropagateNotifications(child, level + 1, affectTopHost, affectHosts, affectServices, on, hosts, svcs, g, runs);
      SwitchChild(child, affectHosts, affectServices, on, hosts, svcs, runs);
      HostsStep(g, hst, i, top, affectHosts, hosts0, on);
      ServicesStep(g, runs, hst, i, affectServices, svcs0, on);
    }
  }

  /** The service runs on a host beyond `hst`. */
  ghost predicate RunsBeyond(g: Links<Host>, hst: Host, s: Service) {
    exists h :: h in g && Below<Host>(g, hst, h) && s in h.services
  }

  lemma ToSwitch(g: Links<Host>, runs: map<Host, seq<Service>>, hosts: set<Host>, svcs: set<Service>, hst: Host,
                 top: bool, affectHosts: bool, affectServices: bool)
    requires Configured(g, runs, hosts, svcs) && hst in hosts
    ensures forall h :: h in hosts ==>
      (h in HostsToSwitch(g, hst, top, affectHosts) <==> (h == hst && top) || (affectHosts && Below<Host>(g, hst, h)))
    ensures forall s :: s in ServicesToSwitch(g, runs, hst, affectServices) <==> affectServices && RunsBeyond(g, hst, s)
  {
    forall s | s in ServicesToSwitch(g, runs, hst, affectServices) ensures RunsBeyond(g, hst, s) {
      var h :| h in Descendants<Host>(g, hst) && h in runs && s in runs[h];
      assert h.services == runs[h];
    }
    forall s | affectServices && RunsBeyond(g, hst, s) ensures s in ServicesToSwitch(g, runs, hst, affectServices) {
      var h :| h in g && Below<Host>(g, hst, h) && s in h.services;
      assert h in Descendants<Host>(g, hst) && s in runs[h];
    }
  }

  lemma TouchedNone(g: Links<Host>, runs: map<Host, seq<Service>>, hst: Host, top: bool, affectHosts: bool,
                    affectServices: bool)
    requires hst in g
    ensures HostsTouched(g, hst, 0, top, affectHosts) == if top then {hst} else {}
    ensures ServicesTouched(g, runs, hst, 0, affectServices) == {}
  {
  }

  lemma TouchedAll(g: Links<Host>, runs: map<Host, seq<Service>>, hst: Host, top: bool, affectHosts: bool,
                   affectServices: bool)
    requires Closed<Host>(g) && hst in g
    ensures HostsTouched(g, hst, |g[hst]|, top, affectHosts) == HostsToSwitch(g, hst, top, affectHosts)
    ensures ServicesTouched(g, runs, hst, |g[hst]|, affectServices) == ServicesToSwitch(g, runs, hst, affectServices)
  {
    BeyondAllChildren<Host>(g, hst);
  }

  lemma HostsStep(g: Links<Host>, hst: Host, i: nat, top: bool, affectHosts: bool, m: map<Host, Flags>, on: bool)
    requires hst in g && i < |g[hst]|
    ensures var m1 := SwitchAll<Host>(m, HostsTouched(g, hst, i, top, affectHosts), on);
      var m2 := SwitchAll<Host>(m1, HostsToSwitch(g, g[hst][i], false, affectHosts), on);
      var m3 := if affectHosts then SwitchAll<Host>(m2, {g[hst][i]}, on) else m2;
      m3 == SwitchAll<Host>(m, HostsTouched(g, hst, i + 1, top, affectHosts), on)
  {
    var a := HostsTouched(g, hst, i, top, affectHosts);
    var d := HostsToSwitch(g, g[hst][i], false, affectHosts);
    SwitchTwice<Host>(m, a, d, on);
    SwitchTwice<Host>(m, a + d, {g[hst][i]}, on);
    if affectHosts {
      assert a + d + {g[hst][i]} == HostsTouched(g, hst, i + 1, top, affectHosts);
    } else {
      assert a + d == HostsTouched(g, hst, i + 1, top, affectHosts);
    }
  }

  lemma ServicesStep(g: Links<Host>, runs: map<Host, seq<Service>>, hst: Host, i: nat, affectServices: bool,
                     m: map<Service, Flags>, on: bool)
    requires hst in g && i < |g[hst]| && g[hst][i] in runs
    ensures var m1 := SwitchAll<Service>(m, ServicesTouched(g, runs, hst, i, affectServices), on);
      var m2 := SwitchAll<Service>(m1, ServicesToSwitch(g, runs, g[hst][i], affectServices), on);
      var m3 := if affectServices then SwitchAll<Service>(m2, Elements<Service>(runs[g[hst][i]]), on) else m2;
      m3 == SwitchAll<Service>(m, ServicesTouched(g, runs, hst, i + 1, affectServices), on)
  {
    var a := ServicesTouched(g, runs, hst, i, affectServices);
    var d := ServicesToSwitch(g, runs, g[hst][i], affectServices);
    var own := Elements<Service>(runs[g[hst][i]]);
    SwitchTwice<Service>(m, a, d, on);
    SwitchTwice<Service>(m, a + d, own, on);
    if affectServices {
      assert a + d + own == ServicesTouched(g, runs, hst, i + 1, affectServices);
    }
  }

  // ---------- scheduling downtime ----------

  datatype Downtime = Downtime(entryTime: int, author: string, comment: string, startTime: int, endTime: int,
                               isFixed: bool, triggeredBy: nat, duration: nat)

  datatype DowntimeEntry = DowntimeEntry(hostName: string, downtime: Downtime)

  /** The table `schedule_downtime` adds its entries to. */
  class DowntimeTable {
    var entries: seq<DowntimeEntry>
  }

  /** The hosts visited through the first `i` links of `h`, one visit per entry, in entry order. */
  ghost function Visits<T>(g: Links<T>, h: T, i: nat): seq<T>
    requires Closed(g) && h in g && !ReachesCycle(g, h) && i <= |g[h]|
    decreases Descendants(g, h), i
  {
    if i == 0 then []
    else
      var c := g[h][i - 1];
      DescendantsShrink(g, h, c);
      Visits(g, h, i - 1) + Visits(g, c, |g[c]|) + [c]
  }

  ghost function EntriesFor(visits: seq<Host>, downtime: Downtime): seq<DowntimeEntry> {
    seq(|visits|, k requires 0 <= k < |visits| => DowntimeEntry(visits[k].name, downtime))
  }

  method ScheduleAndPropagateDowntime(top: Host, downtime: Downtime, table: DowntimeTable, ghost g: Links<Host>)
    requires Closed<Host>(g) && forall h :: h in g ==> h.childHosts == g[h]
    requires top in g && !ReachesCycle<Host>(g, top)
    modifies table
    ensures table.entries == old(table.entries) + EntriesFor(Visits<Host>(g, top, |g[top]|), downtime)
    ensures var visits, n := Visits<Host>(g, top, |g[top]|), old(|table.entries|);
      && |table.entries| == n + |visits| && table.entries[..n] == old(table.entries)
      && forall k :: 0 <= k < |visits| ==>
           table.entries[n + k].hostName == visits[k].name && table.entries[n + k].downtime == downtime
    decreases Descendants<Host>(g, top)
  {
    hide ReachesCycle, Visits;
    VisitsStart<Host>(g, top);
    for i := 0 to |top.childHosts|
      invariant table.entries == old(table.entries) + EntriesFor(Visits<Host>(g, top, i), downtime)
    {
      var child := top.childHosts[i];
      DescendantsShrink<Host>(g, top, child);
      ScheduleAndPropagateDowntime(child, downtime, table, g);
      table.entries := table.entries + [DowntimeEntry(child.name, downtime)];
      VisitsStep<Host>(g, top, i);
    }
  }

  lemma VisitsStart<T>(g: Links<T>, h: T)
    requires Closed(g) && h in g && !ReachesCycle(g, h)
    ensures Visits(g, h, 0) == []
  {
  }

  lemma VisitsStep<T>(g: Links<T>, h: T, i: nat)
    requires Closed(g) && h in g && !ReachesCycle(g, h) && i < |g[h]|
    ensures g[h][i] in g && !ReachesCycle(g, g[h][i])
    ensures Visits(g, h, i + 1) == Visits(g, h, i) + Visits(g, g[h][i], |g[g[h][i]]|) + [g[h][i]]
  {
    DescendantsShrink(g, h, g[h][i]);
  }

  /** The link paths `p` put behind link `j`. */
  ghost function Behind(j: nat, paths: set<seq<nat>>): set<seq<nat>> {
    set p | p in paths :: [j] + p
  }

  lemma {:induction false} BehindSize(j: nat, paths: set<seq<nat>>)
    ensures |Behind(j, paths)| == |paths|
    decreases |paths|
  {
    if paths != {} {
      var p :| p in paths;
      BehindSize(j, paths - {p});
      forall q | q in paths - {p} ensures [j] + q != [j] + p {
        assert ([j] + p)[1..] == p && ([j] + q)[1..] == q;
      }
      assert Behind(j, paths) == Behind(j, paths - {p}) + {[j] + p};
    }
  }

  /** The non-empty link paths from `h` to `d` that start with one of the first `i` links. */
  ghost function PathsTo<T>(g: Links<T>, h: T, i: nat, d: T): set<seq<nat>>
    requires Closed(g) && h in g && !ReachesCycle(g, h) && i <= |g[h]|
    decreases Descendants(g, h), i
  {
    if i == 0 then {}
    else
      var c := g[h][i - 1];
      DescendantsShrink(g, h, c);
      PathsTo(g, h, i - 1, d) + Behind(i - 1, PathsTo(g, c, |g[c]|, d) + if c == d then {[]} else {})
  }

  lemma {:induction false} PathsToExactly<T>(g: Links<T>, h: T, i: nat, d: T, p: seq<nat>)
    requires Closed(g) && h in g && !ReachesCycle(g, h) && i <= |g[h]|
    ensures p in PathsTo(g, h, i, d) <==> p != [] && p[0] < i && IsLinkPath(g, h, p, d)
    decreases Descendants(g, h), i
  {
    if i > 0 {
      var c := g[h][i - 1];
      DescendantsShrink(g, h, c);
      PathsToExactly(g, h, i - 1, d, p);
      if p != [] {
        PathsToExactly(g, c, |g[c]|, d, p[1..]);
        assert p == [p[0]] + p[1..];
        var tails := PathsTo(g, c, |g[c]|, d) + if c == d then {[]} else {};
        assert p in Behind(i - 1, tails) <==> p[0] == i - 1 && p[1..] in tails;
      }
    }
  }

  lemma BehindDisjoint<T>(g: Links<T>, h: T, i: nat, d: T, tails: set<seq<nat>>)
    requires Closed(g) && h in g && !ReachesCycle(g, h) && i <= |g[h]|
    ensures PathsTo(g, h, i, d) !! Behind(i, tails)
  {
    forall q | q in tails ensures [i] + q !in PathsTo(g, h, i, d) {
      PathsToExactly(g, h, i, d, [i] + q);
    }
  }

  lemma CountStep<T>(a: seq<T>, b: seq<T>, c: T, d: T, i: nat, pathsA: set<seq<nat>>, pathsB: set<seq<nat>>)
    requires multiset(a)[d] == |pathsA| && multiset(b)[d] == |pathsB| && [] !in pathsB
    requires pathsA !! Behind(i, pathsB + if c == d then {[]} else {})
    ensures multiset(a + b + [c])[d] == |pathsA + Behind(i, pathsB + if c == d then {[]} else {})|
  {
    var tails := pathsB + if c == d then {[]} else {};
    BehindSize(i, tails);
    assert |tails| == |pathsB| + if c == d then 1 else 0;
    assert multiset(a + b + [c]) == multiset(a) + multiset(b) + multiset{c};
  }

  lemma UnfoldOnce<T>(g: Links<T>, h: T, i: nat, d: T)
    requires Closed(g) && h in g && !ReachesCycle(g, h) && i <= |g[h]|
    ensures i == 0 ==> Visits(g, h, i) == [] && PathsTo(g, h, i, d) == {}
    ensures i > 0 ==>
      var c := g[h][i - 1];
      && c in g && !ReachesCycle(g, c)
      && Visits(g, h, i) == Visits(g, h, i - 1) + Visits(g, c, |g[c]|) + [c]
      && PathsTo(g, h, i, d) == PathsTo(g, h, i - 1, d)
        + Behind(i - 1, PathsTo(g, c, |g[c]|, d) + if c == d then {[]} else {})
  {
    if i > 0 { DescendantsShrink(g, h, g[h][i - 1]); }
  }

  /** Visits of `d` and link paths to `d` are equally many. */
  lemma {:induction false} VisitsCountPaths<T>(g: Links<T>, h: T, i: nat, d: T)
    requires Closed(g) && h in g && !ReachesCycle(g, h) && i <= |g[h]|
    ensures multiset(Visits(g, h, i))[d] == |PathsTo(g, h, i, d)|
    decreases Descendants(g, h), i
  {
    hide Behind, ReachesCycle, IsLinkPath, Visits, PathsTo;
    UnfoldOnce(g, h, i, d);
    if i > 0 {
      var c := g[h][i - 1];
      DescendantsShrink(g, h, c);
      var below := PathsTo(g, c, |g[c]|, d);
      VisitsCountPaths(g, h, i - 1, d);
      VisitsCountPaths(g, c, |g[c]|, d);
      var tails := below + if c == d then {[]} else {};
      assert [] !in below by { PathsToExactly(g, c, |g[c]|, d, []); }
      BehindDisjoint(g, h, i - 1, d, tails);
      CountStep(Visits(g, h, i - 1), Visits(g, c, |g[c]|), c, d, i - 1, PathsTo(g, h, i - 1, d), below);
    }
  }

  /** A descendant gets exactly as many downtime entries as there are link paths down to it. */
  lemma DowntimePerLinkPath<T>(g: Links<T>, h: T, d: T) returns (paths: set<seq<nat>>)
    requires Closed(g) && h in g && !ReachesCycle(g, h)
    ensures forall p: seq<nat> :: p in paths <==> p != [] && IsLinkPath(g, h, p, d)
    ensures multiset(Visits(g, h, |g[h]|))[d] == |paths|
  {
    paths := PathsTo(g, h, |g[h]|, d);
    forall p: seq<nat> ensures p in paths <==> p != [] && IsLinkPath(g, h, p, d) {
      PathsToExactly(g, h, |g[h]|, d, p);
    }
    VisitsCountPaths(g, h, |g[h]|, d);
  }

  /** So the visited hosts are exactly the proper descendants, as for notifications. */
  lemma VisitsAreDescendants<T>(g: Links<T>, h: T, d: T)
    requires Closed(g) && h in g && !ReachesCycle(g, h)
    ensures d in Visits(g, h, |g[h]|) <==> d in Descendants(g, h)
  {
    hide ReachesCycle, IsLinkPath, Descendants, Visits;
    var paths := DowntimePerLinkPath(g, h, d);
    CountedIsIn(Visits(g, h, |g[h]|), d);
    if d in Visits(g, h, |g[h]|) {
      var p :| p in paths;
      PathLeadsBelow(g, h, p, d);
    }
    if d in Descendants(g, h) {
      PathToDescendant(g, h, d);
      var p: seq<nat> :| p != [] && IsLinkPath(g, h, p, d);
      assert p in paths;
    }
  }

  lemma CountedIsIn<T>(s: seq<T>, d: T)
    ensures d in s <==> multiset(s)[d] > 0
  {
  }

  lemma PathLeadsBelow<T>(g: Links<T>, h: T, p: seq<nat>, d: T)
    requires Closed(g) && h in g && p != [] && IsLinkPath(g, h, p, d)
    ensures d in Descendants(g, h)
  {
    var c := g[h][p[0]];
    LinkPathStaysInside(g, h, p, d);
    assert c in g[h] && IsLinkPath(g, c, p[1..], d);
  }

  lemma PathToDescendant<T>(g: Links<T>, h: T, d: T)
    requires h in g && d in Descendants(g, h)
    ensures exists p: seq<nat> :: p != [] && IsLinkPath(g, h, p, d)
  {
    var c :| c in g[h] && Reaches(g, c, d);
    var i: nat :| i < |g[h]| && g[h][i] == c;
    var q: seq<nat> :| IsLinkPath(g, c, q, d);
    var p := [i] + q;
    assert p[1..] == q;
    assert IsLinkPath(g, h, p, d);
  }
}
