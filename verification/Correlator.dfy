/** The alert correlator: per-tenant sliding windows that turn alerts into single incidents
    and cross-service cascades. */
module Correlator {

  /** Distinct services a window needs for a cascade. */
  const CASCADE_SERVICE_THRESHOLD := 2

  datatype Alert = Alert(id: string, tenant: string, service: string, severity: string)

  /** An alert with the correlator's clock reading, in seconds, on its arrival. */
  datatype Received = Received(alert: Alert, at: real)

  datatype Incident = Incident(tenant: string, alertIds: seq<string>, affectedServices: seq<string>,
                               isCascade: bool, severity: string, windowMs: nat, createdAt: real)

  type Windows = map<string, seq<Received>>

  // ----- Severity -----

  function Priority(severity: string): nat {
    match severity
    case "CRITICAL" => 4
    case "HIGH" => 3
    case "MEDIUM" => 2
    case "LOW" => 1
    case _ => 0
  }

  function MaxSeverity(rs: seq<Received>): string {
    if rs == [] then "MEDIUM" else FirstMax(rs[1..], rs[0].alert.severity)
  }

  function FirstMax(rs: seq<Received>, best: string): (s: string)
    ensures Priority(s) >= Priority(best)
    ensures forall r | r in rs :: Priority(s) >= Priority(r.alert.severity)
    ensures s == best || exists r | r in rs :: r.alert.severity == s
  {
    if rs == [] then best
    else if Priority(rs[0].alert.severity) > Priority(best) then FirstMax(rs[1..], rs[0].alert.severity)
    else FirstMax(rs[1..], best)
  }

  /** A cascade's severity is that of one of its alerts, and none of them ranks higher. */
  lemma MaxSeverityIsMaximal(rs: seq<Received>)
    requires rs != []
    ensures exists r | r in rs :: r.alert.severity == MaxSeverity(rs)
    ensures forall r | r in rs :: Priority(r.alert.severity) <= Priority(MaxSeverity(rs))
  {
    assert rs[0] in rs;
    assert forall r | r in rs :: r == rs[0] || r in rs[1..];
    var s := FirstMax(rs[1..], rs[0].alert.severity);
    if s != rs[0].alert.severity {
      var r :| r in rs[1..] && r.alert.severity == s;
      assert r in rs;
    }
  }

  predicate Has(rs: seq<Received>, severity: string) {
    exists r | r in rs :: r.alert.severity == severity
  }

  /** The first of these severities that occurs, or else that of the first alert. */
  lemma MaxSeverityExactly(rs: seq<Received>)
    requires rs != []
    ensures MaxSeverity(rs) ==
            if Has(rs, "CRITICAL") then "CRITICAL"
            else if Has(rs, "HIGH") then "HIGH"
            else if Has(rs, "MEDIUM") then "MEDIUM"
            else if Has(rs, "LOW") then "LOW"
            else rs[0].alert.severity
  {
    MaxSeverityIsMaximal(rs);
    if Priority(MaxSeverity(rs)) == 0 {
      Unranked(rs[1..], rs[0].alert.severity);
    }
  }

  lemma {:induction false} Unranked(rs: seq<Received>, best: string)
    requires Priority(FirstMax(rs, best)) == 0
    ensures FirstMax(rs, best) == best
  {
    if rs != [] {
      Unranked(rs[1..], best);
    }
  }

  // ----- Sorted list of the distinct services -----

  /** Code point order on strings. */
  predicate Before(a: string, b: string) {
    if b == "" then false
    else if a == "" then true
    else if a[0] != b[0] then a[0] < b[0]
    else Before(a[1..], b[1..])
  }

  lemma {:induction false} BeforeTransitive(a: string, b: string, c: string)
    requires Before(a, b) && Before(b, c)
    ensures Before(a, c)
  {
    if a != "" && a[0] == b[0] == c[0] {
      BeforeTransitive(a[1..], b[1..], c[1..]);
    }
  }

  lemma {:induction false} NotBeforeSelf(a: string)
    ensures !Before(a, a)
  {
    if a != "" {
      NotBeforeSelf(a[1..]);
    }
  }

  lemma {:induction false} BeforeTotal(a: string, b: string)
    ensures a == b || Before(a, b) || Before(b, a)
  {
    if a != "" && b != "" && a[0] == b[0] {
      BeforeTotal(a[1..], b[1..]);
      assert a == [a[0]] + a[1..] && b == [b[0]] + b[1..];
    }
  }

  /** One string continues the other, or at the first difference has the smaller character. */
  ghost predicate Differs(a: string, b: string, k: nat) {
    && k <= |a| && k < |b| && a[..k] == b[..k]
    && (k < |a| ==> a[k] < b[k])
  }

  lemma {:induction false} BeforeExactly(a: string, b: string)
    ensures Before(a, b) <==> exists k: nat :: Differs(a, b, k)
  {
    if a == "" || b == "" || a[0] != b[0] {
      assert Before(a, b) ==> Differs(a, b, 0);
    } else {
      BeforeExactly(a[1..], b[1..]);
      if k: nat :| Differs(a[1..], b[1..], k) {
        assert a[..k + 1] == [a[0]] + a[1..][..k] && b[..k + 1] == [b[0]] + b[1..][..k];
        assert Differs(a, b, k + 1);
      }
      if k: nat :| Differs(a, b, k) {
        assert a[1..][..k - 1] == a[..k][1..] && b[1..][..k - 1] == b[..k][1..];
        assert Differs(a[1..], b[1..], k - 1);
      }
    }
  }

  ghost predicate Ascending(s: seq<string>) {
    forall i, j | 0 <= i < j < |s| :: Before(s[i], s[j])
  }

  function Insert(x: string, s: seq<string>): (r: seq<string>)
    requires Ascending(s)
    ensures Ascending(r)
    ensures forall y :: y in r <==> y == x || y in s
    ensures |r| == if x in s then |s| else |s| + 1
  {
    if s == [] then [x]
    else if x == s[0] then s
    else if Before(x, s[0]) then
      assert forall j | 0 < j < |s| :: Before(x, s[j]) by {
        forall j | 0 < j < |s| ensures Before(x, s[j]) { BeforeTransitive(x, s[0], s[j]); }
      }
      NotBeforeSelf(x);
      [x] + s
    else
      BeforeTotal(x, s[0]);
      var rest := Insert(x, s[1..]);
      assert forall y | y in rest :: Before(s[0], y);
      assert x in s <==> x in s[1..];
      [s[0]] + rest
  }

  function Services(rs: seq<Received>): set<string> {
    set r | r in rs :: r.alert.service
  }

  function SortedServices(rs: seq<Received>): (s: seq<string>)
    ensures Ascending(s)
    ensures forall y :: y in s <==> y in Services(rs)
    ensures |s| == |Services(rs)|
  {
    if rs == [] then [] else
      assert Services(rs) == Services(rs[1..]) + {rs[0].alert.service};
      Insert(rs[0].alert.service, SortedServices(rs[1..]))
  }

  // ----- One arrival -----

  function Window(ws: Windows, tenant: string): seq<Received> {
    if tenant in ws then ws[tenant] else []
  }

  /** The alerts not yet older than the cutoff. */
  function Evict(rs: seq<Received>, cutoff: real): seq<Received> {
    if rs == [] then []
    else Evict(rs[..|rs| - 1], cutoff) + (if rs[|rs| - 1].at >= cutoff then [rs[|rs| - 1]] else [])
  }

  /** The window the decision is taken on: the old one with the new alert, evicted. */
  function Candidates(windowSeconds: nat, ws: Windows, a: Alert, now: real): seq<Received> {
    Evict(Window(ws, a.tenant) + [Received(a, now)], now - windowSeconds as real)
  }

  predicate FormsCascade(rs: seq<Received>) {
    |Services(rs)| >= CASCADE_SERVICE_THRESHOLD
  }

  function Ids(rs: seq<Received>): (ids: seq<string>)
    ensures |ids| == |rs| && forall i | 0 <= i < |rs| :: ids[i] == rs[i].alert.id
  {
    seq(|rs|, i requires 0 <= i < |rs| => rs[i].alert.id)
  }

  function CascadeIncident(windowSeconds: nat, tenant: string, rs: seq<Received>, now: real): Incident {
    Incident(tenant, Ids(rs), SortedServices(rs), true, MaxSeverity(rs), windowSeconds * 1000, now)
  }

  function SingleIncident(a: Alert, now: real): Incident {
    Incident(a.tenant, [a.id], [a.service], false, a.severity, 0, now)
  }

  /** The windows after one arrival: a cascade clears the tenant's, a single keeps it. */
  function Step(windowSeconds: nat, ws: Windows, a: Alert, now: real): Windows {
    var rs := Candidates(windowSeconds, ws, a, now);
    ws[a.tenant := if FormsCascade(rs) then [] else rs]
  }

  function IncidentOf(windowSeconds: nat, ws: Windows, a: Alert, now: real): Incident {
    var rs := Candidates(windowSeconds, ws, a, now);
    if FormsCascade(rs) then CascadeIncident(windowSeconds, a.tenant, rs, now) else SingleIncident(a, now)
  }

  ghost predicate TwoOrMore(rs: seq<Received>) {
    exists r, r' :: r in rs && r' in rs && r.alert.service != r'.alert.service
  }

  lemma CascadeMeansTwo(rs: seq<Received>)
    requires rs != []
    ensures FormsCascade(rs) <==> TwoOrMore(rs)
  {
    var s := rs[0].alert.service;
    assert rs[0] in rs && s in Services(rs);
    TwoOf(Services(rs), s);
    if r, r' :| r in rs && r' in rs && r.alert.service != r'.alert.service {
      assert r.alert.service in Services(rs) && r'.alert.service in Services(rs);
    }
  }

  /** The decision is taken on what the window holds that is not too old, and the new alert. */
  ghost predicate Decides(windowSeconds: nat, held: seq<Received>, a: Alert, now: real, rs: seq<Received>) {
    && |rs| <= |held| + 1
    && forall r :: r in rs <==> (r in held && r.at >= now - windowSeconds as real) || r == Received(a, now)
  }

  lemma CandidatesDecide(windowSeconds: nat, ws: Windows, a: Alert, now: real)
    ensures Decides(windowSeconds, Window(ws, a.tenant), a, now, Candidates(windowSeconds, ws, a, now))
  {
    var longer := Window(ws, a.tenant) + [Received(a, now)];
    EvictIsSubset(longer, now - windowSeconds as real);
    EvictNoLonger(longer, now - windowSeconds as real);
  }

  /** One arrival, for any clock: two services make a cascade, which empties the tenant's window;
      without one the window keeps the alerts it was decided on. No other window changes. */
  lemma ArrivalExactly(windowSeconds: nat, ws: Windows, a: Alert, now: real)
    ensures var held := if a.tenant in ws then ws[a.tenant] else [];
            var after, cascade := Step(windowSeconds, ws, a, now), IncidentOf(windowSeconds, ws, a, now).isCascade;
            && after.Keys == ws.Keys + {a.tenant}
            && (forall tenant | tenant in ws && tenant != a.tenant :: after[tenant] == ws[tenant])
            && exists rs :: Decides(windowSeconds, held, a, now, rs) && (cascade <==> TwoOrMore(rs))
                            && after[a.tenant] == if cascade then [] else rs
  {
    var rs := Candidates(windowSeconds, ws, a, now);
    CandidatesDecide(windowSeconds, ws, a, now);
    assert Received(a, now) in rs;
    CascadeMeansTwo(rs);
  }

  lemma {:induction false} EvictNoLonger(rs: seq<Received>, cutoff: real)
    ensures |Evict(rs, cutoff)| <= |rs|
  {
    if rs != [] {
      EvictNoLonger(rs[..|rs| - 1], cutoff);
    }
  }

  class AlertCorrelator {
    const windowSeconds: nat
    var windows: Windows

    constructor (windowSeconds: nat)
      ensures this.windowSeconds == windowSeconds && windows == map[]
    {
      this.windowSeconds := windowSeconds;
      windows := map[];
    }

    /** now is the clock reading taken before the lock: calls may be served out of its
        order. */
    method AddAlert(alert: Alert, now: real) returns (incident: Incident)
      modifies this
      ensures windows == Step(windowSeconds, old(windows), alert, now)
      ensures incident == IncidentOf(windowSeconds, old(windows), alert, now)
    {
      var tenant := alert.tenant;
      if tenant !in windows {
        windows := windows[tenant := []];
      }
      windows := windows[tenant := windows[tenant] + [Received(alert, now)]];
      var cutoff := now - windowSeconds as real;
      windows := windows[tenant := Evict(windows[tenant], cutoff)];
      assert windows == old(windows)[tenant := Candidates(windowSeconds, old(windows), alert, now)];
      if |Services(windows[tenant])| >= CASCADE_SERVICE_THRESHOLD {
        incident := EmitCascade(tenant, now);
        assert windows == old(windows)[tenant := []];
      } else {
        incident := SingleIncident(alert, now);
      }
    }

    /** Clears the window, so that its alerts start no second cascade. */
    method EmitCascade(tenant: string, now: real) returns (incident: Incident)
      requires tenant in windows
      modifies this
      ensures incident == CascadeIncident(windowSeconds, tenant, old(windows)[tenant], now)
      ensures windows == old(windows)[tenant := []]
    {
      incident := CascadeIncident(windowSeconds, tenant, windows[tenant], now);
      windows := windows[tenant := []];
    }
  }

  // ----- Whole runs -----

  datatype Arrival = Arrival(alert: Alert, at: real)

  type History = seq<Arrival>

  function Run(windowSeconds: nat, h: History): Windows {
    if h == [] then map[]
    else
      var n := |h| - 1;
      Step(windowSeconds, Run(windowSeconds, h[..n]), h[n].alert, h[n].at)
  }

  function IncidentAt(windowSeconds: nat, h: History, i: nat): Incident
    requires i < |h|
  {
    IncidentOf(windowSeconds, Run(windowSeconds, h[..i]), h[i].alert, h[i].at)
  }

  /** The alerts behind the incident of arrival i. */
  function AlertsAt(windowSeconds: nat, h: History, i: nat): seq<Received>
    requires i < |h|
  {
    Candidates(windowSeconds, Run(windowSeconds, h[..i]), h[i].alert, h[i].at)
  }

  lemma {:induction false} EvictAppend(rs: seq<Received>, qs: seq<Received>, cutoff: real)
    ensures Evict(rs + qs, cutoff) == Evict(rs, cutoff) + Evict(qs, cutoff)
  {
    if qs == [] {
      assert rs + qs == rs;
    } else {
      var n := |qs| - 1;
      assert (rs + qs)[..|rs| + n] == rs + qs[..n];
      EvictAppend(rs, qs[..n], cutoff);
    }
  }

  lemma {:induction false} EvictEvict(rs: seq<Received>, c: real, d: real)
    requires c <= d
    ensures Evict(Evict(rs, c), d) == Evict(rs, d)
  {
    if rs != [] {
      var n := |rs| - 1;
      EvictEvict(rs[..n], c, d);
      EvictAppend(Evict(rs[..n], c), if rs[n].at >= c then [rs[n]] else [], d);
    }
  }

  lemma {:induction false} EvictIsSubset(rs: seq<Received>, cutoff: real)
    ensures multiset(Evict(rs, cutoff)) <= multiset(rs)
    ensures forall r :: r in Evict(rs, cutoff) <==> r in rs && r.at >= cutoff
  {
    if rs != [] {
      var n := |rs| - 1;
      EvictIsSubset(rs[..n], cutoff);
      assert multiset(rs) == multiset(rs[..n]) + multiset{rs[n]} by {
        assert rs == rs[..n] + [rs[n]];
      }
    }
  }

  lemma TwoOf(s: set<string>, x: string)
    requires x in s
    ensures |s| >= 2 <==> exists y | y in s :: y != x
  {
    if y :| y in s && y != x {
      assert {x, y} <= s;
      assert |s - {x, y}| == |s| - 2;
    } else {
      assert s == {x};
    }
  }

  // ----- Shape of incidents, whatever the clock does -----

  ghost predicate OneService(rs: seq<Received>) {
    forall r, r' | r in rs && r' in rs :: r.alert.service == r'.alert.service
  }

  /** The candidates are what the window keeps, and the new alert last. */
  lemma CandidatesEndWithNew(windowSeconds: nat, ws: Windows, a: Alert, now: real)
    ensures Candidates(windowSeconds, ws, a, now)
         == Evict(Window(ws, a.tenant), now - windowSeconds as real) + [Received(a, now)]
  {
    EvictAppend(Window(ws, a.tenant), [Received(a, now)], now - windowSeconds as real);
    assert Evict([], now - windowSeconds as real) == [];
  }

  ghost predicate HasOther(rs: seq<Received>, service: string) {
    exists r :: r in rs && r.alert.service != service
  }

  lemma CascadeWhenAnotherService(windowSeconds: nat, ws: Windows, a: Alert, now: real)
    ensures FormsCascade(Candidates(windowSeconds, ws, a, now))
       <==> HasOther(Evict(Window(ws, a.tenant), now - windowSeconds as real), a.service)
  {
    CandidatesEndWithNew(windowSeconds, ws, a, now);
    OtherServices(Evict(Window(ws, a.tenant), now - windowSeconds as real), Received(a, now));
  }

  lemma OtherServices(rs: seq<Received>, r: Received)
    ensures |Services(rs + [r])| >= 2 <==> HasOther(rs, r.alert.service)
  {
    var s := r.alert.service;
    assert r in rs + [r];
    TwoOf(Services(rs + [r]), s);
    if y :| y in Services(rs + [r]) && y != s {
      var r' :| r' in rs + [r] && r'.alert.service == y;
      assert r' in rs;
    }
    if HasOther(rs, s) {
      var r' :| r' in rs && r'.alert.service != s;
      assert r' in rs + [r] && r'.alert.service in Services(rs + [r]);
    }
  }

  lemma StepKeepsOneService(windowSeconds: nat, ws: Windows, a: Alert, now: real)
    requires OneService(Window(ws, a.tenant))
    ensures OneService(Window(Step(windowSeconds, ws, a, now), a.tenant))
  {
    var cutoff := now - windowSeconds as real;
    CascadeWhenAnotherService(windowSeconds, ws, a, now);
    CandidatesEndWithNew(windowSeconds, ws, a, now);
  }

  lemma {:induction false} WindowsHoldOneService(windowSeconds: nat, h: History, tenant: string)
    ensures OneService(Window(Run(windowSeconds, h), tenant))
  {
    if h != [] {
      var n := |h| - 1;
      WindowsHoldOneService(windowSeconds, h[..n], tenant);
      if h[n].alert.tenant == tenant {
        StepKeepsOneService(windowSeconds, Run(windowSeconds, h[..n]), h[n].alert, h[n].at);
      }
    }
  }

  /** What an incident says about the candidates it was decided on. */
  ghost predicate WellShaped(windowSeconds: nat, inc: Incident, rs: seq<Received>, a: Alert, now: real) {
    && inc.tenant == a.tenant && inc.createdAt == now
    && |inc.alertIds| > 0 && inc.alertIds[|inc.alertIds| - 1] == a.id
    && (!inc.isCascade ==> inc.alertIds == [a.id] && inc.affectedServices == [a.service]
                           && inc.severity == a.severity && inc.windowMs == 0)
    && (inc.isCascade ==>
          && inc.alertIds == Ids(rs)
          && |rs| > 0 && rs[|rs| - 1] == Received(a, now)
          && inc.windowMs == windowSeconds * 1000
          && (exists r | r in rs :: r.alert.severity == inc.severity)
          && (forall r | r in rs :: Priority(r.alert.severity) <= Priority(inc.severity))
          && |inc.affectedServices| == 2 && Ascending(inc.affectedServices)
          && (forall s :: s in inc.affectedServices <==> s in Services(rs))
          && forall k | 0 <= k < |rs| - 1 :: rs[k].alert.service != a.service)
  }

  lemma StepShape(windowSeconds: nat, ws: Windows, a: Alert, now: real)
    requires OneService(Window(ws, a.tenant))
    ensures WellShaped(windowSeconds, IncidentOf(windowSeconds, ws, a, now),
                       Candidates(windowSeconds, ws, a, now), a, now)
  {
    var earlier := Evict(Window(ws, a.tenant), now - windowSeconds as real);
    CandidatesEndWithNew(windowSeconds, ws, a, now);
    CascadeWhenAnotherService(windowSeconds, ws, a, now);
    EvictIsSubset(Window(ws, a.tenant), now - windowSeconds as real);
    if HasOther(earlier, a.service) {
      var other :| other in earlier && other.alert.service != a.service;
      TwoServices(earlier, Received(a, now), other.alert.service);
      MaxSeverityIsMaximal(Candidates(windowSeconds, ws, a, now));
    }
  }

  /** Every incident names its own arrival last; a cascade has exactly two services, listed
      in order, and its newest alert is the only one from its service. */
  lemma CascadeShape(windowSeconds: nat, h: History, i: nat)
    requires i < |h|
    ensures WellShaped(windowSeconds, IncidentAt(windowSeconds, h, i), AlertsAt(windowSeconds, h, i),
                       h[i].alert, h[i].at)
  {
    WindowsHoldOneService(windowSeconds, h[..i], h[i].alert.tenant);
    StepShape(windowSeconds, Run(windowSeconds, h[..i]), h[i].alert, h[i].at);
  }

  lemma TwoServices(rs: seq<Received>, r: Received, t: string)
    requires r.alert.service != t && rs != []
    requires forall r' | r' in rs :: r'.alert.service == t
    ensures |SortedServices(rs + [r])| == 2
    ensures forall k | 0 <= k < |rs| :: (rs + [r])[k].alert.service != r.alert.service
  {
    assert Services(rs + [r]) == {r.alert.service, t} by {
      assert rs[0] in rs + [r] && r in rs + [r];
    }
    assert forall k | 0 <= k < |rs| :: (rs + [r])[k] in rs;
  }

  /** All alerts reported in the tenant's cascades, one after the other. */
  function InCascades(windowSeconds: nat, h: History, tenant: string): seq<Received> {
    if h == [] then []
    else
      var n := |h| - 1;
      InCascades(windowSeconds, h[..n], tenant)
      + (if h[n].alert.tenant == tenant && FormsCascade(AlertsAt(windowSeconds, h, n))
         then AlertsAt(windowSeconds, h, n) else [])
  }

  function Project(h: History, tenant: string): History {
    if h == [] then []
    else
      var n := |h| - 1;
      Project(h[..n], tenant) + (if h[n].alert.tenant == tenant then [h[n]] else [])
  }

  function AsReceived(h: History): (rs: seq<Received>)
    ensures |rs| == |h| && forall i | 0 <= i < |h| :: rs[i] == Received(h[i].alert, h[i].at)
  {
    seq(|h|, i requires 0 <= i < |h| => Received(h[i].alert, h[i].at))
  }

  lemma StepReportsOnce(windowSeconds: nat, ws: Windows, a: Alert, now: real)
    ensures var rs := Candidates(windowSeconds, ws, a, now);
            multiset(if FormsCascade(rs) then rs else [])
            + multiset(Window(Step(windowSeconds, ws, a, now), a.tenant))
            <= multiset(Window(ws, a.tenant)) + multiset{Received(a, now)}
  {
    EvictIsSubset(Window(ws, a.tenant) + [Received(a, now)], now - windowSeconds as real);
  }

  /** No arrival is reported by two cascades, nor by a cascade and again by a later one out
      of the window: counted with multiplicity, cascades and window together hold no more
      than what arrived. */
  lemma {:induction false} ReportedAtMostOnce(windowSeconds: nat, h: History, tenant: string)
    ensures multiset(InCascades(windowSeconds, h, tenant)) + multiset(Window(Run(windowSeconds, h), tenant))
         <= multiset(AsReceived(Project(h, tenant)))
  {
    if h != [] {
      var n := |h| - 1;
      ReportedAtMostOnce(windowSeconds, h[..n], tenant);
      var ws := Run(windowSeconds, h[..n]);
      if h[n].alert.tenant == tenant {
        StepReportsOnce(windowSeconds, ws, h[n].alert, h[n].at);
        ProjectOwn(h, tenant);
        var rs := AlertsAt(windowSeconds, h, n);
        var reported := if FormsCascade(rs) then rs else [];
        Transfer(InCascades(windowSeconds, h[..n], tenant), reported, Window(ws, tenant),
                 Window(Run(windowSeconds, h), tenant), AsReceived(Project(h[..n], tenant)),
                 Received(h[n].alert, h[n].at));
      } else {
        assert Project(h, tenant) == Project(h[..n], tenant);
        assert Window(Run(windowSeconds, h), tenant) == Window(ws, tenant);
      }
    }
  }

  lemma Transfer(cs: seq<Received>, c: seq<Received>, win: seq<Received>, win': seq<Received>,
                 arrived: seq<Received>, r: Received)
    requires multiset(cs) + multiset(win) <= multiset(arrived)
    requires multiset(c) + multiset(win') <= multiset(win) + multiset{r}
    ensures multiset(cs + c) + multiset(win') <= multiset(arrived + [r])
  {
    forall e ensures multiset(cs + c)[e] + multiset(win')[e] <= multiset(arrived + [r])[e] {
      assert (multiset(cs) + multiset(win))[e] <= multiset(arrived)[e];
      assert (multiset(c) + multiset(win'))[e] <= (multiset(win) + multiset{r})[e];
    }
  }

  lemma ProjectOwn(h: History, tenant: string)
    requires h != [] && h[|h| - 1].alert.tenant == tenant
    ensures var n := |h| - 1;
            AsReceived(Project(h, tenant))
            == AsReceived(Project(h[..n], tenant)) + [Received(h[n].alert, h[n].at)]
  {}

  ghost predicate Arrived(h: History, r: Received) {
    exists k | 0 <= k < |h| :: r == Received(h[k].alert, h[k].at)
  }

  lemma {:induction false} WindowArrived(windowSeconds: nat, h: History, tenant: string, r: Received)
    requires r in Window(Run(windowSeconds, h), tenant)
    ensures Arrived(h, r)
  {
    var n := |h| - 1;
    var ws := Run(windowSeconds, h[..n]);
    StepArrived(windowSeconds, ws, h[n].alert, h[n].at, tenant, r);
    if r in Window(ws, tenant) {
      WindowArrived(windowSeconds, h[..n], tenant, r);
      var k :| 0 <= k < n && r == Received(h[..n][k].alert, h[..n][k].at);
      assert h[k] == h[..n][k];
    }
  }

  lemma StepArrived(windowSeconds: nat, ws: Windows, a: Alert, now: real, tenant: string, r: Received)
    requires r in Window(Step(windowSeconds, ws, a, now), tenant)
    ensures r in Window(ws, tenant) || r == Received(a, now)
  {
    if a.tenant == tenant {
      CandidatesArrived(windowSeconds, ws, a, now, r);
    }
  }

  lemma CandidatesArrived(windowSeconds: nat, ws: Windows, a: Alert, now: real, r: Received)
    requires r in Candidates(windowSeconds, ws, a, now)
    ensures r in Window(ws, a.tenant) || r == Received(a, now)
  {
    CandidatesEndWithNew(windowSeconds, ws, a, now);
    EvictIsSubset(Window(ws, a.tenant), now - windowSeconds as real);
  }

  /** Every alert of an incident arrived in the run itself, up to and including now. */
  lemma AlertsArrived(windowSeconds: nat, h: History, i: nat, r: Received)
    requires i < |h| && r in AlertsAt(windowSeconds, h, i)
    ensures Arrived(h[..i + 1], r)
  {
    CandidatesArrived(windowSeconds, Run(windowSeconds, h[..i]), h[i].alert, h[i].at, r);
    if r == Received(h[i].alert, h[i].at) {
      assert h[..i + 1][i] == h[i];
    } else {
      WindowArrived(windowSeconds, h[..i], h[i].alert.tenant, r);
      var k :| 0 <= k < i && r == Received(h[..i][k].alert, h[..i][k].at);
      assert h[..i + 1][k] == h[..i][k];
    }
  }

  // ----- Refinement of a history specification, for a clock that never goes back -----

  ghost predicate Monotone(h: History) {
    forall i, j | 0 <= i < j < |h| :: h[i].at <= h[j].at
  }

  /** Arrival i completes a cascade: since the tenant's last cascade an alert from another
      service arrived, no more than the window before it. */
  ghost predicate CascadeAt(windowSeconds: nat, h: History, i: nat)
    requires i < |h|
    decreases i, 1
  {
    exists j: nat | j < i ::
      && LastCascade(windowSeconds, h, h[i].alert.tenant, i) < j
      && Joins(windowSeconds, h, i, j)
      && h[j].alert.service != h[i].alert.service
  }

  ghost predicate Joins(windowSeconds: nat, h: History, i: nat, j: nat)
    requires j <= i < |h|
  {
    h[j].alert.tenant == h[i].alert.tenant && h[j].at >= h[i].at - windowSeconds as real
  }

  /** Position of the tenant's last cascade before i, or -1. */
  ghost function LastCascade(windowSeconds: nat, h: History, tenant: string, i: nat): (last: int)
    requires i <= |h|
    ensures -1 <= last < i
    decreases i, 0
  {
    if i == 0 then -1
    else if h[i - 1].alert.tenant == tenant && CascadeAt(windowSeconds, h, i - 1) then i - 1
    else LastCascade(windowSeconds, h, tenant, i - 1)
  }

  /** The tenant's arrivals strictly between positions from and to that a cutoff spares. */
  ghost function Between(h: History, tenant: string, from: int, to: nat, cutoff: real): seq<Received>
    requires to <= |h|
  {
    if to == 0 || to - 1 <= from then []
    else Between(h, tenant, from, to - 1, cutoff)
         + (if h[to - 1].alert.tenant == tenant && h[to - 1].at >= cutoff
            then [Received(h[to - 1].alert, h[to - 1].at)] else [])
  }

  lemma {:induction false} InBetween(h: History, tenant: string, from: int, to: nat, cutoff: real, r: Received)
    requires -1 <= from && to <= |h|
    ensures r in Between(h, tenant, from, to, cutoff) <==>
            exists j: nat | from < j < to ::
              && h[j].alert.tenant == tenant && h[j].at >= cutoff
              && r == Received(h[j].alert, h[j].at)
  {
    if to > 0 && to - 1 > from {
      InBetween(h, tenant, from, to - 1, cutoff, r);
    }
  }

  ghost predicate Late(windowSeconds: nat, h: History, i: nat, cutoff: real)
    requires i <= |h|
  {
    forall j | 0 <= j < i :: h[j].at - windowSeconds as real <= cutoff
  }

  /** Whatever a later arrival would evict, the window and the history leave the same. */
  ghost predicate Agrees(windowSeconds: nat, h: History, i: nat, tenant: string, win: seq<Received>)
    requires i <= |h|
  {
    forall cutoff: real | Late(windowSeconds, h, i, cutoff) ::
      Evict(win, cutoff) == Between(h, tenant, LastCascade(windowSeconds, h, tenant, i), i, cutoff)
  }

  lemma {:induction false} WindowAgrees(windowSeconds: nat, h: History, i: nat, tenant: string)
    requires i <= |h| && Monotone(h)
    ensures Agrees(windowSeconds, h, i, tenant, Window(Run(windowSeconds, h[..i]), tenant))
  {
    if i > 0 {
      var n := i - 1;
      assert h[..i][..n] == h[..n];
      WindowAgrees(windowSeconds, h, n, tenant);
      var ws := Run(windowSeconds, h[..n]);
      if h[n].alert.tenant == tenant {
        CascadeDecision(windowSeconds, h, n, ws);
        AgreesAfterOwn(windowSeconds, h, n, ws);
      } else {
        AgreesAfterOther(windowSeconds, h, n, tenant, Window(ws, tenant));
      }
    }
  }

  lemma AgreesAfterOther(windowSeconds: nat, h: History, n: nat, tenant: string, win: seq<Received>)
    requires n < |h| && h[n].alert.tenant != tenant && Agrees(windowSeconds, h, n, tenant, win)
    ensures Agrees(windowSeconds, h, n + 1, tenant, win)
  {
    forall cutoff: real | Late(windowSeconds, h, n + 1, cutoff)
      ensures Evict(win, cutoff)
           == Between(h, tenant, LastCascade(windowSeconds, h, tenant, n + 1), n + 1, cutoff)
    {
      assert Late(windowSeconds, h, n, cutoff);
    }
  }

  lemma CascadeDecision(windowSeconds: nat, h: History, i: nat, ws: Windows)
    requires i < |h| && Monotone(h)
    requires Agrees(windowSeconds, h, i, h[i].alert.tenant, Window(ws, h[i].alert.tenant))
    ensures var rs := Candidates(windowSeconds, ws, h[i].alert, h[i].at);
            && (FormsCascade(rs) <==> CascadeAt(windowSeconds, h, i))
            && rs == Between(h, h[i].alert.tenant, LastCascade(windowSeconds, h, h[i].alert.tenant, i),
                             i + 1, h[i].at - windowSeconds as real)
  {
    var tenant, cutoff := h[i].alert.tenant, h[i].at - windowSeconds as real;
    var earlier := Between(h, tenant, LastCascade(windowSeconds, h, tenant, i), i, cutoff);
    EarlierAgree(windowSeconds, h, i, Window(ws, tenant), earlier);
    CascadeWhenAnotherService(windowSeconds, ws, h[i].alert, h[i].at);
    OtherServiceJoins(windowSeconds, h, i);
    CandidatesEndWithNew(windowSeconds, ws, h[i].alert, h[i].at);
  }

  lemma EarlierAgree(windowSeconds: nat, h: History, i: nat, win: seq<Received>, earlier: seq<Received>)
    requires i < |h| && Monotone(h) && Agrees(windowSeconds, h, i, h[i].alert.tenant, win)
    requires var tenant := h[i].alert.tenant;
             earlier == Between(h, tenant, LastCascade(windowSeconds, h, tenant, i), i, h[i].at - windowSeconds as real)
    ensures Evict(win, h[i].at - windowSeconds as real) == earlier
  {
    assert Late(windowSeconds, h, i, h[i].at - windowSeconds as real);
  }

  lemma OtherServiceJoins(windowSeconds: nat, h: History, i: nat)
    requires i < |h|
    ensures CascadeAt(windowSeconds, h, i) <==>
            HasOther(Between(h, h[i].alert.tenant,
                             LastCascade(windowSeconds, h, h[i].alert.tenant, i), i,
                             h[i].at - windowSeconds as real), h[i].alert.service)
  {
    var a := h[i].alert;
    var cutoff := h[i].at - windowSeconds as real;
    var last := LastCascade(windowSeconds, h, a.tenant, i);
    var earlier := Between(h, a.tenant, last, i, cutoff);
    if HasOther(earlier, a.service) {
      var r :| r in earlier && r.alert.service != a.service;
      InBetween(h, a.tenant, last, i, cutoff, r);
      var j: nat :| last < j < i && h[j].alert.tenant == a.tenant && h[j].at >= cutoff
                    && r == Received(h[j].alert, h[j].at);
      assert Joins(windowSeconds, h, i, j);
    }
    if CascadeAt(windowSeconds, h, i) {
      var j: nat :| j < i && last < j && Joins(windowSeconds, h, i, j)
                    && h[j].alert.service != a.service;
      InBetween(h, a.tenant, last, i, cutoff, Received(h[j].alert, h[j].at));
    }
  }

  lemma AgreesAfterOwn(windowSeconds: nat, h: History, n: nat, ws: Windows)
    requires n < |h| && Monotone(h)
    requires Agrees(windowSeconds, h, n, h[n].alert.tenant, Window(ws, h[n].alert.tenant))
    requires FormsCascade(Candidates(windowSeconds, ws, h[n].alert, h[n].at))
             <==> CascadeAt(windowSeconds, h, n)
    ensures Agrees(windowSeconds, h, n + 1, h[n].alert.tenant,
                   Window(Step(windowSeconds, ws, h[n].alert, h[n].at), h[n].alert.tenant))
  {
    var tenant := h[n].alert.tenant;
    var after := Window(Step(windowSeconds, ws, h[n].alert, h[n].at), tenant);
    forall cutoff: real | Late(windowSeconds, h, n + 1, cutoff)
      ensures Evict(after, cutoff)
           == Between(h, tenant, LastCascade(windowSeconds, h, tenant, n + 1), n + 1, cutoff)
    {
      if CascadeAt(windowSeconds, h, n) {
        assert Evict([], cutoff) == [];
      } else {
        KeptByOwn(windowSeconds, h, n, ws, cutoff);
      }
    }
  }

  lemma KeptByOwn(windowSeconds: nat, h: History, n: nat, ws: Windows, cutoff: real)
    requires n < |h| && Agrees(windowSeconds, h, n, h[n].alert.tenant, Window(ws, h[n].alert.tenant))
    requires Late(windowSeconds, h, n + 1, cutoff)
    ensures var tenant := h[n].alert.tenant;
            Evict(Candidates(windowSeconds, ws, h[n].alert, h[n].at), cutoff)
            == Between(h, tenant, LastCascade(windowSeconds, h, tenant, n), n + 1, cutoff)
  {
    assert Late(windowSeconds, h, n, cutoff);
    StepThenEvict(windowSeconds, ws, h[n].alert, h[n].at, cutoff);
  }

  lemma StepThenEvict(windowSeconds: nat, ws: Windows, a: Alert, now: real, cutoff: real)
    requires now - windowSeconds as real <= cutoff
    ensures Evict(Candidates(windowSeconds, ws, a, now), cutoff)
         == Evict(Window(ws, a.tenant), cutoff) + (if now >= cutoff then [Received(a, now)] else [])
  {
    var latest := [Received(a, now)];
    EvictEvict(Window(ws, a.tenant) + latest, now - windowSeconds as real, cutoff);
    EvictAppend(Window(ws, a.tenant), latest, cutoff);
    assert Evict([], cutoff) == [];
  }

  /** With arrivals in clock order, the correlator refines the history specification: it
      emits a cascade exactly where the history has one, made of exactly the tenant's
      arrivals since its last cascade that are still inside the window. */
  lemma RefinesHistory(windowSeconds: nat, h: History, i: nat)
    requires i < |h| && Monotone(h)
    ensures IncidentAt(windowSeconds, h, i).isCascade <==> CascadeAt(windowSeconds, h, i)
    ensures AlertsAt(windowSeconds, h, i)
         == Between(h, h[i].alert.tenant, LastCascade(windowSeconds, h, h[i].alert.tenant, i), i + 1,
                    h[i].at - windowSeconds as real)
  {
    WindowAgrees(windowSeconds, h, i, h[i].alert.tenant);
    CascadeDecision(windowSeconds, h, i, Run(windowSeconds, h[..i]));
  }

  // ----- Tenants do not influence each other -----

  function Incidents(windowSeconds: nat, h: History): seq<Incident> {
    if h == [] then []
    else Incidents(windowSeconds, h[..|h| - 1]) + [IncidentAt(windowSeconds, h, |h| - 1)]
  }

  function OfTenant(incs: seq<Incident>, tenant: string): seq<Incident> {
    if incs == [] then []
    else OfTenant(incs[..|incs| - 1], tenant)
         + (if incs[|incs| - 1].tenant == tenant then [incs[|incs| - 1]] else [])
  }

  /** A tenant's incidents, for any clock order, are those of the run in which only its own
      alerts arrive. */
  lemma {:induction false} TenantsAreIndependent(windowSeconds: nat, h: History, tenant: string)
    ensures Window(Run(windowSeconds, h), tenant) == Window(Run(windowSeconds, Project(h, tenant)), tenant)
    ensures OfTenant(Incidents(windowSeconds, h), tenant) == Incidents(windowSeconds, Project(h, tenant))
  {
    if h != [] {
      var n := |h| - 1;
      var p := Project(h[..n], tenant);
      TenantsAreIndependent(windowSeconds, h[..n], tenant);
      if h[n].alert.tenant == tenant {
        OwnArrival(windowSeconds, h, p, tenant);
      } else {
        OtherArrival(windowSeconds, h, tenant);
      }
    }
  }

  lemma OwnArrival(windowSeconds: nat, h: History, p: History, tenant: string)
    requires h != [] && h[|h| - 1].alert.tenant == tenant && p == Project(h[..|h| - 1], tenant)
    requires Window(Run(windowSeconds, h[..|h| - 1]), tenant) == Window(Run(windowSeconds, p), tenant)
    requires OfTenant(Incidents(windowSeconds, h[..|h| - 1]), tenant) == Incidents(windowSeconds, p)
    ensures Window(Run(windowSeconds, h), tenant) == Window(Run(windowSeconds, Project(h, tenant)), tenant)
    ensures OfTenant(Incidents(windowSeconds, h), tenant) == Incidents(windowSeconds, Project(h, tenant))
  {
    var n := |h| - 1;
    var q := Project(h, tenant);
    assert q[..|q| - 1] == p && q[|q| - 1] == h[n];
    var incs := Incidents(windowSeconds, h);
    assert incs[..|incs| - 1] == Incidents(windowSeconds, h[..n]);
    assert incs[|incs| - 1] == IncidentAt(windowSeconds, h, n);
    assert IncidentAt(windowSeconds, h, n) == IncidentAt(windowSeconds, q, |q| - 1);
  }

  lemma OtherArrival(windowSeconds: nat, h: History, tenant: string)
    requires h != [] && h[|h| - 1].alert.tenant != tenant
    ensures Project(h, tenant) == Project(h[..|h| - 1], tenant)
    ensures Window(Run(windowSeconds, h), tenant) == Window(Run(windowSeconds, h[..|h| - 1]), tenant)
    ensures OfTenant(Incidents(windowSeconds, h), tenant) == OfTenant(Incidents(windowSeconds, h[..|h| - 1]), tenant)
  {
    var incs := Incidents(windowSeconds, h);
    assert incs[..|incs| - 1] == Incidents(windowSeconds, h[..|h| - 1]);
  }
}
