/** The detection pipeline for one log event: run the detectors, merge their findings, keep a
    cooldown per tenant and service, ask a verifier, count the outcome and notify every
    publisher. */
module Orchestrator {
  import opened Severities
  import opened Wrappers
  import R = Reals

  datatype Kind = ErrorRateSpike | VolumeSpike | NewErrorPattern | Combined

  datatype WireKind = Statistical | Semantic | CombinedAlert

  datatype Details = Single(text: string) | Both(statistical: Details, semantic: Details)

  datatype Detection = Detection(kind: Kind, severity: Severity, confidence: real, details: Details)

  datatype Alert = Alert(tenant: string, service: string, kind: WireKind, severity: Severity,
                         confidence: real, details: Details)

  datatype Log = Log(tenant: string, service: string, level: string, message: string, timestamp: real)

  datatype Verdict = Yes | No | Raises

  /** One log and what the world answers: the clock at the cooldown check, the verifier's
      verdict, and the clock when a confirmed alert is recorded. */
  datatype Event = Event(log: Log, checked: real, verdict: Verdict, stored: real)

  /** What became of an event; Down when the process had already exited. */
  datatype Outcome = Quiet | Cooling | Filtered | Confirmed(alert: Alert) | Raised | Down

  /** The two detectors, as transitions of their stored state. */
  datatype Detectors<!S, !M> = Detectors(statistical: (S, Log) -> (S, Option<Detection>),
                                         semantic: (M, Log) -> (M, Option<Detection>))

  type Key = (string, string)

  // ----- Merging -----

  function Max(x: real, y: real): real {
    if y > x then y else x
  }

  function Merge(stat: Option<Detection>, sem: Option<Detection>): Option<Detection> {
    match (stat, sem)
    case (None, None) => None
    case (Some(_), None) => stat
    case (None, Some(_)) => sem
    case (Some(a), Some(b)) =>
      var base := if Rank(a.severity) >= Rank(b.severity) then a else b;
      Some(Detection(Combined, base.severity, Max(a.confidence, b.confidence), Both(a.details, b.details)))
  }

  /** Merging never loses a finding: it reports one exactly when a detector does, at least as
      severe and as confident as either, and no more than the worse of the two; a single
      finding stays as it is, and of two it keeps both details. */
  lemma MergeIsJoin(stat: Option<Detection>, sem: Option<Detection>)
    ensures var m := Merge(stat, sem);
            && (m.Some? <==> stat.Some? || sem.Some?)
            && (stat.None? ==> m == sem) && (sem.None? ==> m == stat)
            && (forall d | d in [stat, sem] && d.Some? ::
                  Rank(d.value.severity) <= Rank(m.value.severity) && d.value.confidence <= m.value.confidence)
            && (m.Some? ==> exists d :: d in [stat, sem] && d.Some? && d.value.severity == m.value.severity)
            && (m.Some? ==> exists d :: d in [stat, sem] && d.Some? && d.value.confidence == m.value.confidence)
            && (stat.Some? && sem.Some? <==> m.Some? && m.value.kind == Combined && m != stat && m != sem)
            && (stat.Some? && sem.Some? ==> m.value.details == Both(stat.value.details, sem.value.details))
  {
    if stat.Some? || sem.Some? {
      assert stat in [stat, sem] && sem in [stat, sem];
    }
    if stat.Some? && sem.Some? {
      assert stat.value.details < Both(stat.value.details, sem.value.details);
      assert sem.value.details < Both(stat.value.details, sem.value.details);
    }
  }

  function ToWire(kind: Kind): WireKind {
    match kind
    case ErrorRateSpike => Statistical
    case VolumeSpike => Statistical
    case NewErrorPattern => Semantic
    case Combined => CombinedAlert
  }

  // ----- The payload's range check -----

  /** Rounding to the nearest integer, ties to even. */
  function RoundHalfEven(x: real): int {
    var f := x.Floor;
    if x - f as real < 0.5 then f
    else if x - f as real > 0.5 then f + 1
    else if f % 2 == 0 then f else f + 1
  }

  function Round4(x: real): real {
    RoundHalfEven(x * 10000.0) as real / 10000.0
  }

  predicate InUnit(x: real) {
    0.0 <= x <= 1.0
  }

  /** The rounded confidence is accepted exactly when the confidence is within half of the
      fourth digit of [0, 1]. */
  lemma AcceptedExactly(confidence: real)
    ensures InUnit(Round4(confidence)) <==> -0.00005 <= confidence <= 1.00005
  {}

  /** y is x to four digits, ties to even. */
  ghost predicate Rounded(x: real, y: real) {
    exists n: int :: NearestDigit(x, y, n)
  }

  ghost predicate NearestDigit(x: real, y: real, n: int) {
    var scaled := x * 10000.0;
    && y * 10000.0 == n as real && n as real - 0.5 <= scaled <= n as real + 0.5
    && (scaled == n as real - 0.5 || scaled == n as real + 0.5 ==> n % 2 == 0)
  }

  lemma Round4Exactly(x: real)
    ensures Rounded(x, Round4(x))
  {
    assert NearestDigit(x, Round4(x), RoundHalfEven(x * 10000.0));
  }

  // ----- One event -----

  datatype State<S, M> = State(statistical: S, semantic: M, lastAlert: map<Key, real>, exited: bool)

  predicate IsError(log: Log) {
    log.level == "ERROR" || log.level == "FATAL"
  }

  function KeyOf(log: Log): Key {
    (log.tenant, log.service)
  }

  /** The finding for a log, given both detectors' states. */
  function Find<S, M>(detectors: Detectors<S, M>, statistical: S, semantic: M, log: Log): Option<Detection> {
    Merge(detectors.statistical(statistical, log).1,
          if IsError(log) then detectors.semantic(semantic, log).1 else None)
  }

  predicate CoolingDown(cooldown: real, lastAlert: map<Key, real>, e: Event) {
    KeyOf(e.log) in lastAlert && e.checked - lastAlert[KeyOf(e.log)] < cooldown
  }

  function Decide(cooldown: real, lastAlert: map<Key, real>, found: Option<Detection>, e: Event): Outcome {
    match found
    case None => Quiet
    case Some(d) =>
      if CoolingDown(cooldown, lastAlert, e) then Cooling
      else match e.verdict
           case Raises => Raised
           case No => Filtered
           case Yes =>
             if !InUnit(Round4(d.confidence)) then Raised
             else Confirmed(Alert(e.log.tenant, e.log.service, ToWire(d.kind), d.severity, Round4(d.confidence),
                                  d.details))
  }

  function OutcomeOf<S, M>(cooldown: real, detectors: Detectors<S, M>, s: State<S, M>, e: Event): Outcome {
    if s.exited then Down
    else Decide(cooldown, s.lastAlert, Find(detectors, s.statistical, s.semantic, e.log), e)
  }

  /** An exception leaves the consumer loop and ends the process. */
  function Step<S, M>(cooldown: real, detectors: Detectors<S, M>, s: State<S, M>, e: Event): State<S, M> {
    if s.exited then s
    else
      var outcome := OutcomeOf(cooldown, detectors, s, e);
      State(detectors.statistical(s.statistical, e.log).0,
            if IsError(e.log) then detectors.semantic(s.semantic, e.log).0 else s.semantic,
            if outcome.Confirmed? then s.lastAlert[KeyOf(e.log) := e.stored] else s.lastAlert,
            outcome.Raised?)
  }

  /** A process that starts on detector states left by earlier ones. */
  function Initial<S, M>(statistical: S, semantic: M): State<S, M> {
    State(statistical, semantic, map[], false)
  }

  function Run<S, M>(cooldown: real, detectors: Detectors<S, M>, init: State<S, M>, events: seq<Event>): State<S, M> {
    if events == [] then init
    else Step(cooldown, detectors, Run(cooldown, detectors, init, events[..|events| - 1]), events[|events| - 1])
  }

  function Outcomes<S, M>(cooldown: real, detectors: Detectors<S, M>, init: State<S, M>,
                          events: seq<Event>): (os: seq<Outcome>)
    ensures |os| == |events|
  {
    if events == [] then []
    else
      var front, e := events[..|events| - 1], events[|events| - 1];
      Outcomes(cooldown, detectors, init, front)
      + [OutcomeOf(cooldown, detectors, Run(cooldown, detectors, init, front), e)]
  }

  /** The payload of a confirmed finding. */
  ghost predicate Carries(alert: Alert, log: Log, found: Detection) {
    && alert.tenant == log.tenant && alert.service == log.service
    && alert.severity == found.severity && alert.details == found.details
    && Rounded(found.confidence, alert.confidence)
    && (alert.kind == Statistical <==> found.kind == ErrorRateSpike || found.kind == VolumeSpike)
    && (alert.kind == Semantic <==> found.kind == NewErrorPattern)
    && (alert.kind == CombinedAlert <==> found.kind == Combined)
  }

  /** One event in a process that is up. The semantic detector sees errors only. A finding is
      passed over while an alert of its tenant and service is less than the cooldown old. Any
      other goes to the verifier: refused it is filtered, and confirmed it is published if
      its confidence is acceptable. The process ends when the verifier raises or a confirmed
      confidence is not acceptable. Only a published alert is remembered. */
  lemma OutcomeExactly<S, M>(cooldown: real, detectors: Detectors<S, M>, s: State<S, M>, e: Event)
    requires !s.exited
    ensures var isError := e.log.level == "ERROR" || e.log.level == "FATAL";
            var key := (e.log.tenant, e.log.service);
            var statistical := detectors.statistical(s.statistical, e.log);
            var semantic := detectors.semantic(s.semantic, e.log);
            var found := Merge(statistical.1, if isError then semantic.1 else None);
            var cooling := found.Some? && key in s.lastAlert && e.checked - s.lastAlert[key] < cooldown;
            var candidate := found.Some? && !cooling;
            var acceptable := candidate && -0.00005 <= found.value.confidence <= 1.00005;
            var outcome, after := OutcomeOf(cooldown, detectors, s, e), Step(cooldown, detectors, s, e);
            && (outcome.Quiet? <==> found.None?)
            && (outcome.Cooling? <==> cooling)
            && (outcome.Filtered? <==> candidate && e.verdict == No)
            && (outcome.Confirmed? <==> candidate && e.verdict == Yes && acceptable)
            && (outcome.Raised? <==> candidate && (e.verdict == Raises || (e.verdict == Yes && !acceptable)))
            && (outcome.Confirmed? ==> Carries(outcome.alert, e.log, found.value))
            && after.statistical == statistical.0
            && after.semantic == (if isError then semantic.0 else s.semantic)
            && after.lastAlert == (if outcome.Confirmed? then s.lastAlert[key := e.stored] else s.lastAlert)
            && (after.exited <==> outcome.Raised?)
  {
    var found := Find(detectors, s.statistical, s.semantic, e.log);
    if found.Some? {
      AcceptedExactly(found.value.confidence);
      Round4Exactly(found.value.confidence);
    }
  }

  // ----- The cooldown bounds the rate of alerts -----

  /** When the confirmed alerts of one key were recorded. */
  function AlertTimes(outcomes: seq<Outcome>, events: seq<Event>, key: Key): seq<real>
    requires |outcomes| == |events|
  {
    if events == [] then []
    else
      var n := |events| - 1;
      AlertTimes(outcomes[..n], events[..n], key)
      + if outcomes[n].Confirmed? && KeyOf(events[n].log) == key then [events[n].stored] else []
  }

  ghost predicate Spaced(times: seq<real>, gap: real) {
    forall i | 0 <= i < |times| - 1 :: times[i + 1] - times[i] >= gap
  }

  /** Within one event the clock does not run backwards. */
  ghost predicate ClockForward(events: seq<Event>) {
    forall i | 0 <= i < |events| :: events[i].checked <= events[i].stored
  }

  /** lastAlert holds the latest alert time of a key, and the times are a cooldown apart. */
  ghost predicate Recorded(lastAlert: map<Key, real>, key: Key, times: seq<real>, cooldown: real) {
    && (key in lastAlert <==> times != [])
    && (times != [] ==> lastAlert[key] == times[|times| - 1])
    && Spaced(times, cooldown)
  }

  lemma {:induction false} AlertsAreSpaced<S, M>(cooldown: real, detectors: Detectors<S, M>, init: State<S, M>,
                                                 events: seq<Event>, key: Key)
    requires init.lastAlert == map[] && ClockForward(events)
    ensures Recorded(Run(cooldown, detectors, init, events).lastAlert, key,
                     AlertTimes(Outcomes(cooldown, detectors, init, events), events, key), cooldown)
  {
    if events != [] {
      var n := |events| - 1;
      AlertsAreSpaced(cooldown, detectors, init, events[..n], key);
      var os := Outcomes(cooldown, detectors, init, events);
      assert os[..n] == Outcomes(cooldown, detectors, init, events[..n]);
      assert events[n].checked <= events[n].stored;
    }
  }

  /** The times in a closed interval. */
  function Within(times: seq<real>, from: real, to: real): seq<real> {
    if times == [] then []
    else
      var n := |times| - 1;
      Within(times[..n], from, to) + if from <= times[n] <= to then [times[n]] else []
  }

  lemma {:induction false} WithinSpaced(times: seq<real>, gap: real, from: real, to: real)
    requires gap > 0.0 && Spaced(times, gap)
    ensures var w := Within(times, from, to);
            && Spaced(w, gap)
            && (w != [] ==> times != [] && from <= w[0] && w[|w| - 1] <= to && w[|w| - 1] <= times[|times| - 1])
  {
    if times != [] {
      var n := |times| - 1;
      WithinSpaced(times[..n], gap, from, to);
      assert n > 0 ==> times[n] - times[n - 1] >= gap;
    }
  }

  /** Spaced times span at least total, the gaps between them. */
  lemma {:induction false} SpanOf(times: seq<real>, gap: real, total: real)
    requires times != [] && Spaced(times, gap) && total == (|times| - 1) as real * gap
    ensures times[|times| - 1] - times[0] >= total
  {
    var n := |times| - 1;
    if n > 0 {
      OneLessGap(n, gap, total);
      SpanOf(times[..n], gap, total - gap);
      assert times[n] - times[n - 1] >= gap;
    }
  }

  lemma OneLessGap(n: int, gap: real, total: real)
    requires total == n as real * gap
    ensures total - gap == (n - 1) as real * gap
  {}

  /** Any interval of a given length holds at most floor(length / cooldown) + 1 confirmed
      alerts of one tenant and service. */
  lemma CooldownBoundsRate<S, M>(cooldown: real, detectors: Detectors<S, M>, init: State<S, M>, events: seq<Event>,
                                 key: Key, from: real, length: real)
    requires cooldown > 0.0 && length >= 0.0 && init.lastAlert == map[] && ClockForward(events)
    ensures |Within(AlertTimes(Outcomes(cooldown, detectors, init, events), events, key), from, from + length)|
         <= (length / cooldown).Floor + 1
  {
    var times := AlertTimes(Outcomes(cooldown, detectors, init, events), events, key);
    AlertsAreSpaced(cooldown, detectors, init, events, key);
    SpacedFit(times, cooldown, from, length, length / cooldown);
  }

  lemma SpacedFit(times: seq<real>, gap: real, from: real, length: real, ratio: real)
    requires gap > 0.0 && length >= 0.0 && Spaced(times, gap) && ratio == length / gap
    ensures |Within(times, from, from + length)| <= ratio.Floor + 1
  {
    var w := Within(times, from, from + length);
    WithinSpaced(times, gap, from, from + length);
    if w != [] {
      var total := (|w| - 1) as real * gap;
      SpanOf(w, gap, total);
      GapsFit(|w| - 1, gap, total, length, ratio);
    } else {
      GapsFit(0, gap, 0.0, length, ratio);
    }
  }

  lemma GapsFit(n: nat, gap: real, total: real, length: real, ratio: real)
    requires gap > 0.0 && total == n as real * gap && total <= length && ratio == length / gap
    ensures n <= ratio.Floor
  {
    assert ratio * gap == length;
    if ratio < n as real {
      R.PositiveProduct(n as real - ratio, gap, total - length);
    }
  }

  // ----- Detectors do not depend on alerting -----

  /** While neither process has raised, cooldown, clock and verdicts leave no trace in the
      detectors: their states depend on the logs alone. */
  lemma {:induction false} DetectorsIndependent<S, M>(detectors: Detectors<S, M>, s: State<S, M>, cooldown: real,
                                                      events: seq<Event>,
                                                      cooldown': real, events': seq<Event>)
    requires |events| == |events'| && forall i | 0 <= i < |events| :: events[i].log == events'[i].log
    requires !Run(cooldown, detectors, s, events).exited && !Run(cooldown', detectors, s, events').exited
    ensures Run(cooldown, detectors, s, events).statistical == Run(cooldown', detectors, s, events').statistical
    ensures Run(cooldown, detectors, s, events).semantic == Run(cooldown', detectors, s, events').semantic
  {
    if events != [] {
      var n := |events| - 1;
      DetectorsIndependent(detectors, s, cooldown, events[..n], cooldown', events'[..n]);
    }
  }

  // ----- Counting -----

  function Count(outcomes: seq<Outcome>, events: seq<Event>, tenant: string, test: Outcome -> bool): nat
    requires |outcomes| == |events|
  {
    if events == [] then 0
    else
      var n := |events| - 1;
      Count(outcomes[..n], events[..n], tenant, test)
      + if events[n].log.tenant == tenant && test(outcomes[n]) then 1 else 0
  }

  function Filters(): Outcome -> bool {
    (o: Outcome) => o.Filtered?
  }

  function Confirms(): Outcome -> bool {
    (o: Outcome) => o.Confirmed?
  }

  function Fails(): Outcome -> bool {
    (o: Outcome) => o.Raised?
  }

  /** The counter is incremented before the verifier is called. */
  function Calls(): Outcome -> bool {
    (o: Outcome) => o.Filtered? || o.Confirmed? || o.Raised?
  }

  lemma {:induction false} CallsSplit(outcomes: seq<Outcome>, events: seq<Event>, tenant: string)
    requires |outcomes| == |events|
    ensures Count(outcomes, events, tenant, Calls())
         == Count(outcomes, events, tenant, Filters()) + Count(outcomes, events, tenant, Confirms())
            + Count(outcomes, events, tenant, Fails())
  {
    if events != [] {
      CallsSplit(outcomes[..|events| - 1], events[..|events| - 1], tenant);
    }
  }

  /** A process raises at most once, when it exits. */
  lemma {:induction false} FailsOnlyAtExit<S, M>(cooldown: real, detectors: Detectors<S, M>, init: State<S, M>,
                                                 events: seq<Event>, tenant: string)
    requires !init.exited
    ensures Count(Outcomes(cooldown, detectors, init, events), events, tenant, Fails())
         <= if Run(cooldown, detectors, init, events).exited then 1 else 0
  {
    if events != [] {
      var n := |events| - 1;
      FailsOnlyAtExit(cooldown, detectors, init, events[..n], tenant);
      assert Outcomes(cooldown, detectors, init, events)[..n] == Outcomes(cooldown, detectors, init, events[..n]);
    }
  }

  /** Verifier calls are the false positives plus the confirmed alerts, plus one when an event
      of this tenant raised and ended the process. */
  lemma {:induction false} CallsBalance<S, M>(cooldown: real, detectors: Detectors<S, M>, init: State<S, M>,
                                              events: seq<Event>, tenant: string)
    requires !init.exited
    ensures var os := Outcomes(cooldown, detectors, init, events);
            var balance := Count(os, events, tenant, Filters()) + Count(os, events, tenant, Confirms());
            && Count(os, events, tenant, Calls()) == balance + Count(os, events, tenant, Fails())
            && (Run(cooldown, detectors, init, events).exited ==>
                  balance <= Count(os, events, tenant, Calls()) <= balance + 1)
            && (!Run(cooldown, detectors, init, events).exited ==> Count(os, events, tenant, Calls()) == balance)
  {
    CallsSplit(Outcomes(cooldown, detectors, init, events), events, tenant);
    FailsOnlyAtExit(cooldown, detectors, init, events, tenant);
  }

  /** An event raises exactly when a candidate outside the cooldown meets a verifier that
      raises, or is confirmed with a confidence the payload rejects. */
  lemma RaisesExactly<S, M>(cooldown: real, detectors: Detectors<S, M>, s: State<S, M>, e: Event)
    requires !s.exited
    ensures Step(cooldown, detectors, s, e).exited <==>
            var found := Find(detectors, s.statistical, s.semantic, e.log);
            && found.Some? && !CoolingDown(cooldown, s.lastAlert, e)
            && (e.verdict == Raises
                || (e.verdict == Yes && !(-0.00005 <= found.value.confidence <= 1.00005)))
  {
    var found := Find(detectors, s.statistical, s.semantic, e.log);
    if found.Some? {
      AcceptedExactly(found.value.confidence);
    }
  }

  // ----- The orchestrator -----

  function Bump<T(==)>(counters: map<T, nat>, key: T): map<T, nat> {
    counters[key := if key in counters then counters[key] + 1 else 1]
  }

  lemma BumpExactly<T>(counters: map<T, nat>, key: T, other: T)
    ensures var after := Bump(counters, key);
            && (other in after <==> other in counters || other == key)
            && (other in after ==>
                  after[other] == (if other in counters then counters[other] else 0) + if other == key then 1 else 0)
  {}

  /** Every publisher has been handed one more alert. */
  ghost predicate HandedToAll(before: seq<seq<Alert>>, after: seq<seq<Alert>>, alert: Alert) {
    |after| == |before| && forall p | 0 <= p < |before| :: after[p] == before[p] + [alert]
  }

  class AnomalyOrchestrator<!S, !M> {
    const detectors: Detectors<S, M>
    const cooldown: real
    var state: State<S, M>
    var calls: map<string, nat>
    var falsePositives: map<string, nat>
    var anomalies: map<(Kind, string), nat>
    /** What each publisher has been handed. */
    var handed: seq<seq<Alert>>

    constructor (detectors: Detectors<S, M>, cooldown: real, statistical: S, semantic: M, publishers: nat)
      ensures this.detectors == detectors && this.cooldown == cooldown
      ensures state == Initial(statistical, semantic)
      ensures calls == falsePositives == map[] && anomalies == map[] && handed == seq(publishers, _ => [])
    {
      this.detectors, this.cooldown := detectors, cooldown;
      state := Initial(statistical, semantic);
      calls, falsePositives, anomalies, handed := map[], map[], map[], seq(publishers, _ => []);
    }

    method ProcessLog(e: Event, fails: int -> bool) returns (outcome: Outcome)
      requires !state.exited
      modifies this
      ensures outcome == OutcomeOf(cooldown, detectors, old(state), e)
      ensures state == Step(cooldown, detectors, old(state), e)
      ensures calls == if Calls()(outcome) then Bump(old(calls), e.log.tenant) else old(calls)
      ensures falsePositives ==
              if outcome.Filtered? then Bump(old(falsePositives), e.log.tenant) else old(falsePositives)
      ensures anomalies ==
              if outcome.Confirmed? then
                Bump(old(anomalies),
                     (Find(detectors, old(state).statistical, old(state).semantic, e.log).value.kind, e.log.tenant))
              else old(anomalies)
      ensures outcome.Confirmed? ==> HandedToAll(old(handed), handed, outcome.alert)
      ensures !outcome.Confirmed? ==> handed == old(handed)
    {
      var (statistical, statResult) := detectors.statistical(state.statistical, e.log);
      state := state.(statistical := statistical);
      var semResult: Option<Detection> := None;
      if IsError(e.log) {
        var (semantic, result) := detectors.semantic(state.semantic, e.log);
        state, semResult := state.(semantic := semantic), result;
      }
      var result := Merge(statResult, semResult);
      if result.None? {
        return Quiet;
      }
      var key := KeyOf(e.log);
      if key in state.lastAlert {
        var elapsed := e.checked - state.lastAlert[key];
        if elapsed < cooldown {
          return Cooling;
        }
      }
      calls := Bump(calls, e.log.tenant);
      if e.verdict == Raises {
        state := state.(exited := true);
        return Raised;
      }
      if e.verdict == No {
        falsePositives := Bump(falsePositives, e.log.tenant);
        return Filtered;
      }
      var confidence := Round4(result.value.confidence);
      if !InUnit(confidence) {
        state := state.(exited := true);
        return Raised;
      }
      var alert := Alert(e.log.tenant, e.log.service, ToWire(result.value.kind), result.value.severity, confidence,
                         result.value.details);
      state := state.(lastAlert := state.lastAlert[key := e.stored]);
      var _ := PublishAll(alert, fails);
      anomalies := Bump(anomalies, (result.value.kind, e.log.tenant));
      outcome := Confirmed(alert);
    }

    /** Notifies the publishers in order; one that fails does not keep the alert from the rest. */
    method PublishAll(alert: Alert, fails: int -> bool) returns (failed: nat)
      modifies `handed
      ensures HandedToAll(old(handed), handed, alert)
      ensures failed <= |handed|
    {
      failed := 0;
      for p := 0 to |handed|
        invariant |handed| == |old(handed)| && failed <= p
        invariant forall i | 0 <= i < p :: handed[i] == old(handed)[i] + [alert]
        invariant forall i | p <= i < |handed| :: handed[i] == old(handed)[i]
      {
        handed := handed[p := handed[p] + [alert]];
        if fails(p) {
          failed := failed + 1;
        }
      }
    }
  }
}
