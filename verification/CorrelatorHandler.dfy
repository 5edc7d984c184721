/** The Kafka side of the alert correlator: consume, correlate, publish or dead-letter,
    commit, as a protocol over one partition that may crash between any two steps. */
module CorrelatorHandler {
  import C = Correlator

  /** A record of the alerts topic. Malformed is what fails schema validation; Unprocessable
      is a record whose handling raises anything else (one without a value, or an array, which
      has no keys). */
  datatype Message = Malformed | Unprocessable | Parsed(alert: C.Alert)

  datatype Reason = SchemaInvalid | PublishFailed

  /** What became of one delivery of a message: DlqFailed is only logged. */
  datatype Result = Published(incident: C.Incident) | DeadLettered(reason: Reason) | DlqFailed(reason: Reason)

  datatype Outcome = Outcome(offset: nat, incarnation: nat, result: Result)

  datatype Phase =
    | Idle
    | Fetched(offset: nat)
    | Publishing(offset: nat, incident: C.Incident, failures: nat)
    | Rejecting(offset: nat, reason: Reason)
    | Done(offset: nat)

  datatype Config = Config(topic: seq<Message>, windowSeconds: nat, maxRetries: nat)

  /** committed and outcomes survive a crash; phase, position and windows do not. lives
      records, per incarnation of the process, the arrivals its correlator saw. */
  datatype State = State(committed: nat, position: nat, phase: Phase, windows: C.Windows,
                         lives: seq<C.History>, outcomes: seq<Outcome>, crashedAt: seq<nat>)

  datatype Action =
    | Fetch
    | Correlate(now: real)
    | Attempt(acknowledged: bool)
    | SendToDlq(acknowledged: bool)
    | Commit
    | Crash

  const INITIAL := State(0, 0, Idle, map[], [[]], [], [])

  /** The retry library always makes one attempt, and stops after the configured number. */
  function Attempts(cfg: Config): (n: nat)
    ensures n >= 1
  {
    if cfg.maxRetries == 0 then 1 else cfg.maxRetries
  }

  predicate Enabled(cfg: Config, s: State, a: Action) {
    match a
    case Fetch => s.phase.Idle? && s.position < |cfg.topic|
    case Correlate(_) => s.phase.Fetched? && s.phase.offset < |cfg.topic| && cfg.topic[s.phase.offset].Parsed?
    case Attempt(_) => s.phase.Publishing?
    case SendToDlq(_) => s.phase.Rejecting?
    case Commit => s.phase.Done?
    case Crash => true
  }

  function Incarnation(s: State): nat {
    if |s.lives| == 0 then 0 else |s.lives| - 1
  }

  function Current(s: State): C.History {
    if s.lives == [] then [] else s.lives[|s.lives| - 1]
  }

  function Report(s: State, result: Result): State
    requires !s.phase.Idle?
  {
    s.(outcomes := s.outcomes + [Outcome(s.phase.offset, Incarnation(s), result)], phase := Done(s.phase.offset))
  }

  /** One step; a step that is not enabled changes nothing. */
  function Step(cfg: Config, s: State, a: Action): State {
    if !Enabled(cfg, s, a) then s else
    match a
    case Fetch =>
      s.(position := s.position + 1,
         phase := if cfg.topic[s.position].Malformed? then Rejecting(s.position, SchemaInvalid)
                  else Fetched(s.position))
    case Correlate(now) =>
      var alert := cfg.topic[s.phase.offset].alert;
      s.(windows := C.Step(cfg.windowSeconds, s.windows, alert, now),
         lives := s.lives[..Incarnation(s)] + [Current(s) + [C.Arrival(alert, now)]],
         phase := Publishing(s.phase.offset, C.IncidentOf(cfg.windowSeconds, s.windows, alert, now), 0))
    case Attempt(acknowledged) =>
      if acknowledged then Report(s, Published(s.phase.incident))
      else if s.phase.failures + 1 < Attempts(cfg) then s.(phase := s.phase.(failures := s.phase.failures + 1))
      else s.(phase := Rejecting(s.phase.offset, PublishFailed))
    case SendToDlq(acknowledged) =>
      Report(s, if acknowledged then DeadLettered(s.phase.reason) else DlqFailed(s.phase.reason))
    case Commit =>
      s.(committed := s.position, phase := Idle)
    case Crash =>
      s.(position := s.committed, phase := Idle, windows := map[], lives := s.lives + [[]],
         crashedAt := if s.phase.Idle? then s.crashedAt else s.crashedAt + [s.phase.offset])
  }

  function Exec(cfg: Config, s: State, actions: seq<Action>): State {
    if actions == [] then s
    else Step(cfg, Exec(cfg, s, actions[..|actions| - 1]), actions[|actions| - 1])
  }

  // ----- Counting -----

  function OutcomesOf(outcomes: seq<Outcome>, offset: nat): nat {
    if outcomes == [] then 0
    else OutcomesOf(outcomes[..|outcomes| - 1], offset)
         + (if outcomes[|outcomes| - 1].offset == offset then 1 else 0)
  }

  function CrashesAt(crashedAt: seq<nat>, offset: nat): nat {
    if crashedAt == [] then 0
    else CrashesAt(crashedAt[..|crashedAt| - 1], offset)
         + (if crashedAt[|crashedAt| - 1] == offset then 1 else 0)
  }

  // ----- What every step keeps -----

  /** Where the process stands between the broker's committed offset and its own. */
  ghost predicate ControlInv(cfg: Config, s: State) {
    && |s.lives| > 0
    && s.committed <= |cfg.topic|
    && (s.phase.Idle? ==> s.position == s.committed)
    && (!s.phase.Idle? ==> s.phase.offset == s.committed && s.position == s.committed + 1 <= |cfg.topic|)
    && (s.phase.Fetched? ==> !cfg.topic[s.phase.offset].Malformed?)
    && (s.phase.Publishing? ==> cfg.topic[s.phase.offset].Parsed?)
    && (s.phase.Rejecting? ==> Rejectable(cfg.topic[s.phase.offset], s.phase.reason))
    && (s.phase.Done? ==> !cfg.topic[s.phase.offset].Unprocessable?)
    && (forall o | o in s.outcomes :: OutcomeFits(cfg, s, o))
  }

  ghost predicate OutcomeFits(cfg: Config, s: State, o: Outcome) {
    && o.offset <= s.committed && o.offset < |cfg.topic|
    && o.incarnation < |s.lives|
    && match o.result
       case Published(_) => cfg.topic[o.offset].Parsed?
       case DeadLettered(reason) => Rejectable(cfg.topic[o.offset], reason)
       case DlqFailed(reason) => Rejectable(cfg.topic[o.offset], reason)
  }

  ghost predicate Rejectable(m: Message, reason: Reason) {
    match reason
    case SchemaInvalid => m.Malformed?
    case PublishFailed => m.Parsed?
  }

  /** How many outcomes an offset may have by now. */
  function Allowance(s: State, offset: nat): nat {
    CrashesAt(s.crashedAt, offset)
    + (if offset < s.committed || (s.phase.Done? && s.phase.offset == offset) then 1 else 0)
  }

  ghost predicate CountInv(cfg: Config, s: State, offset: nat) {
    && OutcomesOf(s.outcomes, offset) <= Allowance(s, offset)
    && (offset < s.committed || (s.phase.Done? && s.phase.offset == offset) ==>
          OutcomesOf(s.outcomes, offset) > 0)
    && (offset < s.committed && offset < |cfg.topic| ==> !cfg.topic[offset].Unprocessable?)
  }

  lemma CountAppend(outcomes: seq<Outcome>, o: Outcome, offset: nat)
    ensures OutcomesOf(outcomes + [o], offset)
         == OutcomesOf(outcomes, offset) + (if o.offset == offset then 1 else 0)
  {
    assert (outcomes + [o])[..|outcomes|] == outcomes;
  }

  lemma CrashAppend(crashedAt: seq<nat>, at: nat, offset: nat)
    ensures CrashesAt(crashedAt + [at], offset)
         == CrashesAt(crashedAt, offset) + (if at == offset then 1 else 0)
  {
    assert (crashedAt + [at])[..|crashedAt|] == crashedAt;
  }

  lemma StepKeepsControl(cfg: Config, s: State, a: Action)
    requires ControlInv(cfg, s)
    ensures ControlInv(cfg, Step(cfg, s, a))
  {}

  lemma StepKeepsCount(cfg: Config, s: State, a: Action, offset: nat)
    requires ControlInv(cfg, s) && CountInv(cfg, s, offset)
    ensures CountInv(cfg, Step(cfg, s, a), offset)
  {
    if Enabled(cfg, s, a) {
      match a {
        case Crash =>
          if !s.phase.Idle? {
            CrashAppend(s.crashedAt, s.phase.offset, offset);
          }
        case SendToDlq(acknowledged) =>
          ReportKeepsCount(cfg, s, if acknowledged then DeadLettered(s.phase.reason) else DlqFailed(s.phase.reason),
                           offset);
        case Attempt(acknowledged) =>
          if acknowledged {
            ReportKeepsCount(cfg, s, Published(s.phase.incident), offset);
          }
        case _ =>
      }
    }
  }

  lemma ReportKeepsCount(cfg: Config, s: State, result: Result, offset: nat)
    requires ControlInv(cfg, s) && CountInv(cfg, s, offset) && !s.phase.Idle? && !s.phase.Done?
    ensures CountInv(cfg, Report(s, result), offset)
  {
    CountAppend(s.outcomes, Outcome(s.phase.offset, Incarnation(s), result), offset);
  }

  lemma {:induction false} ExecKeepsControl(cfg: Config, actions: seq<Action>)
    ensures ControlInv(cfg, Exec(cfg, INITIAL, actions))
  {
    if actions != [] {
      ExecKeepsControl(cfg, actions[..|actions| - 1]);
      StepKeepsControl(cfg, Exec(cfg, INITIAL, actions[..|actions| - 1]), actions[|actions| - 1]);
    }
  }

  lemma {:induction false} ExecKeepsCount(cfg: Config, actions: seq<Action>, offset: nat)
    ensures CountInv(cfg, Exec(cfg, INITIAL, actions), offset)
  {
    if actions != [] {
      ExecKeepsControl(cfg, actions[..|actions| - 1]);
      ExecKeepsCount(cfg, actions[..|actions| - 1], offset);
      StepKeepsCount(cfg, Exec(cfg, INITIAL, actions[..|actions| - 1]), actions[|actions| - 1], offset);
    }
  }

  // ----- What the correlator's memory means -----

  /** The incident is what the correlator, started fresh in that incarnation, says of its
      i-th arrival, which is the given alert. */
  ghost predicate IncidentHere(windowSeconds: nat, life: C.History, i: nat, alert: C.Alert, incident: C.Incident) {
    i < |life| && life[i].alert == alert && incident == C.IncidentAt(windowSeconds, life, i)
  }

  ghost predicate Explained(windowSeconds: nat, lives: seq<C.History>, incarnation: nat, alert: C.Alert,
                            incident: C.Incident) {
    incarnation < |lives| && exists i: nat :: IncidentHere(windowSeconds, lives[incarnation], i, alert, incident)
  }

  ghost predicate WindowsInv(cfg: Config, s: State) {
    s.windows == C.Run(cfg.windowSeconds, Current(s))
  }

  ghost predicate PhaseInv(cfg: Config, s: State) {
    s.phase.Publishing? && s.phase.offset < |cfg.topic| && cfg.topic[s.phase.offset].Parsed? ==>
      Explained(cfg.windowSeconds, s.lives, Incarnation(s), cfg.topic[s.phase.offset].alert, s.phase.incident)
  }

  ghost predicate OutcomesInv(cfg: Config, s: State) {
    forall o | o in s.outcomes :: OutcomeExplained(cfg, s.lives, o)
  }

  ghost predicate MemoryInv(cfg: Config, s: State) {
    WindowsInv(cfg, s) && PhaseInv(cfg, s) && OutcomesInv(cfg, s)
  }

  ghost predicate OutcomeExplained(cfg: Config, lives: seq<C.History>, o: Outcome) {
    o.result.Published? && o.offset < |cfg.topic| && cfg.topic[o.offset].Parsed? ==>
      Explained(cfg.windowSeconds, lives, o.incarnation, cfg.topic[o.offset].alert, o.result.incident)
  }

  lemma ExplainedLater(windowSeconds: nat, lives: seq<C.History>, lives': seq<C.History>, incarnation: nat,
                       alert: C.Alert, incident: C.Incident)
    requires Explained(windowSeconds, lives, incarnation, alert, incident)
    requires |lives| <= |lives'| && lives[incarnation] <= lives'[incarnation]
    ensures Explained(windowSeconds, lives', incarnation, alert, incident)
  {
    var i: nat :| IncidentHere(windowSeconds, lives[incarnation], i, alert, incident);
    assert lives[incarnation][..i] == lives'[incarnation][..i];
    assert IncidentHere(windowSeconds, lives'[incarnation], i, alert, incident);
  }

  lemma CorrelateExplains(windowSeconds: nat, life: C.History, alert: C.Alert, now: real)
    ensures var life' := life + [C.Arrival(alert, now)];
            && C.Run(windowSeconds, life') == C.Step(windowSeconds, C.Run(windowSeconds, life), alert, now)
            && IncidentHere(windowSeconds, life', |life|, alert,
                            C.IncidentOf(windowSeconds, C.Run(windowSeconds, life), alert, now))
  {
    assert (life + [C.Arrival(alert, now)])[..|life|] == life;
  }

  lemma CorrelateKeepsMemory(cfg: Config, s: State, now: real)
    requires ControlInv(cfg, s) && MemoryInv(cfg, s) && Enabled(cfg, s, Correlate(now))
    ensures MemoryInv(cfg, Step(cfg, s, Correlate(now)))
  {
    CorrelateRemembers(cfg, s, now);
    CorrelateKeepsOutcomes(cfg, s, now);
  }

  lemma CorrelateKeepsOutcomes(cfg: Config, s: State, now: real)
    requires ControlInv(cfg, s) && OutcomesInv(cfg, s) && Enabled(cfg, s, Correlate(now))
    ensures OutcomesInv(cfg, Step(cfg, s, Correlate(now)))
  {
    var s' := Step(cfg, s, Correlate(now));
    LivesGrow(s, now, cfg.topic[s.phase.offset].alert, s'.lives);
    OutcomesExplainedLater(cfg, s, s'.lives);
  }

  lemma LivesGrow(s: State, now: real, alert: C.Alert, lives': seq<C.History>)
    requires s.lives != []
    requires lives' == s.lives[..Incarnation(s)] + [Current(s) + [C.Arrival(alert, now)]]
    ensures |lives'| == |s.lives| && forall k | 0 <= k < |s.lives| :: s.lives[k] <= lives'[k]
  {}

  lemma CorrelateRemembers(cfg: Config, s: State, now: real)
    requires ControlInv(cfg, s) && WindowsInv(cfg, s) && Enabled(cfg, s, Correlate(now))
    ensures WindowsInv(cfg, Step(cfg, s, Correlate(now)))
    ensures PhaseInv(cfg, Step(cfg, s, Correlate(now)))
  {
    Remembers(cfg, s, now, cfg.topic[s.phase.offset].alert, Step(cfg, s, Correlate(now)));
  }

  lemma Remembers(cfg: Config, s: State, now: real, alert: C.Alert, s': State)
    requires s.lives != [] && WindowsInv(cfg, s)
    requires s'.windows == C.Step(cfg.windowSeconds, s.windows, alert, now)
    requires s'.lives == s.lives[..Incarnation(s)] + [Current(s) + [C.Arrival(alert, now)]]
    requires s'.phase.Publishing?
    requires s'.phase.incident == C.IncidentOf(cfg.windowSeconds, s.windows, alert, now)
    requires s'.phase.offset < |cfg.topic| && cfg.topic[s'.phase.offset] == Parsed(alert)
    ensures WindowsInv(cfg, s') && PhaseInv(cfg, s')
  {
    var life := Current(s) + [C.Arrival(alert, now)];
    assert Current(s') == life && Incarnation(s') == Incarnation(s);
    CorrelateExplains(cfg.windowSeconds, Current(s), alert, now);
    assert IncidentHere(cfg.windowSeconds, s'.lives[Incarnation(s')], |Current(s)|, alert, s'.phase.incident);
  }

  lemma CrashKeepsMemory(cfg: Config, s: State)
    requires ControlInv(cfg, s) && MemoryInv(cfg, s)
    ensures MemoryInv(cfg, Step(cfg, s, Crash))
  {
    assert Current(Step(cfg, s, Crash)) == [];
    OutcomesExplainedLater(cfg, s, Step(cfg, s, Crash).lives);
  }

  lemma ReportKeepsMemory(cfg: Config, s: State, result: Result)
    requires MemoryInv(cfg, s) && !s.phase.Idle?
    requires result.Published? ==> s.phase.Publishing? && result.incident == s.phase.incident
    ensures MemoryInv(cfg, Report(s, result))
  {
    var o := Outcome(s.phase.offset, Incarnation(s), result);
    assert OutcomeExplained(cfg, s.lives, o);
    SameMemory(cfg, s, Report(s, result));
  }

  lemma StepKeepsMemory(cfg: Config, s: State, a: Action)
    requires ControlInv(cfg, s) && MemoryInv(cfg, s)
    ensures MemoryInv(cfg, Step(cfg, s, a))
  {
    if Enabled(cfg, s, a) {
      match a {
        case Correlate(now) => CorrelateKeepsMemory(cfg, s, now);
        case Crash => CrashKeepsMemory(cfg, s);
        case Attempt(acknowledged) =>
          if acknowledged {
            ReportKeepsMemory(cfg, s, Published(s.phase.incident));
          } else {
            SameMemory(cfg, s, Step(cfg, s, a));
          }
        case SendToDlq(acknowledged) =>
          ReportKeepsMemory(cfg, s, if acknowledged then DeadLettered(s.phase.reason) else DlqFailed(s.phase.reason));
        case Fetch => SameMemory(cfg, s, Step(cfg, s, a));
        case Commit => SameMemory(cfg, s, Step(cfg, s, a));
      }
    }
  }

  lemma OutcomesExplainedLater(cfg: Config, s: State, lives': seq<C.History>)
    requires ControlInv(cfg, s) && OutcomesInv(cfg, s) && |s.lives| <= |lives'|
    requires forall k | 0 <= k < |s.lives| :: s.lives[k] <= lives'[k]
    ensures forall o | o in s.outcomes :: OutcomeExplained(cfg, lives', o)
  {
    forall o | o in s.outcomes && o.result.Published? ensures OutcomeExplained(cfg, lives', o) {
      assert OutcomeFits(cfg, s, o) && OutcomeExplained(cfg, s.lives, o);
      ExplainedLater(cfg.windowSeconds, s.lives, lives', o.incarnation, cfg.topic[o.offset].alert, o.result.incident);
    }
  }

  lemma SameMemory(cfg: Config, s: State, s': State)
    requires MemoryInv(cfg, s)
    requires s'.windows == s.windows && s'.lives == s.lives
    requires s'.phase.Publishing? ==>
               s.phase.Publishing? && s'.phase.offset == s.phase.offset && s'.phase.incident == s.phase.incident
    requires forall o | o in s'.outcomes :: OutcomeExplained(cfg, s.lives, o)
    ensures MemoryInv(cfg, s')
  {
    assert Current(s') == Current(s) && Incarnation(s') == Incarnation(s);
  }

  lemma {:induction false} ExecKeepsMemory(cfg: Config, actions: seq<Action>)
    ensures MemoryInv(cfg, Exec(cfg, INITIAL, actions))
  {
    if actions == [] {
      assert Current(INITIAL) == [];
    } else {
      ExecKeepsControl(cfg, actions[..|actions| - 1]);
      ExecKeepsMemory(cfg, actions[..|actions| - 1]);
      StepKeepsMemory(cfg, Exec(cfg, INITIAL, actions[..|actions| - 1]), actions[|actions| - 1]);
    }
  }

  // ----- What every run guarantees -----

  /** Whatever the schedule of failures and crashes: every committed offset has an outcome,
      only the first uncommitted offset can have any beyond that, an offset has at most one
      outcome more than the crashes that hit it in flight, and the commit never passes a
      message whose handling raises. */
  lemma CrashSafeAccounting(cfg: Config, actions: seq<Action>, offset: nat)
    ensures var s := Exec(cfg, INITIAL, actions);
            && (offset < s.committed ==> OutcomesOf(s.outcomes, offset) > 0)
            && (offset > s.committed ==> OutcomesOf(s.outcomes, offset) == 0)
            && OutcomesOf(s.outcomes, offset) <= 1 + CrashesAt(s.crashedAt, offset)
            && (offset < s.committed ==> offset < |cfg.topic| && !cfg.topic[offset].Unprocessable?)
  {
    ExecKeepsControl(cfg, actions);
    ExecKeepsCount(cfg, actions, offset);
    var s := Exec(cfg, INITIAL, actions);
    NoOutcomeBeyond(cfg, s, s.outcomes, offset);
  }

  lemma {:induction false} NoOutcomeBeyond(cfg: Config, s: State, outcomes: seq<Outcome>, offset: nat)
    requires forall o | o in outcomes :: OutcomeFits(cfg, s, o)
    ensures offset > s.committed ==> OutcomesOf(outcomes, offset) == 0
  {
    if outcomes != [] {
      assert outcomes[|outcomes| - 1] in outcomes;
      NoOutcomeBeyond(cfg, s, outcomes[..|outcomes| - 1], offset);
    }
  }

  /** Every outcome fits its message, and every published incident is the one a correlator
      that saw only its own incarnation's arrivals makes of that message; so all alerts of a
      published cascade were processed in one incarnation. */
  lemma OutcomesAreExplained(cfg: Config, actions: seq<Action>, o: Outcome)
    requires o in Exec(cfg, INITIAL, actions).outcomes
    ensures o.offset < |cfg.topic|
    ensures o.result.Published? || Rejectable(cfg.topic[o.offset], o.result.reason)
    ensures o.result.Published? ==>
              var lives := Exec(cfg, INITIAL, actions).lives;
              && cfg.topic[o.offset].Parsed? && o.incarnation < |lives|
              && exists i: nat ::
                   && IncidentHere(cfg.windowSeconds, lives[o.incarnation], i, cfg.topic[o.offset].alert,
                                   o.result.incident)
                   && forall r | r in C.AlertsAt(cfg.windowSeconds, lives[o.incarnation], i) ::
                        C.Arrived(lives[o.incarnation][..i + 1], r)
  {
    ExecKeepsControl(cfg, actions);
    ExecKeepsMemory(cfg, actions);
    var s := Exec(cfg, INITIAL, actions);
    assert OutcomeFits(cfg, s, o) && OutcomeExplained(cfg, s.lives, o);
    if o.result.Published? {
      var life := s.lives[o.incarnation];
      var i: nat :| IncidentHere(cfg.windowSeconds, life, i, cfg.topic[o.offset].alert, o.result.incident);
      forall r | r in C.AlertsAt(cfg.windowSeconds, life, i) ensures C.Arrived(life[..i + 1], r) {
        C.AlertsArrived(cfg.windowSeconds, life, i, r);
      }
    }
  }

  // ----- What one incarnation sees -----

  /** The alerts of the parsed records at offsets from up to, not including, to. */
  function ParsedAlerts(topic: seq<Message>, from: nat, to: nat): seq<C.Alert>
    requires to <= |topic|
  {
    if to <= from then []
    else ParsedAlerts(topic, from, to - 1) + if topic[to - 1].Parsed? then [topic[to - 1].alert] else []
  }

  function AlertsOf(life: C.History): (alerts: seq<C.Alert>)
    ensures |alerts| == |life|
  {
    seq(|life|, i requires 0 <= i < |life| => life[i].alert)
  }

  /** The life is a run of consecutive records: those between two offsets, each once, in order. */
  ghost predicate Consecutive(topic: seq<Message>, life: C.History, to: nat) {
    to <= |topic| && exists from: nat :: from <= to && AlertsOf(life) == ParsedAlerts(topic, from, to)
  }

  ghost predicate SomeRun(topic: seq<Message>, life: C.History) {
    exists to: nat :: Consecutive(topic, life, to)
  }

  /** The offset up to which the current incarnation has correlated. */
  function CorrelatedTo(s: State): nat {
    if s.phase.Fetched? then s.phase.offset else s.position
  }

  ghost predicate LivesInv(cfg: Config, s: State) {
    && Consecutive(cfg.topic, Current(s), CorrelatedTo(s))
    && forall i | 0 <= i < |s.lives| :: SomeRun(cfg.topic, s.lives[i])
  }

  lemma ConsecutiveOneMore(topic: seq<Message>, life: C.History, to: nat, now: real)
    requires Consecutive(topic, life, to) && to < |topic|
    ensures !topic[to].Parsed? ==> Consecutive(topic, life, to + 1)
    ensures topic[to].Parsed? ==> Consecutive(topic, life + [C.Arrival(topic[to].alert, now)], to + 1)
  {
    var from: nat :| from <= to && AlertsOf(life) == ParsedAlerts(topic, from, to);
    var alerts := ParsedAlerts(topic, from, to + 1);
    assert !topic[to].Parsed? ==> AlertsOf(life) == alerts;
    if topic[to].Parsed? {
      assert AlertsOf(life + [C.Arrival(topic[to].alert, now)]) == alerts;
    }
  }

  lemma CorrelateKeepsLives(cfg: Config, s: State, now: real)
    requires ControlInv(cfg, s) && LivesInv(cfg, s) && Enabled(cfg, s, Correlate(now))
    ensures LivesInv(cfg, Step(cfg, s, Correlate(now)))
  {
    var s' := Step(cfg, s, Correlate(now));
    ConsecutiveOneMore(cfg.topic, Current(s), s.phase.offset, now);
    assert Current(s') == Current(s) + [C.Arrival(cfg.topic[s.phase.offset].alert, now)];
    assert Consecutive(cfg.topic, Current(s'), CorrelatedTo(s'));
  }

  lemma CrashKeepsLives(cfg: Config, s: State)
    requires ControlInv(cfg, s) && LivesInv(cfg, s)
    ensures LivesInv(cfg, Step(cfg, s, Crash))
  {
    var s' := Step(cfg, s, Crash);
    assert Current(s') == [] && AlertsOf([]) == ParsedAlerts(cfg.topic, s.committed, s.committed);
    assert Consecutive(cfg.topic, Current(s'), CorrelatedTo(s'));
  }

  lemma StepKeepsLives(cfg: Config, s: State, a: Action)
    requires ControlInv(cfg, s) && LivesInv(cfg, s)
    ensures LivesInv(cfg, Step(cfg, s, a))
  {
    if Enabled(cfg, s, a) {
      match a {
        case Fetch => ConsecutiveOneMore(cfg.topic, Current(s), s.position, 0.0);
        case Correlate(now) => CorrelateKeepsLives(cfg, s, now);
        case Crash => CrashKeepsLives(cfg, s);
        case Attempt(_) =>
        case SendToDlq(_) =>
        case Commit =>
      }
    }
  }

  /** In every run, each incarnation's correlator has seen the parsed records between two
      offsets of the topic, each once and in order. */
  lemma {:induction false} LivesAreConsecutive(cfg: Config, actions: seq<Action>)
    ensures LivesInv(cfg, Exec(cfg, INITIAL, actions))
  {
    if actions == [] {
      assert AlertsOf([]) == ParsedAlerts(cfg.topic, 0, 0);
      assert Consecutive(cfg.topic, [], 0);
    } else {
      ExecKeepsControl(cfg, actions[..|actions| - 1]);
      LivesAreConsecutive(cfg, actions[..|actions| - 1]);
      StepKeepsLives(cfg, Exec(cfg, INITIAL, actions[..|actions| - 1]), actions[|actions| - 1]);
    }
  }

  // ----- What is lost -----

  /** Some delivery of the offset left it in the incidents topic or the dead-letter topic. */
  ghost predicate InATopic(s: State, offset: nat) {
    exists i :: 0 <= i < |s.outcomes| && s.outcomes[i].offset == offset && !s.outcomes[i].result.DlqFailed?
  }

  /** The step settles what became of this delivery of the offset. */
  predicate Settles(s: State, a: Action, offset: nat) {
    && !s.phase.Idle? && s.phase.offset == offset
    && ((s.phase.Publishing? && a == Attempt(true)) || (s.phase.Rejecting? && a.SendToDlq?))
  }

  /** Step k of the run settles a delivery of the offset. */
  ghost predicate SettlesAt(cfg: Config, actions: seq<Action>, k: nat, offset: nat) {
    k < |actions| && Settles(Exec(cfg, INITIAL, actions[..k]), actions[k], offset)
  }

  /** An outcome of the offset that is a failed dead-letter write (or, with lost false, is not). */
  ghost predicate HasOutcome(outcomes: seq<Outcome>, offset: nat, lost: bool) {
    exists i :: 0 <= i < |outcomes| && outcomes[i].offset == offset && outcomes[i].result.DlqFailed? == lost
  }

  lemma StepAddsOutcome(cfg: Config, s: State, a: Action, offset: nat, lost: bool)
    ensures HasOutcome(Step(cfg, s, a).outcomes, offset, lost) <==>
            HasOutcome(s.outcomes, offset, lost)
            || (Settles(s, a, offset) && (a == SendToDlq(false)) == lost)
  {
    var outcomes := Step(cfg, s, a).outcomes;
    assert outcomes == s.outcomes || outcomes == s.outcomes + [outcomes[|s.outcomes|]];
    if i :| 0 <= i < |s.outcomes| && s.outcomes[i].offset == offset && s.outcomes[i].result.DlqFailed? == lost {
      assert outcomes[i] == s.outcomes[i];
    }
    if Settles(s, a, offset) {
      assert outcomes[|s.outcomes|].offset == offset;
    }
  }

  /** A delivery of the offset was settled by a failed dead-letter write (or otherwise). */
  ghost predicate SomeSettled(cfg: Config, actions: seq<Action>, offset: nat, lost: bool) {
    exists k: nat :: SettlesAt(cfg, actions, k, offset) && (actions[k] == SendToDlq(false)) == lost
  }

  lemma SettledInPrefix(cfg: Config, before: seq<Action>, a: Action, k: nat, offset: nat)
    requires k < |before|
    ensures SettlesAt(cfg, before + [a], k, offset) <==> SettlesAt(cfg, before, k, offset)
  {
    assert (before + [a])[..k] == before[..k];
  }

  lemma SettledOneMore(cfg: Config, before: seq<Action>, a: Action, s: State, offset: nat, lost: bool)
    requires s == Exec(cfg, INITIAL, before)
    ensures SomeSettled(cfg, before + [a], offset, lost) <==>
            SomeSettled(cfg, before, offset, lost) || (Settles(s, a, offset) && (a == SendToDlq(false)) == lost)
  {
    var n := |before|;
    assert (before + [a])[..n] == before;
    assert SettlesAt(cfg, before + [a], n, offset) <==> Settles(s, a, offset);
    if k: nat :| SettlesAt(cfg, before, k, offset) && (before[k] == SendToDlq(false)) == lost {
      SettledInPrefix(cfg, before, a, k, offset);
      assert (before + [a])[k] == before[k];
    }
    if k: nat :| SettlesAt(cfg, before + [a], k, offset) && ((before + [a])[k] == SendToDlq(false)) == lost {
      if k < n {
        SettledInPrefix(cfg, before, a, k, offset);
      }
    }
  }

  /** The outcomes of an offset are those of the steps that settled its deliveries. */
  lemma {:induction false} OutcomesAreSettled(cfg: Config, actions: seq<Action>, offset: nat, lost: bool)
    ensures HasOutcome(Exec(cfg, INITIAL, actions).outcomes, offset, lost) <==> SomeSettled(cfg, actions, offset, lost)
  {
    if actions != [] {
      var n := |actions| - 1;
      var s := Exec(cfg, INITIAL, actions[..n]);
      assert actions == actions[..n] + [actions[n]];
      OutcomesAreSettled(cfg, actions[..n], offset, lost);
      StepAddsOutcome(cfg, s, actions[n], offset, lost);
      SettledOneMore(cfg, actions[..n], actions[n], s, offset, lost);
    }
  }

  lemma {:induction false} CountedOutcome(outcomes: seq<Outcome>, offset: nat)
    requires OutcomesOf(outcomes, offset) > 0
    ensures HasOutcome(outcomes, offset, true) || HasOutcome(outcomes, offset, false)
  {
    var n := |outcomes| - 1;
    if outcomes[n].offset != offset {
      CountedOutcome(outcomes[..n], offset);
      var i :| 0 <= i < n && outcomes[..n][i].offset == offset;
      assert outcomes[i] == outcomes[..n][i];
    } else {
      assert HasOutcome(outcomes, offset, outcomes[n].result.DlqFailed?);
    }
  }

  /** An offset is in no topic exactly when every delivery of it that was settled, was settled
      by a failed dead-letter write; for a committed one at least one such write failed. */
  lemma DiscardedExactlyWhenDlqFails(cfg: Config, actions: seq<Action>, offset: nat)
    ensures var s := Exec(cfg, INITIAL, actions);
            && (!InATopic(s, offset) <==>
                  forall k: nat | SettlesAt(cfg, actions, k, offset) :: actions[k] == SendToDlq(false))
            && (HasOutcome(s.outcomes, offset, true) <==>
                  exists k: nat :: SettlesAt(cfg, actions, k, offset) && actions[k] == SendToDlq(false))
            && (offset < s.committed ==> exists k: nat :: SettlesAt(cfg, actions, k, offset))
  {
    var s := Exec(cfg, INITIAL, actions);
    OutcomesAreSettled(cfg, actions, offset, false);
    OutcomesAreSettled(cfg, actions, offset, true);
    assert InATopic(s, offset) <==> HasOutcome(s.outcomes, offset, false);
    if offset < s.committed {
      CrashSafeAccounting(cfg, actions, offset);
      CountedOutcome(s.outcomes, offset);
    }
  }

  /** The commit is final: whatever happens later, crashes included, a committed offset is not
      processed again and gets no further outcome. */
  lemma {:induction false} CommittedIsFinal(cfg: Config, actions: seq<Action>, more: seq<Action>, offset: nat)
    requires offset < Exec(cfg, INITIAL, actions).committed
    ensures var s, later := Exec(cfg, INITIAL, actions), Exec(cfg, INITIAL, actions + more);
            && later.committed >= s.committed
            && (InATopic(later, offset) <==> InATopic(s, offset))
            && OutcomesOf(later.outcomes, offset) == OutcomesOf(s.outcomes, offset)
  {
    if more == [] {
      assert actions + more == actions;
    } else {
      var n := |more| - 1;
      CommittedIsFinal(cfg, actions, more[..n], offset);
      assert actions + more == actions + more[..n] + [more[n]];
      ExecSnoc(cfg, actions + more[..n], more[n]);
      ExecKeepsControl(cfg, actions + more[..n]);
      StepLeavesCommitted(cfg, Exec(cfg, INITIAL, actions + more[..n]), more[n], offset);
    }
  }

  lemma StepLeavesCommitted(cfg: Config, s: State, a: Action, offset: nat)
    requires ControlInv(cfg, s) && offset < s.committed
    ensures var later := Step(cfg, s, a);
            && later.committed >= s.committed
            && (InATopic(later, offset) <==> InATopic(s, offset))
            && OutcomesOf(later.outcomes, offset) == OutcomesOf(s.outcomes, offset)
  {
    var outcomes := Step(cfg, s, a).outcomes;
    StepAddsOutcome(cfg, s, a, offset, false);
    assert HasOutcome(s.outcomes, offset, false) <==> InATopic(s, offset);
    assert HasOutcome(outcomes, offset, false) <==> InATopic(Step(cfg, s, a), offset);
    if outcomes != s.outcomes {
      CountAppend(s.outcomes, outcomes[|s.outcomes|], offset);
    }
  }

  /** The dead-letter queue is no guarantee: in any run in which the last attempt is due for an
      offset that no earlier delivery left in a topic, failing sends commit the offset and no
      continuation brings it into a topic. */
  lemma CommittedYetUndelivered(cfg: Config, actions: seq<Action>, more: seq<Action>)
    requires var s := Exec(cfg, INITIAL, actions);
             s.phase.Publishing? && s.phase.failures + 1 >= Attempts(cfg) && !InATopic(s, s.phase.offset)
    ensures var offset := Exec(cfg, INITIAL, actions).phase.offset;
            var later := Exec(cfg, INITIAL, actions + [Attempt(false)] + [SendToDlq(false)] + [Commit] + more);
            offset < later.committed && !InATopic(later, offset)
  {
    var s := Exec(cfg, INITIAL, actions);
    var offset := s.phase.offset;
    var run := actions + [Attempt(false)] + [SendToDlq(false)] + [Commit];
    ExecKeepsControl(cfg, actions);
    ExecSnoc(cfg, actions, Attempt(false));
    ExecSnoc(cfg, actions + [Attempt(false)], SendToDlq(false));
    ExecSnoc(cfg, actions + [Attempt(false)] + [SendToDlq(false)], Commit);
    var failed := Step(cfg, s, Attempt(false));
    var refused := Step(cfg, failed, SendToDlq(false));
    assert failed.outcomes == s.outcomes && refused.phase.Done?;
    StepAddsOutcome(cfg, failed, SendToDlq(false), offset, false);
    assert HasOutcome(s.outcomes, offset, false) <==> InATopic(s, offset);
    assert HasOutcome(refused.outcomes, offset, false) <==> InATopic(Exec(cfg, INITIAL, run), offset);
    CommittedIsFinal(cfg, run, more, offset);
  }

  lemma ExecSnoc(cfg: Config, actions: seq<Action>, a: Action)
    ensures Exec(cfg, INITIAL, actions + [a]) == Step(cfg, Exec(cfg, INITIAL, actions), a)
  {
    assert (actions + [a])[..|actions|] == actions;
  }

  // ----- The handler itself -----

  /** The broker acknowledges one of the first n attempts. */
  ghost predicate Acknowledged(acks: nat -> bool, n: nat) {
    exists k: nat | k < n :: acks(k)
  }

  /** The correlator's windows once the message has been handled. */
  function WindowsAfter(cfg: Config, windows: C.Windows, m: Message, now: real): C.Windows {
    if m.Parsed? then C.Step(cfg.windowSeconds, windows, m.alert, now) else windows
  }

  /** What becomes of a message: the correlator's incident for it, or a dead letter. */
  function ResultFor(cfg: Config, windows: C.Windows, m: Message, now: real, published: bool, dlqAck: bool): Result {
    if m.Parsed? && published then Published(C.IncidentOf(cfg.windowSeconds, windows, m.alert, now))
    else
      var reason := if m.Parsed? then PublishFailed else SchemaInvalid;
      if dlqAck then DeadLettered(reason) else DlqFailed(reason)
  }

  /** One message is published if it is an alert and one of at most maxRetries attempts is
      acknowledged, where none counts as one; else it becomes a dead letter, if that write
      succeeds, with a reason that tells which of the two failed. */
  lemma ResultExactly(cfg: Config, windows: C.Windows, m: Message, now: real, acks: nat -> bool, dlqAck: bool)
    ensures var attempts := if cfg.maxRetries >= 1 then cfg.maxRetries else 1;
            var published := m.Parsed? && exists k: nat :: k < attempts && acks(k);
            var result := ResultFor(cfg, windows, m, now, Acknowledged(acks, Attempts(cfg)), dlqAck);
            && (published ==> result == Published(C.IncidentOf(cfg.windowSeconds, windows, m.alert, now)))
            && (!published && dlqAck ==> result == DeadLettered(if m.Parsed? then PublishFailed else SchemaInvalid))
            && (!published && !dlqAck ==> result == DlqFailed(if m.Parsed? then PublishFailed else SchemaInvalid))
  {
    assert Acknowledged(acks, Attempts(cfg)) <==> exists k: nat :: k < Attempts(cfg) && acks(k);
  }

  /** More steps, none of them a crash. */
  ghost predicate Extends(t: seq<Action>, t': seq<Action>) {
    |t| <= |t'| && t'[..|t|] == t && forall i | |t| <= i < |t'| :: t'[i] != Crash
  }

  /** The sequential code of the handler. Every effect it has is one enabled protocol step,
      taken by Do, and trace lists the steps taken; a crash cuts the code between two. */
  class KafkaHandler {
    const cfg: Config
    var state: State
    var trace: seq<Action>

    /** The object is where its trace leads, so what holds of every run holds of it. (The run
        is a bound variable only to keep the solver from replaying it in every method.) */
    ghost predicate Valid()
      reads this
    {
      forall run | run == trace :: state == Exec(cfg, INITIAL, run)
    }

    lemma ValidIsReached()
      requires Valid()
      ensures state == Exec(cfg, INITIAL, trace) && state.lives != []
    {
      ExecKeepsControl(cfg, trace);
    }

    constructor (cfg: Config)
      ensures Valid() && this.cfg == cfg && state == INITIAL && trace == []
    {
      this.cfg := cfg;
      state := INITIAL;
      trace := [];
    }

    method Do(a: Action)
      requires Valid() && Enabled(cfg, state, a)
      modifies this
      ensures Valid() && trace == old(trace) + [a]
      ensures state == Step(cfg, old(state), a)
    {
      ExecSnoc(cfg, trace, a);
      state := Step(cfg, state, a);
      trace := trace + [a];
    }

    /** Restart after a crash, wherever the code was. */
    method Restart()
      requires Valid()
      modifies this
      ensures Valid() && trace == old(trace) + [Crash] && state == Step(cfg, old(state), Crash)
    {
      Do(Crash);
    }

    /** Processes the message at the current position. acks(k) says whether the broker
        acknowledges publish attempt k. When it raises, the offset stays uncommitted. */
    method ProcessMessage(now: real, acks: nat -> bool, dlqAck: bool) returns (raised: bool)
      requires Valid() && state.phase.Idle? && state.position < |cfg.topic|
      modifies this
      ensures Valid() && Extends(old(trace), trace)
      ensures raised <==> cfg.topic[old(state).position].Unprocessable?
      ensures Incarnation(state) == Incarnation(old(state))
      ensures state.windows == WindowsAfter(cfg, old(state).windows, cfg.topic[old(state).position], now)
      ensures raised ==> state.committed == old(state).committed && state.outcomes == old(state).outcomes
      ensures !raised ==>
                && state.phase.Idle? && state.committed == state.position == old(state).position + 1
                && state.outcomes == old(state).outcomes
                     + [Outcome(old(state).position, Incarnation(old(state)),
                                ResultFor(cfg, old(state).windows, cfg.topic[old(state).position], now,
                                          Acknowledged(acks, Attempts(cfg)), dlqAck))]
    {
      Next();
      if cfg.topic[state.phase.offset].Unprocessable? {
        return true;
      }
      if state.phase.Rejecting? {
        SendToDlq(dlqAck);
      } else {
        CorrelateAndPublish(now, acks, dlqAck);
      }
      CommitOffset();
      raised := false;
    }

    /** Correlates an alert and publishes the incident, or else the alert as a dead letter. */
    method CorrelateAndPublish(now: real, acks: nat -> bool, dlqAck: bool)
      requires Valid() && Enabled(cfg, state, Correlate(now))
      modifies this
      ensures Valid() && Extends(old(trace), trace)
      ensures state.phase == Done(old(state).phase.offset) && |state.lives| == |old(state).lives|
      ensures state.position == old(state).position && state.committed == old(state).committed
      ensures var m := cfg.topic[old(state).phase.offset];
              && state.windows == WindowsAfter(cfg, old(state).windows, m, now)
              && state.outcomes == old(state).outcomes
                   + [Outcome(old(state).phase.offset, Incarnation(old(state)),
                              ResultFor(cfg, old(state).windows, m, now, Acknowledged(acks, Attempts(cfg)), dlqAck))]
    {
      AddAlert(now);
      PublishWithRetry(acks);
      if state.phase.Rejecting? {
        SendToDlq(dlqAck);
      }
    }

    method CommitOffset()
      requires Valid() && state.phase.Done?
      modifies this
      ensures Valid() && trace == old(trace) + [Commit]
      ensures state == old(state).(committed := old(state).position, phase := Idle)
    {
      Do(Commit);
    }

    method Next()
      requires Valid() && state.phase.Idle? && state.position < |cfg.topic|
      modifies this
      ensures Valid() && trace == old(trace) + [Fetch]
      ensures state == old(state).(position := old(state).position + 1,
                                   phase := if cfg.topic[old(state).position].Malformed?
                                            then Rejecting(old(state).position, SchemaInvalid)
                                            else Fetched(old(state).position))
    {
      Do(Fetch);
    }

    method AddAlert(now: real)
      requires Valid() && Enabled(cfg, state, Correlate(now))
      modifies this
      ensures Valid() && trace == old(trace) + [Correlate(now)]
      ensures state.position == old(state).position && state.committed == old(state).committed
      ensures state.outcomes == old(state).outcomes && |state.lives| == |old(state).lives|
      ensures var alert := cfg.topic[old(state).phase.offset].alert;
              && state.windows == C.Step(cfg.windowSeconds, old(state).windows, alert, now)
              && state.phase == Publishing(old(state).phase.offset,
                                           C.IncidentOf(cfg.windowSeconds, old(state).windows, alert, now), 0)
    {
      ValidIsReached();
      Do(Correlate(now));
    }

    method SendToDlq(acknowledged: bool)
      requires Valid() && state.phase.Rejecting?
      modifies this
      ensures Valid() && trace == old(trace) + [Action.SendToDlq(acknowledged)]
      ensures state == old(state).(
                phase := Done(old(state).phase.offset),
                outcomes := old(state).outcomes
                  + [Outcome(old(state).phase.offset, Incarnation(old(state)),
                             if acknowledged then DeadLettered(old(state).phase.reason)
                             else DlqFailed(old(state).phase.reason))])
    {
      Do(Action.SendToDlq(acknowledged));
    }

    /** Attempts until the first acknowledgement, at most Attempts(cfg) times. */
    method PublishWithRetry(acks: nat -> bool)
      requires Valid() && state.phase.Publishing? && state.phase.failures == 0
      modifies this
      ensures Valid() && Extends(old(trace), trace)
      ensures state ==
              if Acknowledged(acks, Attempts(cfg)) then Report(old(state), Published(old(state).phase.incident))
                       else old(state).(phase := Rejecting(old(state).phase.offset, PublishFailed))
    {
      var attempt := 0;
      while state.phase.Publishing?
        invariant Valid() && Extends(old(trace), trace)
        invariant 0 <= attempt <= Attempts(cfg)
        invariant state.phase.Publishing? ==>
                    && attempt < Attempts(cfg) && !Acknowledged(acks, attempt)
                    && state == old(state).(phase := old(state).phase.(failures := attempt))
        invariant state.phase.Rejecting? ==>
                    && !Acknowledged(acks, Attempts(cfg))
                    && state == old(state).(phase := Rejecting(old(state).phase.offset, PublishFailed))
        invariant !state.phase.Publishing? && !state.phase.Rejecting? ==>
                    && Acknowledged(acks, Attempts(cfg))
                    && state == Report(old(state), Published(old(state).phase.incident))
        decreases state.phase.Publishing?, Attempts(cfg) - attempt
      {
        Do(Attempt(acks(attempt)));
        attempt := attempt + 1;
      }
    }
  }
}
