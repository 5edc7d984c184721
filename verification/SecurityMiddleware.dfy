/** The security middleware's consumer: sanitize, hand to the clean topic, commit, as a
    protocol over one partition that may crash or fail between any two steps. Unlike the
    alert correlator's consumer it moves on past an offset it could not process. */
module SecurityMiddleware {

  /** A record of the raw topic: corrupt bytes, JSON that fails schema validation, no value at
      all, or a log. */
  datatype Message = Corrupt | Invalid | NoValue | Valid(text: string)

  /** The two detectors' sanitizers, chained: the second sees what the first left. */
  datatype Config = Config(topic: seq<Message>, withoutInjection: string -> string, withoutPii: string -> string)

  datatype Phase =
    | Idle
    | Handling(offset: nat)
    | Publishing(offset: nat, failures: nat)
    | ToCommit(offset: nat)

  /** What can be observed of the process. Handed is an accepted produce call, which only
      enqueues; Failed is a message given up without a commit. */
  datatype Event =
    | Polled(offset: nat)
    | Handed(offset: nat, text: string)
    | Failed(offset: nat)
    | Committed(offset: nat)
    | Restarted

  /** buffer holds the clean messages the client has enqueued and neither delivered nor given
      up. It gives up a message silently, for nobody asks for delivery reports. */
  datatype State = State(committed: nat, position: nat, phase: Phase, log: seq<Event>,
                         buffer: set<nat>, delivered: set<nat>)

  datatype Action =
    | Poll
    | Detect
    | Raise
    | Attempt(accepted: bool)
    | Commit(acknowledged: bool)
    | Deliver(offset: nat)
    | Drop(offset: nat)
    | Crash

  const INITIAL := State(0, 0, Idle, [], {}, {})

  const ATTEMPTS := 2

  /** Committed unprocessed, for redelivery would not mend it. */
  predicate Malformed(m: Message) {
    m.Corrupt? || m.Invalid?
  }

  /** Handling a record without a value always raises, and handling a log may. */
  predicate Enabled(cfg: Config, s: State, a: Action) {
    match a
    case Poll => s.phase.Idle? && s.position < |cfg.topic|
    case Detect => s.phase.Handling? && s.phase.offset < |cfg.topic| && !cfg.topic[s.phase.offset].NoValue?
    case Raise => s.phase.Handling? && s.phase.offset < |cfg.topic| && !Malformed(cfg.topic[s.phase.offset])
    case Attempt(_) => s.phase.Publishing? && s.phase.offset < |cfg.topic| && cfg.topic[s.phase.offset].Valid?
    case Commit(_) => s.phase.ToCommit?
    case Deliver(offset) => offset in s.buffer
    case Drop(offset) => offset in s.buffer
    case Crash => true
  }

  function Clean(cfg: Config, text: string): string {
    cfg.withoutPii(cfg.withoutInjection(text))
  }

  /** One step; a step that is not enabled changes nothing. */
  function Step(cfg: Config, s: State, a: Action): State {
    if !Enabled(cfg, s, a) then s else
    match a
    case Poll =>
      s.(position := s.position + 1, phase := Handling(s.position), log := s.log + [Polled(s.position)])
    case Detect =>
      s.(phase := if cfg.topic[s.phase.offset].Valid? then Publishing(s.phase.offset, 0) else ToCommit(s.phase.offset))
    case Raise => s.(phase := Idle, log := s.log + [Failed(s.phase.offset)])
    case Attempt(accepted) =>
      var o := s.phase.offset;
      if accepted then
        s.(phase := ToCommit(o), log := s.log + [Handed(o, Clean(cfg, cfg.topic[o].text))], buffer := s.buffer + {o})
      else if s.phase.failures + 1 < ATTEMPTS then s.(phase := Publishing(o, s.phase.failures + 1))
      else s.(phase := Idle, log := s.log + [Failed(o)])
    case Commit(acknowledged) =>
      var o := s.phase.offset;
      if acknowledged then s.(committed := o + 1, phase := Idle, log := s.log + [Committed(o)]) else s.(phase := Idle)
    case Deliver(offset) => s.(buffer := s.buffer - {offset}, delivered := s.delivered + {offset})
    case Drop(offset) => s.(buffer := s.buffer - {offset})
    case Crash => s.(position := s.committed, phase := Idle, log := s.log + [Restarted], buffer := {})
  }

  function Exec(cfg: Config, s: State, actions: seq<Action>): State {
    if actions == [] then s
    else Step(cfg, Exec(cfg, s, actions[..|actions| - 1]), actions[|actions| - 1])
  }

  // ----- Reading the log -----

  /** Offsets handed to the clean topic. */
  function HandedOffsets(log: seq<Event>): set<nat> {
    if log == [] then {}
    else
      var e := log[|log| - 1];
      HandedOffsets(log[..|log| - 1]) + if e.Handed? then {e.offset} else {}
  }

  /** The failed offsets before an event that still count after it. */
  function StillFailed(failed: set<nat>, e: Event): set<nat> {
    if e.Restarted? then {} else if e.Failed? then failed + {e.offset} else failed
  }

  /** Offsets that failed since the last restart. */
  function FailedNow(log: seq<Event>): set<nat> {
    if log == [] then {} else StillFailed(FailedNow(log[..|log| - 1]), log[|log| - 1])
  }

  /** The failed offsets that an event overtakes. */
  function OvertakenBy(failed: set<nat>, e: Event): set<nat> {
    if e.Committed? then set o | o in failed && o < e.offset else {}
  }

  /** Offsets that failed and were overtaken by the commit of a later one before a restart. */
  function Overtaken(log: seq<Event>): set<nat> {
    if log == [] then {}
    else Overtaken(log[..|log| - 1]) + OvertakenBy(FailedNow(log[..|log| - 1]), log[|log| - 1])
  }

  function Polls(log: seq<Event>, offset: nat): nat {
    if log == [] then 0
    else Polls(log[..|log| - 1], offset) + if log[|log| - 1] == Polled(offset) then 1 else 0
  }

  lemma LogOneMore(log: seq<Event>, e: Event)
    ensures HandedOffsets(log + [e]) == HandedOffsets(log) + if e.Handed? then {e.offset} else {}
    ensures FailedNow(log + [e]) == StillFailed(FailedNow(log), e)
    ensures Overtaken(log + [e]) == Overtaken(log) + OvertakenBy(FailedNow(log), e)
  {
    assert (log + [e])[..|log|] == log;
  }

  ghost predicate HandedIn(log: seq<Event>, o: nat) {
    exists i :: 0 <= i < |log| && log[i].Handed? && log[i].offset == o
  }

  /** Event i is the failure of the offset, with no restart up to event n. */
  ghost predicate FailedAt(log: seq<Event>, o: nat, i: nat, n: nat) {
    i < n <= |log| && log[i] == Failed(o) && forall k | i < k < n :: log[k] != Restarted
  }

  /** And event j commits a later offset. */
  ghost predicate OvertakenAt(log: seq<Event>, o: nat, i: nat, j: nat) {
    j < |log| && FailedAt(log, o, i, j) && log[j].Committed? && o < log[j].offset
  }

  /** What the log says of an offset: handed over at some point, failed since the last restart,
      or overtaken by the commit of a later one before a restart. */
  lemma {:induction false} LogExactly(log: seq<Event>, o: nat)
    ensures o in HandedOffsets(log) <==> HandedIn(log, o)
    ensures o in FailedNow(log) <==> exists i: nat :: FailedAt(log, o, i, |log|)
    ensures o in Overtaken(log) <==> exists i: nat, j: nat :: OvertakenAt(log, o, i, j)
  {
    if log != [] {
      var front, e := log[..|log| - 1], log[|log| - 1];
      assert log == front + [e];
      LogExactly(front, o);
      LogOneMore(front, e);
      HandedOneMore(front, e, o);
      FailedOneMore(front, e, o, |log|);
      OvertakenOneMore(front, e, o);
    }
  }

  lemma HandedOneMore(log: seq<Event>, e: Event, o: nat)
    ensures HandedIn(log + [e], o) <==> HandedIn(log, o) || (e.Handed? && e.offset == o)
  {
    assert (log + [e])[|log|] == e;
    assert forall i | 0 <= i < |log| :: (log + [e])[i] == log[i];
  }

  lemma FailedOneMore(log: seq<Event>, e: Event, o: nat, n: nat)
    requires n == |log| + 1
    ensures (exists i: nat :: FailedAt(log + [e], o, i, n)) <==>
            e != Restarted && (e == Failed(o) || exists i: nat :: FailedAt(log, o, i, |log|))
  {
    var longer := log + [e];
    assert longer[|log|] == e && forall k | 0 <= k < |log| :: longer[k] == log[k];
    assert e == Failed(o) ==> FailedAt(longer, o, |log|, n);
    if i: nat :| FailedAt(longer, o, i, n) {
      assert i == |log| || FailedAt(log, o, i, |log|);
    }
    if i: nat :| e != Restarted && FailedAt(log, o, i, |log|) {
      assert FailedAt(longer, o, i, n);
    }
  }

  lemma OvertakenOneMore(log: seq<Event>, e: Event, o: nat)
    ensures (exists i: nat, j: nat :: OvertakenAt(log + [e], o, i, j)) <==>
            (exists i: nat, j: nat :: OvertakenAt(log, o, i, j))
            || (e.Committed? && o < e.offset && exists i: nat :: FailedAt(log, o, i, |log|))
  {
    var longer := log + [e];
    assert longer[|log|] == e && forall k | 0 <= k < |log| :: longer[k] == log[k];
    if i: nat, j: nat :| OvertakenAt(longer, o, i, j) {
      assert if j == |log| then FailedAt(log, o, i, |log|) else OvertakenAt(log, o, i, j);
    }
    if i: nat, j: nat :| OvertakenAt(log, o, i, j) {
      assert OvertakenAt(longer, o, i, j);
    }
    if i: nat :| e.Committed? && o < e.offset && FailedAt(log, o, i, |log|) {
      assert OvertakenAt(longer, o, i, |log|);
    }
  }

  // ----- What every step keeps -----

  /** Nothing is left to do for the offset but to commit it. */
  predicate Settled(cfg: Config, log: seq<Event>, o: nat) {
    (o < |cfg.topic| && Malformed(cfg.topic[o])) || o in HandedOffsets(log)
  }

  /** Where the process stands. */
  predicate ControlInv(cfg: Config, s: State) {
    && s.committed <= s.position <= |cfg.topic|
    && (!s.phase.Idle? ==> s.phase.offset + 1 == s.position && s.committed <= s.phase.offset)
    && (s.phase.Publishing? ==> cfg.topic[s.phase.offset].Valid? && s.phase.failures < ATTEMPTS)
    && (s.phase.ToCommit? ==> Settled(cfg, s.log, s.phase.offset))
  }

  predicate InFlight(s: State, o: nat) {
    !s.phase.Idle? && s.phase.offset == o
  }

  ghost predicate AccountInv(cfg: Config, s: State) {
    && (forall o: nat | o < s.committed :: Settled(cfg, s.log, o) || o in Overtaken(s.log))
    && (forall o | s.committed <= o < s.position && !InFlight(s, o) :: Settled(cfg, s.log, o) || o in FailedNow(s.log))
    && (forall o | o in FailedNow(s.log) :: o < s.position && !InFlight(s, o))
    && (forall o | o in FailedNow(s.log) :: o in Overtaken(s.log) <==> o < s.committed)
    && (forall o | o in Overtaken(s.log) :: o < s.committed)
  }

  ghost predicate Inv(cfg: Config, s: State) {
    ControlInv(cfg, s) && AccountInv(cfg, s)
  }

  lemma GiveUpInv(cfg: Config, s: State, next: State)
    requires Inv(cfg, s) && !s.phase.Idle?
    requires next == s.(phase := Idle, log := s.log + [Failed(s.phase.offset)])
    ensures Inv(cfg, next)
  {
    LogOneMore(s.log, Failed(s.phase.offset));
  }

  lemma HandInv(cfg: Config, s: State, text: string, next: State)
    requires Inv(cfg, s) && s.phase.Publishing?
    requires next == s.(phase := ToCommit(s.phase.offset), log := s.log + [Handed(s.phase.offset, text)],
                        buffer := s.buffer + {s.phase.offset})
    ensures Inv(cfg, next)
  {
    LogOneMore(s.log, Handed(s.phase.offset, text));
  }

  lemma CommitInv(cfg: Config, s: State, next: State)
    requires Inv(cfg, s) && s.phase.ToCommit?
    requires next == s.(committed := s.phase.offset + 1, phase := Idle, log := s.log + [Committed(s.phase.offset)])
    ensures Inv(cfg, next)
  {
    LogOneMore(s.log, Committed(s.phase.offset));
  }

  lemma CrashInv(cfg: Config, s: State, next: State)
    requires Inv(cfg, s)
    requires next == s.(position := s.committed, phase := Idle, log := s.log + [Restarted], buffer := {})
    ensures Inv(cfg, next)
  {
    LogOneMore(s.log, Restarted);
  }

  lemma PollInv(cfg: Config, s: State, next: State)
    requires Inv(cfg, s) && s.phase.Idle? && s.position < |cfg.topic|
    requires next == s.(position := s.position + 1, phase := Handling(s.position), log := s.log + [Polled(s.position)])
    ensures Inv(cfg, next)
  {
    LogOneMore(s.log, Polled(s.position));
  }

  /** Moving an offset between phases, or giving up its commit once it is settled. */
  lemma PhaseInv(cfg: Config, s: State, next: State)
    requires Inv(cfg, s) && !s.phase.Idle?
    requires next == s.(phase := next.phase) && ControlInv(cfg, next)
    requires InFlight(next, s.phase.offset) || (next.phase.Idle? && s.phase.ToCommit?)
    ensures Inv(cfg, next)
  {}

  lemma DeliverInv(cfg: Config, s: State, next: State)
    requires Inv(cfg, s) && next == s.(buffer := next.buffer, delivered := next.delivered)
    ensures Inv(cfg, next)
  {}

  lemma StepInv(cfg: Config, s: State, a: Action)
    requires Inv(cfg, s)
    ensures Inv(cfg, Step(cfg, s, a))
  {
    if Enabled(cfg, s, a) {
      var next := Step(cfg, s, a);
      match a
      case Poll => PollInv(cfg, s, next);
      case Detect => PhaseInv(cfg, s, next);
      case Raise => GiveUpInv(cfg, s, next);
      case Attempt(accepted) =>
        if accepted {
          HandInv(cfg, s, Clean(cfg, cfg.topic[s.phase.offset].text), next);
        } else if s.phase.failures + 1 == ATTEMPTS {
          GiveUpInv(cfg, s, next);
        } else {
          PhaseInv(cfg, s, next);
        }
      case Commit(acknowledged) =>
        if acknowledged {
          CommitInv(cfg, s, next);
        } else {
          PhaseInv(cfg, s, next);
        }
      case Deliver(_) => DeliverInv(cfg, s, next);
      case Drop(_) => DeliverInv(cfg, s, next);
      case Crash => CrashInv(cfg, s, next);
    }
  }

  lemma {:induction false} ExecInv(cfg: Config, actions: seq<Action>)
    ensures Inv(cfg, Exec(cfg, INITIAL, actions))
  {
    if actions != [] {
      ExecInv(cfg, actions[..|actions| - 1]);
      StepInv(cfg, Exec(cfg, INITIAL, actions[..|actions| - 1]), actions[|actions| - 1]);
    }
  }

  /** At least once, exactly as coded: every offset below the committed one was malformed, was
      handed to the clean topic, or failed and was overtaken by a later commit. */
  lemma AtLeastOnceAsCoded(cfg: Config, actions: seq<Action>, o: nat)
    requires o < Exec(cfg, INITIAL, actions).committed
    ensures o < |cfg.topic|
    ensures var log := Exec(cfg, INITIAL, actions).log;
            Malformed(cfg.topic[o]) || o in HandedOffsets(log) || o in Overtaken(log)
  {
    ExecInv(cfg, actions);
  }

  // ----- Redelivery -----

  lemma PollsOneMore(log: seq<Event>, e: Event, o: nat)
    ensures Polls(log + [e], o) == Polls(log, o) + if e == Polled(o) then 1 else 0
  {
    assert (log + [e])[..|log|] == log;
  }

  lemma PollsInStep(cfg: Config, s: State, a: Action, o: nat)
    ensures Polls(Step(cfg, s, a).log, o)
         == Polls(s.log, o) + if Enabled(cfg, s, a) && a.Poll? && s.position == o then 1 else 0
  {
    if Enabled(cfg, s, a) {
      var log := Step(cfg, s, a).log;
      if log != s.log {
        PollsOneMore(s.log, log[|s.log|], o);
        assert log == s.log + [log[|s.log|]];
      }
    }
  }

  lemma StepMonotone(cfg: Config, s: State, a: Action, o: nat)
    requires Inv(cfg, s)
    ensures s.committed <= Step(cfg, s, a).committed
    ensures s.committed > o ==> Polls(Step(cfg, s, a).log, o) == Polls(s.log, o)
    ensures Step(cfg, s, a).position > o >= s.position ==> Polls(Step(cfg, s, a).log, o) == Polls(s.log, o) + 1
    ensures Polls(Step(cfg, s, a).log, o) >= Polls(s.log, o)
  {
    PollsInStep(cfg, s, a, o);
  }

  lemma {:induction false} Continues(cfg: Config, s: State, actions: seq<Action>, o: nat)
    requires Inv(cfg, s)
    ensures Inv(cfg, Exec(cfg, s, actions)) && s.committed <= Exec(cfg, s, actions).committed
    ensures s.committed > o ==> Polls(Exec(cfg, s, actions).log, o) == Polls(s.log, o)
    ensures o >= s.position && Exec(cfg, s, actions).position > o ==>
              Polls(Exec(cfg, s, actions).log, o) > Polls(s.log, o)
    ensures Polls(Exec(cfg, s, actions).log, o) >= Polls(s.log, o)
  {
    if actions != [] {
      var front := actions[..|actions| - 1];
      Continues(cfg, s, front, o);
      StepMonotone(cfg, Exec(cfg, s, front), actions[|actions| - 1], o);
      StepInv(cfg, Exec(cfg, s, front), actions[|actions| - 1]);
    }
  }

  /** Step r of a continuation is a restart at which the offset is not yet committed. */
  ghost predicate RestartedBefore(cfg: Config, s: State, more: seq<Action>, r: nat, o: nat) {
    r < |more| && more[r] == Crash && Exec(cfg, s, more[..r]).committed <= o
  }

  lemma StepBack(cfg: Config, s: State, a: Action, o: nat)
    requires Inv(cfg, s) && s.position > o
    ensures Polls(Step(cfg, s, a).log, o) == Polls(s.log, o)
    ensures Step(cfg, s, a).position <= o ==> a == Crash && s.committed <= o
  {
    PollsInStep(cfg, s, a, o);
  }

  /** An offset behind the position is polled again only after such a restart. */
  lemma {:induction false} NeedsRestart(cfg: Config, s: State, more: seq<Action>, o: nat)
    requires Inv(cfg, s) && s.position > o
    ensures Exec(cfg, s, more).position <= o || Polls(Exec(cfg, s, more).log, o) > Polls(s.log, o) ==>
              exists r: nat :: RestartedBefore(cfg, s, more, r, o)
  {
    if more != [] {
      var n := |more| - 1;
      var before := Exec(cfg, s, more[..n]);
      NeedsRestart(cfg, s, more[..n], o);
      Continues(cfg, s, more[..n], o);
      if r: nat :| RestartedBefore(cfg, s, more[..n], r, o) {
        assert more[..n][..r] == more[..r];
        assert RestartedBefore(cfg, s, more, r, o);
      } else {
        StepBack(cfg, before, more[n], o);
        assert more[n] == Crash && before.committed <= o ==> RestartedBefore(cfg, s, more, n, o);
      }
    }
  }

  /** A failed offset is delivered again exactly when a restart comes before the commit of a
      later offset. Overtaken, it is never polled again in any continuation. Otherwise it is
      polled again only after a restart that finds it uncommitted; and such a restart brings
      the position back to it or before it, and no continuation gets past it without polling
      it. */
  lemma RedeliveredExactly(cfg: Config, actions: seq<Action>, o: nat, more: seq<Action>)
    requires o in FailedNow(Exec(cfg, INITIAL, actions).log)
    ensures var s := Exec(cfg, INITIAL, actions);
            var restarted := Step(cfg, s, Crash);
            var later := Exec(cfg, restarted, more);
            && (o in Overtaken(s.log) ==>
                  && Polls(Exec(cfg, s, more).log, o) == Polls(s.log, o)
                  && Polls(later.log, o) == Polls(s.log, o))
            && (Polls(Exec(cfg, s, more).log, o) > Polls(s.log, o) ==>
                  exists r: nat :: RestartedBefore(cfg, s, more, r, o))
            && (o !in Overtaken(s.log) ==>
                  && restarted.position <= o
                  && (later.position > o ==> Polls(later.log, o) > Polls(s.log, o)))
  {
    var s := Exec(cfg, INITIAL, actions);
    ExecInv(cfg, actions);
    StepInv(cfg, s, Crash);
    StepMonotone(cfg, s, Crash, o);
    Continues(cfg, s, more, o);
    Continues(cfg, Step(cfg, s, Crash), more, o);
    NeedsRestart(cfg, s, more, o);
  }

  // ----- What reaches the clean topic -----

  /** Only sanitized text is handed over, injection tokens removed before personal data. */
  ghost predicate HandedClean(cfg: Config, log: seq<Event>) {
    forall i | 0 <= i < |log| && log[i].Handed? ::
      && log[i].offset < |cfg.topic| && cfg.topic[log[i].offset].Valid?
      && log[i].text == cfg.withoutPii(cfg.withoutInjection(cfg.topic[log[i].offset].text))
  }

  lemma {:induction false} OnlyCleanIsHanded(cfg: Config, actions: seq<Action>)
    ensures HandedClean(cfg, Exec(cfg, INITIAL, actions).log)
  {
    if actions != [] {
      OnlyCleanIsHanded(cfg, actions[..|actions| - 1]);
    }
  }

  // ----- What is lost -----

  /** The offset is behind the committed one, neither buffered nor delivered. */
  predicate Gone(s: State, o: nat) {
    o < s.committed && o !in s.buffer && o !in s.delivered
  }

  /** No continuation, whatever fails or crashes in it, delivers the offset. */
  ghost predicate Lost(cfg: Config, s: State, o: nat) {
    forall more :: o !in Exec(cfg, s, more).delivered
  }

  lemma StepGone(cfg: Config, s: State, a: Action, o: nat)
    requires Inv(cfg, s) && Gone(s, o)
    ensures Gone(Step(cfg, s, a), o)
  {
    if Enabled(cfg, s, a) {
      match a
      case Poll =>
      case Detect =>
      case Raise =>
      case Attempt(_) =>
      case Commit(_) =>
      case Deliver(_) =>
      case Drop(_) =>
      case Crash =>
    }
  }

  lemma {:induction false} NeverAgain(cfg: Config, s: State, more: seq<Action>, o: nat)
    requires Inv(cfg, s) && Gone(s, o)
    ensures Inv(cfg, Exec(cfg, s, more)) && Gone(Exec(cfg, s, more), o)
  {
    if more != [] {
      var front := more[..|more| - 1];
      NeverAgain(cfg, s, front, o);
      StepInv(cfg, Exec(cfg, s, front), more[|more| - 1]);
      StepGone(cfg, Exec(cfg, s, front), more[|more| - 1], o);
    }
  }

  lemma ExecOneMore(cfg: Config, s: State, actions: seq<Action>, a: Action, t: State)
    requires t == Exec(cfg, s, actions)
    ensures Exec(cfg, s, actions + [a]) == Step(cfg, t, a)
  {
    assert (actions + [a])[..|actions|] == actions;
  }

  /** The process is about to poll the offset. */
  predicate Ready(s: State, o: nat) {
    s.phase.Idle? && s.position == o
  }

  lemma PollNext(cfg: Config, s: State, o: nat, run: seq<Action>, t: State)
    returns (longer: seq<Action>, t': State)
    requires t == Exec(cfg, s, run) && Ready(t, o) && o < |cfg.topic|
    ensures t' == Exec(cfg, s, longer) && t'.phase == Handling(o) && t'.position == o + 1
  {
    ExecOneMore(cfg, s, run, Poll, t);
    longer, t' := run + [Poll], Step(cfg, t, Poll);
  }

  /** Whatever the record is, its handling may fail. */
  lemma Pass(cfg: Config, s: State, o: nat, run: seq<Action>, t: State) returns (longer: seq<Action>, t': State)
    requires t == Exec(cfg, s, run) && t.phase == Handling(o) && t.position == o + 1 && o < |cfg.topic|
    ensures t' == Exec(cfg, s, longer) && Ready(t', o + 1)
  {
    if Malformed(cfg.topic[o]) {
      ExecOneMore(cfg, s, run, Detect, t);
      longer, t' := run + [Detect], Step(cfg, t, Detect);
      ExecOneMore(cfg, s, longer, Commit(false), t');
      longer, t' := longer + [Commit(false)], Step(cfg, t', Commit(false));
    } else {
      ExecOneMore(cfg, s, run, Raise, t);
      longer, t' := run + [Raise], Step(cfg, t, Raise);
    }
  }

  /** Without failures a log is handed over. */
  lemma Hand(cfg: Config, s: State, o: nat, run: seq<Action>, t: State) returns (longer: seq<Action>, t': State)
    requires t == Exec(cfg, s, run) && t.phase == Handling(o) && o < |cfg.topic| && cfg.topic[o].Valid?
    ensures t' == Exec(cfg, s, longer) && o in t'.buffer
  {
    ExecOneMore(cfg, s, run, Detect, t);
    longer, t' := run + [Detect], Step(cfg, t, Detect);
    ExecOneMore(cfg, s, longer, Attempt(true), t');
    longer, t' := longer + [Attempt(true)], Step(cfg, t', Attempt(true));
  }

  /** Some continuation polls any offset not yet committed. */
  lemma {:induction false} Reach(cfg: Config, s: State, o: nat) returns (run: seq<Action>, t: State)
    requires s.committed <= o < |cfg.topic|
    ensures t == Exec(cfg, s, run) && t.phase == Handling(o) && t.position == o + 1
    decreases o
  {
    if o == s.committed {
      run, t := [] + [Crash], Step(cfg, s, Crash);
      ExecOneMore(cfg, s, [], Crash, s);
    } else {
      run, t := Reach(cfg, s, o - 1);
      run, t := Pass(cfg, s, o - 1, run, t);
    }
    run, t := PollNext(cfg, s, o, run, t);
  }

  lemma StillDeliverable(cfg: Config, s: State, o: nat)
    requires o < |cfg.topic| && cfg.topic[o].Valid? && !Gone(s, o)
    ensures !Lost(cfg, s, o)
  {
    if o in s.delivered {
      assert Exec(cfg, s, []) == s;
    } else if o in s.buffer {
      ExecOneMore(cfg, s, [], Deliver(o), s);
      assert o in Exec(cfg, s, [] + [Deliver(o)]).delivered;
    } else {
      var run, t := Reach(cfg, s, o);
      run, t := Hand(cfg, s, o, run, t);
      ExecOneMore(cfg, s, run, Deliver(o), t);
      assert o in Exec(cfg, s, run + [Deliver(o)]).delivered;
    }
  }

  /** In every run, a log of the topic is lost exactly when its offset has been committed and
      the client neither has it buffered nor has delivered it. */
  lemma LostExactly(cfg: Config, actions: seq<Action>, o: nat)
    requires o < |cfg.topic| && cfg.topic[o].Valid?
    ensures var s := Exec(cfg, INITIAL, actions);
            Lost(cfg, s, o) <==> o < s.committed && o !in s.buffer && o !in s.delivered
  {
    var s := Exec(cfg, INITIAL, actions);
    ExecInv(cfg, actions);
    if Gone(s, o) {
      forall more ensures o !in Exec(cfg, s, more).delivered {
        NeverAgain(cfg, s, more, o);
      }
    } else {
      StillDeliverable(cfg, s, o);
    }
  }

  /** The step loses the offset: after its commit a crash empties the buffer it is in, or the
      client gives it up, or a commit overtakes it. */
  predicate Loses(s: State, a: Action, o: nat) {
    && o !in s.delivered
    && match a
       case Crash => o < s.committed && o in s.buffer
       case Drop(offset) => offset == o && o < s.committed && o in s.buffer
       case Commit(acknowledged) =>
         acknowledged && s.phase.ToCommit? && s.committed <= o <= s.phase.offset && o !in s.buffer
       case _ => false
  }

  /** A log not yet lost is lost by a step exactly in those three ways. */
  lemma LosingSteps(cfg: Config, actions: seq<Action>, a: Action, o: nat)
    requires o < |cfg.topic| && cfg.topic[o].Valid?
    ensures var s := Exec(cfg, INITIAL, actions);
            Lost(cfg, Exec(cfg, INITIAL, actions + [a]), o) <==> Lost(cfg, s, o) || Loses(s, a, o)
  {
    var s := Exec(cfg, INITIAL, actions);
    ExecInv(cfg, actions);
    LostExactly(cfg, actions, o);
    LostExactly(cfg, actions + [a], o);
    ExecOneMore(cfg, INITIAL, actions, a, s);
    GoneOrLoses(cfg, s, a, o);
  }

  lemma GoneOrLoses(cfg: Config, s: State, a: Action, o: nat)
    requires Inv(cfg, s)
    ensures Gone(Step(cfg, s, a), o) <==> Gone(s, o) || Loses(s, a, o)
  {
    if Enabled(cfg, s, a) {
      match a
      case Poll =>
      case Detect =>
      case Raise =>
      case Attempt(_) =>
      case Commit(_) =>
      case Deliver(_) =>
      case Drop(_) =>
      case Crash =>
    }
  }

  /** An example: the commit follows the enqueueing, not the delivery. A crash between the two
      loses the message for good, and so does a client that gives it up. */
  lemma CommittedYetLost(cfg: Config, loss: Action)
    requires cfg.topic != [] && cfg.topic[0].Valid? && loss in [Crash, Drop(0)]
    ensures var s := Exec(cfg, INITIAL, [Poll] + [Detect] + [Attempt(true)] + [Commit(true)] + [loss]);
            s.committed == 1 && Lost(cfg, s, 0)
  {
    var s1, s2 := Step(cfg, INITIAL, Poll), Step(cfg, Step(cfg, INITIAL, Poll), Detect);
    var s3 := Step(cfg, s2, Attempt(true));
    var s4 := Step(cfg, s3, Commit(true));
    assert Exec(cfg, INITIAL, [Poll]) == s1 by {
      ExecOneMore(cfg, INITIAL, [], Poll, INITIAL);
      assert [] + [Poll] == [Poll];
    }
    ExecOneMore(cfg, INITIAL, [Poll], Detect, s1);
    ExecOneMore(cfg, INITIAL, [Poll] + [Detect], Attempt(true), s2);
    ExecOneMore(cfg, INITIAL, [Poll] + [Detect] + [Attempt(true)], Commit(true), s3);
    ExecOneMore(cfg, INITIAL, [Poll] + [Detect] + [Attempt(true)] + [Commit(true)], loss, s4);
    LostExactly(cfg, [Poll] + [Detect] + [Attempt(true)] + [Commit(true)] + [loss], 0);
  }

  // ----- The handler -----

  class SecurityMiddlewareHandler {
    const cfg: Config
    var state: State
    var trace: seq<Action>

    /** The object is where its trace leads, so what holds of every run holds of it. (The run
        is a bound variable only to keep the solver from replaying it in every method.) */
    ghost predicate Valid()
      reads this
    {
      forall run | run == trace :: state == Exec(cfg, INITIAL, run)
    }

    lemma ValidIsReached()
      requires Valid()
      ensures state == Exec(cfg, INITIAL, trace) && Inv(cfg, state)
    {
      ExecInv(cfg, trace);
    }

    constructor (cfg: Config)
      ensures Valid() && this.cfg == cfg && state == INITIAL && trace == []
    {
      this.cfg, state, trace := cfg, INITIAL, [];
    }

    method Do(a: Action)
      requires Valid() && Enabled(cfg, state, a)
      modifies this
      ensures Valid() && Inv(cfg, old(state)) && Inv(cfg, state)
      ensures trace == old(trace) + [a] && state == Step(cfg, old(state), a)
    {
      ValidIsReached();
      ExecOneMore(cfg, INITIAL, trace, a, state);
      state := Step(cfg, state, a);
      trace := trace + [a];
      ValidIsReached();
    }

    /** Restart after a crash, wherever the code was. */
    method Restart()
      requires Valid()
      modifies this
      ensures Valid() && trace == old(trace) + [Crash] && state == Step(cfg, old(state), Crash)
    {
      Do(Crash);
    }

    /** Polls one message and handles it; committed tells whether its offset was committed.
        raises says whether handling a log raises on the way.
        accepts(k) says whether produce call k is accepted. */
    method HandleKafkaMessage(raises: bool, accepts: int -> bool, acknowledged: bool) returns (committed: bool)
      requires Valid() && state.phase.Idle? && state.position < |cfg.topic|
      modifies this
      ensures Valid() && state.phase.Idle? && state.position == old(state).position + 1
      ensures var o := old(state).position;
              var processed := Malformed(cfg.topic[o])
                               || (cfg.topic[o].Valid? && !raises && (accepts(0) || accepts(1)));
              && (committed <==> processed && acknowledged)
              && state.committed == (if committed then o + 1 else old(state).committed)
              && (processed && cfg.topic[o].Valid? ==> o in HandedOffsets(state.log))
              && (!processed ==> o in FailedNow(state.log))
    {
      var offset := state.position;
      Do(Poll);
      if cfg.topic[offset].NoValue? || (raises && cfg.topic[offset].Valid?) {
        LogOneMore(state.log, Failed(offset));
        Do(Raise);
        return false;
      }
      Do(Detect);
      if state.phase.Publishing? {
        var success := PublishWithRetry(accepts);
        if !success {
          return false;
        }
      }
      ghost var log := state.log;
      LogOneMore(log, Committed(offset));
      Do(Commit(acknowledged));
      committed := acknowledged;
    }

    method Produce(accepted: bool)
      requires Valid() && state.phase.Publishing?
      modifies this
      ensures Valid() && state.position == old(state).position && state.committed == old(state).committed
      ensures accepted ==> state.phase == ToCommit(old(state).phase.offset)
                           && old(state).phase.offset in HandedOffsets(state.log)
      ensures !accepted && old(state).phase.failures + 1 < ATTEMPTS ==>
                state.phase == Publishing(old(state).phase.offset, old(state).phase.failures + 1)
      ensures !accepted && old(state).phase.failures + 1 == ATTEMPTS ==>
                state.phase.Idle? && old(state).phase.offset in FailedNow(state.log)
    {
      ValidIsReached();
      var offset := state.phase.offset;
      LogOneMore(state.log, if accepted then Handed(offset, Clean(cfg, cfg.topic[offset].text)) else Failed(offset));
      Do(Attempt(accepted));
    }

    /** Tries a second time when the first produce call fails. */
    method PublishWithRetry(accepts: int -> bool) returns (success: bool)
      requires Valid() && state.phase.Publishing? && state.phase.failures == 0
      modifies this
      ensures Valid() && state.position == old(state).position && state.committed == old(state).committed
      ensures success <==> accepts(0) || accepts(1)
      ensures success ==> state.phase == ToCommit(old(state).phase.offset)
                          && old(state).phase.offset in HandedOffsets(state.log)
      ensures !success ==> state.phase.Idle? && old(state).phase.offset in FailedNow(state.log)
    {
      var offset := state.phase.offset;
      var attempt := 0;
      while attempt < ATTEMPTS
        invariant 0 <= attempt <= ATTEMPTS && Valid()
        invariant state.position == old(state).position && state.committed == old(state).committed
        invariant forall k | 0 <= k < attempt :: !accepts(k)
        invariant attempt < ATTEMPTS ==> state.phase == Publishing(offset, attempt)
        invariant attempt == ATTEMPTS ==> state.phase.Idle? && offset in FailedNow(state.log)
      {
        var accepted := accepts(attempt);
        Produce(accepted);
        if accepted {
          return true;
        }
        attempt := attempt + 1;
      }
      return false;
    }
  }
}
