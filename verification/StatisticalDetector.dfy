/** The statistical detector's Redis side: bucket counters that expire, the SCAN loop that
    collects a baseline, and the two checks made for every log event. */
module StatisticalDetector {
  import opened Sequences
  import opened Wrappers
  import Z = ZScore

  datatype Metric = Errors | Volume

  /** A bucket counter's key, by its parts. */
  datatype Key = Key(tenant: string, service: string, metric: Metric, epoch: int)

  /** expires is None until EXPIRE has been issued. */
  datatype Counter = Counter(value: nat, expires: Option<real>)

  type Redis = map<Key, Counter>

  datatype Config = Config(windowSeconds: int, threshold: real, minPoints: int, bucketSeconds: int) {
    predicate Valid() {
      windowSeconds > 0 && bucketSeconds > 0 && threshold > 0.0
    }

    function Ttl(): real {
      2.0 * windowSeconds as real
    }
  }

  /** One log event. timestamp is its own Unix time, now the Redis clock when it is handled,
      writes the number of its Redis writes that succeed before one raises. */
  datatype Event = Event(tenant: string, service: string, level: string, timestamp: real, now: real, writes: nat)

  datatype Alert = Alert(metric: Metric, finding: Z.Finding)

  // ----- Counters -----

  predicate IsError(e: Event) {
    e.level == "ERROR" || e.level == "FATAL"
  }

  /** The whole seconds of a timestamp, truncated towards zero. */
  function WholeSeconds(timestamp: real): int {
    if timestamp >= 0.0 then timestamp.Floor else -((-timestamp).Floor)
  }

  /** Floor division by a positive bucket width is Euclidean division. */
  function BucketEpoch(cfg: Config, timestamp: real): int
    requires cfg.Valid()
  {
    WholeSeconds(timestamp) / cfg.bucketSeconds * cfg.bucketSeconds
  }

  function EventKey(cfg: Config, e: Event, metric: Metric): Key
    requires cfg.Valid()
  {
    Key(e.tenant, e.service, metric, BucketEpoch(cfg, e.timestamp))
  }

  predicate IsMultiple(x: int, b: int, q: int) {
    x == q * b
  }

  /** A bucket begins at a multiple of its width and contains its start, but not its end. */
  ghost predicate InBucket(width: int, start: int, timestamp: real) {
    (exists q :: IsMultiple(start, width, q)) && start as real <= timestamp < (start + width) as real
  }

  /** From 1970 on an event falls into the bucket that contains it, and before, for whole
      seconds are truncated towards zero, into the one that contains the next whole second. */
  lemma BucketExactly(cfg: Config, timestamp: real)
    requires cfg.Valid()
    ensures var start := BucketEpoch(cfg, timestamp);
            && (exists q :: IsMultiple(start, cfg.bucketSeconds, q))
            && (timestamp >= 0.0 ==> InBucket(cfg.bucketSeconds, start, timestamp))
            && (timestamp < 0.0 ==>
                  (start - 1) as real < timestamp <= (start + cfg.bucketSeconds - 1) as real)
  {
    var seconds, width := WholeSeconds(timestamp), cfg.bucketSeconds;
    var q := seconds / width;
    Quotient(seconds, width, q);
    assert IsMultiple(BucketEpoch(cfg, timestamp), width, q);
  }

  lemma OneBucket(width: int, start: int, other: int, timestamp: real)
    requires width > 0 && InBucket(width, start, timestamp) && InBucket(width, other, timestamp)
    ensures start == other
  {
    var p :| IsMultiple(start, width, p);
    var q :| IsMultiple(other, width, q);
    assert (p + 1) * width == start + width && (q + 1) * width == other + width;
    Less(p, q + 1, width);
    Less(q, p + 1, width);
  }

  /** Two events share a counter exactly when they are of one service of one tenant and one
      bucket contains both. */
  lemma SameCounter(cfg: Config, e: Event, e': Event, metric: Metric)
    requires cfg.Valid() && e.timestamp >= 0.0 && e'.timestamp >= 0.0
    ensures EventKey(cfg, e, metric) == EventKey(cfg, e', metric) <==>
            && e.tenant == e'.tenant && e.service == e'.service
            && exists start :: InBucket(cfg.bucketSeconds, start, e.timestamp)
                               && InBucket(cfg.bucketSeconds, start, e'.timestamp)
  {
    var b, b' := BucketEpoch(cfg, e.timestamp), BucketEpoch(cfg, e'.timestamp);
    BucketExactly(cfg, e.timestamp);
    BucketExactly(cfg, e'.timestamp);
    if start :| InBucket(cfg.bucketSeconds, start, e.timestamp) && InBucket(cfg.bucketSeconds, start, e'.timestamp) {
      OneBucket(cfg.bucketSeconds, b, start, e.timestamp);
      OneBucket(cfg.bucketSeconds, b', start, e'.timestamp);
    }
  }

  predicate Live(redis: Redis, k: Key, t: real) {
    k in redis && (redis[k].expires.Some? ==> t < redis[k].expires.value)
  }

  function Incr(redis: Redis, k: Key, t: real): Redis {
    redis[k := if Live(redis, k, t) then redis[k].(value := redis[k].value + 1) else Counter(1, None)]
  }

  function Expire(redis: Redis, k: Key, t: real, ttl: real): Redis {
    if k in redis then redis[k := redis[k].(expires := Some(t + ttl))] else redis
  }

  /** INCR and then EXPIRE, as far as the given number of writes gets. */
  function Touch(redis: Redis, k: Key, t: real, ttl: real, writes: int): Redis {
    if writes <= 0 then redis
    else if writes == 1 then Incr(redis, k, t)
    else Expire(Incr(redis, k, t), k, t, ttl)
  }

  function Step(cfg: Config, redis: Redis, e: Event): Redis
    requires cfg.Valid()
  {
    var afterErrors := if IsError(e) then Touch(redis, EventKey(cfg, e, Errors), e.now, cfg.Ttl(), e.writes) else redis;
    Touch(afterErrors, EventKey(cfg, e, Volume), e.now, cfg.Ttl(), if IsError(e) then e.writes - 2 else e.writes)
  }

  function Run(cfg: Config, events: seq<Event>): Redis
    requires cfg.Valid()
  {
    if events == [] then map[]
    else Step(cfg, Run(cfg, events[..|events| - 1]), events[|events| - 1])
  }

  // ----- What one key sees of a run -----

  /** Whether an event hits the key, and when. */
  datatype Mark = Mark(hit: bool, now: real)

  predicate Complete(e: Event) {
    e.writes >= if IsError(e) then 4 else 2
  }

  /** The events were handled in the order of the Redis clock and none of their writes failed. */
  ghost predicate Orderly(events: seq<Event>) {
    && (forall i | 0 <= i < |events| :: Complete(events[i]))
    && (forall i, j | 0 <= i < j < |events| :: events[i].now <= events[j].now)
  }

  predicate Hits(cfg: Config, e: Event, k: Key)
    requires cfg.Valid()
  {
    && e.tenant == k.tenant && e.service == k.service && BucketEpoch(cfg, e.timestamp) == k.epoch
    && (k.metric == Errors ==> IsError(e))
  }

  function Marks(cfg: Config, events: seq<Event>, k: Key): (marks: seq<Mark>)
    requires cfg.Valid()
    ensures |marks| == |events|
    ensures forall i | 0 <= i < |events| :: marks[i] == Mark(Hits(cfg, events[i], k), events[i].now)
  {
    seq(|events|, i requires 0 <= i < |events| => Mark(Hits(cfg, events[i], k), events[i].now))
  }

  predicate Alive(counter: Option<Counter>, t: real) {
    counter.Some? && (counter.value.expires.Some? ==> t < counter.value.expires.value)
  }

  function Lookup(redis: Redis, k: Key): Option<Counter> {
    if k in redis then Some(redis[k]) else None
  }

  function See(ttl: real, counter: Option<Counter>, m: Mark): Option<Counter> {
    if !m.hit then counter
    else Some(Counter(if Alive(counter, m.now) then counter.value.value + 1 else 1, Some(m.now + ttl)))
  }

  function Replay(ttl: real, marks: seq<Mark>): Option<Counter> {
    if marks == [] then None else See(ttl, Replay(ttl, marks[..|marks| - 1]), marks[|marks| - 1])
  }

  /** The effect of a complete event on one key. */
  lemma StepOnKey(cfg: Config, redis: Redis, e: Event, k: Key)
    requires cfg.Valid() && Complete(e)
    ensures Lookup(Step(cfg, redis, e), k) == See(cfg.Ttl(), Lookup(redis, k), Mark(Hits(cfg, e, k), e.now))
  {
    var k0, k1 := EventKey(cfg, e, Errors), EventKey(cfg, e, Volume);
    assert Hits(cfg, e, k) <==> k == k1 || (k == k0 && IsError(e));
  }

  lemma {:induction false} RunIsReplay(cfg: Config, events: seq<Event>, k: Key)
    requires cfg.Valid() && Orderly(events)
    ensures Lookup(Run(cfg, events), k) == Replay(cfg.Ttl(), Marks(cfg, events, k))
  {
    if events != [] {
      var p, e := events[..|events| - 1], events[|events| - 1];
      RunIsReplay(cfg, p, k);
      StepOnKey(cfg, Run(cfg, p), e, k);
      assert Marks(cfg, events, k)[..|p|] == Marks(cfg, p, k);
    }
  }

  // ----- A counter is the number of hits since its key was created -----

  ghost predicate InOrder(marks: seq<Mark>) {
    forall i, j | 0 <= i < j < |marks| :: marks[i].now <= marks[j].now
  }

  /** One of the first n marks is a hit less than a TTL before t. */
  ghost predicate Recent(ttl: real, marks: seq<Mark>, n: int, t: real) {
    exists h :: 0 <= h < n <= |marks| && marks[h].hit && t < marks[h].now + ttl
  }

  /** Mark c created the key: a hit with no recent hit before, unlike every later hit. */
  ghost predicate CreatedAt(ttl: real, marks: seq<Mark>, c: int) {
    && 0 <= c < |marks| && marks[c].hit && !Recent(ttl, marks, c, marks[c].now)
    && forall j | c < j < |marks| && marks[j].hit :: Recent(ttl, marks, j, marks[j].now)
  }

  function CountHits(marks: seq<Mark>, from: nat): nat
    decreases |marks|
  {
    if from >= |marks| then 0
    else CountHits(marks[..|marks| - 1], from) + if marks[|marks| - 1].hit then 1 else 0
  }

  ghost predicate LastHit(marks: seq<Mark>, i: int) {
    0 <= i < |marks| && marks[i].hit && forall j | i < j < |marks| :: !marks[j].hit
  }

  /** The stored counter of a key whose last hit is i and which c created. */
  ghost predicate Explained(ttl: real, marks: seq<Mark>, counter: Counter, i: int, c: int) {
    && LastHit(marks, i) && counter.expires == Some(marks[i].now + ttl)
    && CreatedAt(ttl, marks, c) && counter.value == CountHits(marks, c)
  }

  lemma RecentInLonger(ttl: real, marks: seq<Mark>, m: Mark, n: int, t: real)
    requires n <= |marks|
    ensures Recent(ttl, marks + [m], n, t) <==> Recent(ttl, marks, n, t)
  {
    if Recent(ttl, marks, n, t) {
      var h :| 0 <= h < n <= |marks| && marks[h].hit && t < marks[h].now + ttl;
      assert (marks + [m])[h] == marks[h];
    }
  }

  lemma StillCreatedAt(ttl: real, marks: seq<Mark>, m: Mark, c: int)
    requires CreatedAt(ttl, marks, c)
    requires m.hit ==> Recent(ttl, marks, |marks|, m.now)
    ensures CreatedAt(ttl, marks + [m], c)
  {
    RecentInLonger(ttl, marks, m, c, marks[c].now);
    var longer := marks + [m];
    forall j | c < j < |longer| && longer[j].hit ensures Recent(ttl, longer, j, longer[j].now) {
      RecentInLonger(ttl, marks, m, j, longer[j].now);
    }
  }

  lemma AliveIsRecent(ttl: real, marks: seq<Mark>, counter: Counter, i: int, c: int, t: real)
    requires InOrder(marks) && Explained(ttl, marks, counter, i, c)
    ensures Alive(Some(counter), t) <==> Recent(ttl, marks, |marks|, t)
  {
    if Recent(ttl, marks, |marks|, t) {
      var h :| 0 <= h < |marks| && marks[h].hit && t < marks[h].now + ttl;
      assert h <= i;
    }
  }

  lemma CountOneMore(marks: seq<Mark>, m: Mark, from: nat)
    requires from <= |marks|
    ensures CountHits(marks + [m], from) == CountHits(marks, from) + if m.hit then 1 else 0
  {
    assert (marks + [m])[..|marks|] == marks;
  }

  /** Where the counter of a key comes from: None, when nothing ever hit it. */
  ghost predicate Origin(ttl: real, marks: seq<Mark>, counter: Option<Counter>) {
    match counter
    case None => forall i | 0 <= i < |marks| :: !marks[i].hit
    case Some(value) => exists i, c :: Explained(ttl, marks, value, i, c)
  }

  lemma Continued(ttl: real, marks: seq<Mark>, counter: Counter, i: int, c: int, m: Mark)
    requires InOrder(marks) && Explained(ttl, marks, counter, i, c)
    requires m.hit ==> Alive(Some(counter), m.now)
    ensures Explained(ttl, marks + [m], See(ttl, Some(counter), m).value, if m.hit then |marks| else i, c)
  {
    AliveIsRecent(ttl, marks, counter, i, c, m.now);
    StillCreatedAt(ttl, marks, m, c);
    CountOneMore(marks, m, c);
  }

  lemma Created(ttl: real, marks: seq<Mark>, m: Mark)
    requires m.hit && !Recent(ttl, marks, |marks|, m.now)
    ensures Explained(ttl, marks + [m], Counter(1, Some(m.now + ttl)), |marks|, |marks|)
  {
    RecentInLonger(ttl, marks, m, |marks|, m.now);
    CountOneMore(marks, m, |marks|);
  }

  lemma SeeOrigin(ttl: real, marks: seq<Mark>, counter: Option<Counter>, m: Mark)
    requires InOrder(marks) && Origin(ttl, marks, counter)
    ensures Origin(ttl, marks + [m], See(ttl, counter, m))
  {
    if m.hit && !Alive(counter, m.now) {
      if counter.Some? {
        var i, c :| Explained(ttl, marks, counter.value, i, c);
        AliveIsRecent(ttl, marks, counter.value, i, c, m.now);
      }
      Created(ttl, marks, m);
    } else if counter.Some? {
      var i, c :| Explained(ttl, marks, counter.value, i, c);
      Continued(ttl, marks, counter.value, i, c, m);
    }
  }

  lemma {:induction false} ReplayOrigin(ttl: real, marks: seq<Mark>)
    requires InOrder(marks)
    ensures Origin(ttl, marks, Replay(ttl, marks))
  {
    if marks != [] {
      var p, m := marks[..|marks| - 1], marks[|marks| - 1];
      assert marks == p + [m];
      ReplayOrigin(ttl, p);
      SeeOrigin(ttl, p, Replay(ttl, p), m);
    }
  }

  /** A key is live exactly when an event hit it less than a TTL ago, and a live counter is
      the number of events that hit the key since the one that created it. */
  lemma CounterIsHitsSinceCreation(cfg: Config, events: seq<Event>, k: Key, t: real)
    requires cfg.Valid() && Orderly(events)
    ensures Live(Run(cfg, events), k, t) <==> Recent(cfg.Ttl(), Marks(cfg, events, k), |events|, t)
    ensures Live(Run(cfg, events), k, t) ==>
              exists c :: CreatedAt(cfg.Ttl(), Marks(cfg, events, k), c)
                          && Run(cfg, events)[k].value == CountHits(Marks(cfg, events, k), c)
  {
    var marks, counter := Marks(cfg, events, k), Lookup(Run(cfg, events), k);
    RunIsReplay(cfg, events, k);
    ReplayOrigin(cfg.Ttl(), marks);
    assert Live(Run(cfg, events), k, t) <==> Alive(counter, t);
    if counter.Some? {
      var i, c :| Explained(cfg.Ttl(), marks, counter.value, i, c);
      AliveIsRecent(cfg.Ttl(), marks, counter.value, i, c, t);
    }
  }

  // ----- Errors never outgrow the volume -----

  /** The first counter is live only while the second is, expires no later and counts no more. */
  ghost predicate Within(errors: Option<Counter>, volume: Option<Counter>, t: real) {
    Alive(errors, t) ==>
      && Alive(volume, t)
      && errors.value.expires.Some? && volume.value.expires.Some?
      && errors.value.expires.value <= volume.value.expires.value
      && errors.value.value <= volume.value.value
  }

  /** No expiry lies more than a TTL ahead. */
  ghost predicate Bounded(ttl: real, counter: Option<Counter>, now: real) {
    counter.Some? && counter.value.expires.Some? ==> counter.value.expires.value <= now + ttl
  }

  lemma SeeWithin(ttl: real, errors: Option<Counter>, volume: Option<Counter>, hitErrors: bool, hitVolume: bool,
                  now: real, t: real)
    requires now <= t && (hitErrors ==> hitVolume)
    requires Within(errors, volume, now) && Within(errors, volume, t)
    requires Bounded(ttl, errors, now)
    ensures Within(See(ttl, errors, Mark(hitErrors, now)), See(ttl, volume, Mark(hitVolume, now)), t)
  {}

  lemma {:induction false} ReplayWithin(ttl: real, errors: seq<Mark>, volume: seq<Mark>, t: real)
    requires |errors| == |volume| && InOrder(errors)
    requires forall i | 0 <= i < |errors| ::
               errors[i].now == volume[i].now <= t && (errors[i].hit ==> volume[i].hit)
    ensures Within(Replay(ttl, errors), Replay(ttl, volume), t)
    ensures Bounded(ttl, Replay(ttl, errors), t)
  {
    if errors != [] {
      var n := |errors| - 1;
      var now := errors[n].now;
      ReplayWithin(ttl, errors[..n], volume[..n], now);
      ReplayWithin(ttl, errors[..n], volume[..n], t);
      SeeWithin(ttl, Replay(ttl, errors[..n]), Replay(ttl, volume[..n]), errors[n].hit, volume[n].hit, now, t);
    }
  }

  /** In every run, at every later time: an error bucket never outlives and never exceeds its
      volume bucket. */
  lemma ErrorsWithinVolume(cfg: Config, events: seq<Event>, tenant: string, service: string, epoch: int, t: real)
    requires cfg.Valid() && Orderly(events)
    requires forall i | 0 <= i < |events| :: events[i].now <= t
    ensures Within(Lookup(Run(cfg, events), Key(tenant, service, Errors, epoch)),
                   Lookup(Run(cfg, events), Key(tenant, service, Volume, epoch)), t)
  {
    var k0, k1 := Key(tenant, service, Errors, epoch), Key(tenant, service, Volume, epoch);
    RunIsReplay(cfg, events, k0);
    RunIsReplay(cfg, events, k1);
    ReplayWithin(cfg.Ttl(), Marks(cfg, events, k0), Marks(cfg, events, k1), t);
  }

  // ----- Writes that fail half way -----

  /** Whether the event's INCR of the key is done, as far as its writes get: an error writes
      its error counter first. */
  predicate IncrDone(cfg: Config, e: Event, k: Key)
    requires cfg.Valid()
  {
    Hits(cfg, e, k) && e.writes >= if IsError(e) && k.metric == Volume then 3 else 1
  }

  predicate ExpireDone(cfg: Config, e: Event, k: Key)
    requires cfg.Valid()
  {
    Hits(cfg, e, k) && e.writes >= if IsError(e) && k.metric == Volume then 4 else 2
  }

  /** INCR, and then EXPIRE if it is done. */
  function SeePartly(ttl: real, counter: Option<Counter>, now: real, incr: bool, expire: bool): Option<Counter> {
    if !incr then counter
    else
      var raised := if Alive(counter, now) then counter.value.(value := counter.value.value + 1) else Counter(1, None);
      Some(if expire then raised.(expires := Some(now + ttl)) else raised)
  }

  /** The effect of any event on one key. */
  lemma StepOnKeyPartly(cfg: Config, redis: Redis, e: Event, k: Key)
    requires cfg.Valid()
    ensures Lookup(Step(cfg, redis, e), k)
         == SeePartly(cfg.Ttl(), Lookup(redis, k), e.now, IncrDone(cfg, e, k), ExpireDone(cfg, e, k))
  {
    var k0, k1 := EventKey(cfg, e, Errors), EventKey(cfg, e, Volume);
    assert Hits(cfg, e, k) <==> k == k1 || (k == k0 && IsError(e));
  }

  /** What an event does to a counter. It counts on its own tenant, service and bucket, as an
      error only if its level is one, errors first: the first write adds one to what is live
      or begins at one, and the second lets the counter live for two windows. */
  lemma EventExactly(cfg: Config, redis: Redis, e: Event, k: Key)
    requires cfg.Valid()
    ensures var isError := e.level == "ERROR" || e.level == "FATAL";
            var hit := && e.tenant == k.tenant && e.service == k.service
                       && BucketEpoch(cfg, e.timestamp) == k.epoch && (k.metric == Errors ==> isError);
            var before := if k.metric == Volume && isError then 2 else 0;
            var alive := k in redis && (redis[k].expires == None || e.now < redis[k].expires.value);
            var after := Step(cfg, redis, e);
            if hit && e.writes > before then
              && k in after
              && after[k].value == (if alive then redis[k].value else 0) + 1
              && after[k].expires == if e.writes > before + 1 then Some(e.now + (2 * cfg.windowSeconds) as real)
                                     else if alive then redis[k].expires else None
            else (k in after <==> k in redis) && (k in redis ==> after[k] == redis[k])
  {
    StepOnKeyPartly(cfg, redis, e, k);
    assert cfg.Ttl() == (2 * cfg.windowSeconds) as real;
    assert Lookup(Step(cfg, redis, e), k).Some? <==> k in Step(cfg, redis, e);
  }

  /** When an error event of this many writes keeps the error counter within the volume
      counter as seen at t, by the two counters before it. */
  predicate Survives(ttl: real, errors: Option<Counter>, volume: Option<Counter>, now: real, t: real, writes: nat) {
    match writes
    case 0 => true
    case 1 => Alive(errors, now) && (Alive(errors, t) ==> volume.Some? && errors.value.value < volume.value.value)
    case 2 => t >= now + ttl
              || (Lasts(volume, now + ttl)
                  && (if Alive(errors, now) then errors.value.value else 0) < volume.value.value)
    case 3 => t >= now + ttl || Lasts(volume, now + ttl)
    case _ => true
  }

  /** The counter expires, but not before t. */
  predicate Lasts(counter: Option<Counter>, t: real) {
    counter.Some? && counter.value.expires.Some? && counter.value.expires.value >= t
  }

  lemma SurvivesExactly(ttl: real, errors: Option<Counter>, volume: Option<Counter>, now: real, t: real, writes: nat)
    requires ttl > 0.0 && now <= t && Within(errors, volume, now) && Within(errors, volume, t)
    ensures Within(SeePartly(ttl, errors, now, writes >= 1, writes >= 2),
                   SeePartly(ttl, volume, now, writes >= 3, writes >= 4), t)
       <==> Survives(ttl, errors, volume, now, t, writes)
  {
    match writes
    case 0 =>
    case 1 =>
    case 2 =>
    case 3 =>
    case _ =>
  }

  lemma VolumeOnly(ttl: real, errors: Option<Counter>, volume: Option<Counter>, now: real, t: real, writes: nat)
    requires now <= t && Within(errors, volume, now) && Within(errors, volume, t) && Bounded(ttl, errors, now)
    ensures Within(errors, SeePartly(ttl, volume, now, writes >= 1, writes >= 2), t)
  {}

  lemma PartialStep(cfg: Config, redis: Redis, e: Event, t: real, errors: Key, volume: Key)
    requires cfg.Valid() && e.now <= t && errors == EventKey(cfg, e, Errors) && volume == EventKey(cfg, e, Volume)
    requires Within(Lookup(redis, errors), Lookup(redis, volume), e.now)
    requires Within(Lookup(redis, errors), Lookup(redis, volume), t)
    requires Bounded(cfg.Ttl(), Lookup(redis, errors), e.now)
    ensures var after := Step(cfg, redis, e);
            Within(Lookup(after, errors), Lookup(after, volume), t) <==>
            (IsError(e) ==> Survives(cfg.Ttl(), Lookup(redis, errors), Lookup(redis, volume), e.now, t, e.writes))
  {
    StepOnKeyPartly(cfg, redis, e, errors);
    StepOnKeyPartly(cfg, redis, e, volume);
    if IsError(e) {
      SurvivesExactly(cfg.Ttl(), Lookup(redis, errors), Lookup(redis, volume), e.now, t, e.writes);
    } else {
      VolumeOnly(cfg.Ttl(), Lookup(redis, errors), Lookup(redis, volume), e.now, t, e.writes);
    }
  }

  /** The events were handled in the order of the Redis clock, the last no later than now. */
  ghost predicate ClockOrdered(events: seq<Event>, now: real) {
    && (forall i, j | 0 <= i < j < |events| :: events[i].now <= events[j].now)
    && (forall i | 0 <= i < |events| :: events[i].now <= now)
  }

  lemma {:induction false} RunBounded(cfg: Config, events: seq<Event>, k: Key, now: real)
    requires cfg.Valid() && ClockOrdered(events, now)
    ensures Bounded(cfg.Ttl(), Lookup(Run(cfg, events), k), now)
  {
    if events != [] {
      var n := |events| - 1;
      RunBounded(cfg, events[..n], k, events[n].now);
      StepOnKeyPartly(cfg, Run(cfg, events[..n]), events[n], k);
    }
  }

  /** In every run, whichever writes failed so far, in which the errors of the event's bucket
      are within its volume: after an error event of which only some writes succeed they still
      are exactly when the two counters allow for it; any other event keeps them so, however
      few of its writes succeed. */
  lemma PartialWritesExactly(cfg: Config, events: seq<Event>, e: Event, t: real, redis: Redis)
    requires cfg.Valid() && ClockOrdered(events, e.now) && e.now <= t && redis == Run(cfg, events)
    requires Within(Lookup(redis, EventKey(cfg, e, Errors)), Lookup(redis, EventKey(cfg, e, Volume)), e.now)
    requires Within(Lookup(redis, EventKey(cfg, e, Errors)), Lookup(redis, EventKey(cfg, e, Volume)), t)
    ensures var errors, volume := EventKey(cfg, e, Errors), EventKey(cfg, e, Volume);
            var after := Run(cfg, events + [e]);
            Within(Lookup(after, errors), Lookup(after, volume), t) <==>
            (IsError(e) ==> Survives(cfg.Ttl(), Lookup(redis, errors), Lookup(redis, volume), e.now, t, e.writes))
  {
    assert (events + [e])[..|events|] == events;
    RunBounded(cfg, events, EventKey(cfg, e, Errors), e.now);
    PartialStep(cfg, redis, e, t, EventKey(cfg, e, Errors), EventKey(cfg, e, Volume));
  }

  /** The two counters of one bucket after the first n events, seen at t. */
  ghost predicate WithinAfter(cfg: Config, events: seq<Event>, n: nat, errors: Key, volume: Key, t: real)
    requires cfg.Valid() && n <= |events|
  {
    Within(Lookup(Run(cfg, events[..n]), errors), Lookup(Run(cfg, events[..n]), volume), t)
  }

  /** From event n - 1 on, whatever happened to it, the errors are within the volume. */
  ghost predicate WithinFrom(cfg: Config, events: seq<Event>, n: nat, errors: Key, volume: Key)
    requires cfg.Valid() && n <= |events|
  {
    forall t {:trigger WithinAfter(cfg, events, n, errors, volume, t)} | n > 0 ==> events[n - 1].now <= t ::
      WithinAfter(cfg, events, n, errors, volume, t)
  }

  /** Event i is no error of the bucket, or the two counters it met allow for the writes it
      made. */
  predicate SurvivesAt(cfg: Config, events: seq<Event>, i: nat, errors: Key, volume: Key)
    requires cfg.Valid() && i < |events|
  {
    var e, redis := events[i], Run(cfg, events[..i]);
    Hits(cfg, e, errors) ==>
      Survives(cfg.Ttl(), Lookup(redis, errors), Lookup(redis, volume), e.now, e.now, e.writes)
  }

  lemma SurvivesOn(ttl: real, errors: Option<Counter>, volume: Option<Counter>, now: real, t: real, writes: nat)
    requires now <= t && Survives(ttl, errors, volume, now, now, writes) && ttl > 0.0
    ensures Survives(ttl, errors, volume, now, t, writes)
  {
    match writes
    case 0 =>
    case 1 =>
    case 2 =>
    case 3 =>
    case _ =>
  }

  predicate Bucket(errors: Key, volume: Key) {
    errors.metric == Errors && volume == errors.(metric := Volume)
  }

  lemma EventKeepsAt(cfg: Config, events: seq<Event>, i: nat, errors: Key, volume: Key, t: real)
    requires cfg.Valid() && i < |events| && ClockOrdered(events, events[|events| - 1].now) && Bucket(errors, volume)
    requires WithinFrom(cfg, events, i, errors, volume) && events[i].now <= t
    ensures SurvivesAt(cfg, events, i, errors, volume) ==> WithinAfter(cfg, events, i + 1, errors, volume, t)
    ensures t == events[i].now && WithinAfter(cfg, events, i + 1, errors, volume, t) ==>
              SurvivesAt(cfg, events, i, errors, volume)
  {
    var e, redis := events[i], Run(cfg, events[..i]);
    assert events[..i + 1] == events[..i] + [e] && (events[..i] + [e])[..i] == events[..i];
    assert WithinAfter(cfg, events, i, errors, volume, e.now);
    assert WithinAfter(cfg, events, i, errors, volume, t);
    if Hits(cfg, e, volume) {
      PartialWritesExactly(cfg, events[..i], e, t, redis);
      if Hits(cfg, e, errors) && SurvivesAt(cfg, events, i, errors, volume) {
        SurvivesOn(cfg.Ttl(), Lookup(redis, errors), Lookup(redis, volume), e.now, t, e.writes);
      }
    } else {
      StepOnKeyPartly(cfg, redis, e, errors);
      StepOnKeyPartly(cfg, redis, e, volume);
    }
  }

  lemma EventKeeps(cfg: Config, events: seq<Event>, i: nat, errors: Key, volume: Key)
    requires cfg.Valid() && i < |events| && ClockOrdered(events, events[|events| - 1].now) && Bucket(errors, volume)
    requires WithinFrom(cfg, events, i, errors, volume)
    ensures WithinFrom(cfg, events, i + 1, errors, volume) <==> SurvivesAt(cfg, events, i, errors, volume)
  {
    EventKeepsAt(cfg, events, i, errors, volume, events[i].now);
    if SurvivesAt(cfg, events, i, errors, volume) {
      forall t: real {:trigger WithinAfter(cfg, events, i + 1, errors, volume, t)} | events[i].now <= t
        ensures WithinAfter(cfg, events, i + 1, errors, volume, t)
      {
        EventKeepsAt(cfg, events, i, errors, volume, t);
      }
    }
  }

  /** Over a whole run, whichever writes fail in it: after every event and at every later time
      the errors of a bucket are within its volume, exactly when each error event of the
      bucket met counters that allow for the writes it made. */
  lemma {:induction false} WithinThroughoutExactly(cfg: Config, events: seq<Event>, errors: Key, volume: Key, n: nat)
    requires cfg.Valid() && n <= |events| && Bucket(errors, volume)
    requires events != [] ==> ClockOrdered(events, events[|events| - 1].now)
    ensures (forall m: nat | m <= n :: WithinFrom(cfg, events, m, errors, volume)) <==>
            (forall i: nat | i < n :: SurvivesAt(cfg, events, i, errors, volume))
  {
    if n > 0 {
      WithinThroughoutExactly(cfg, events, errors, volume, n - 1);
      if forall i: nat | i < n - 1 :: SurvivesAt(cfg, events, i, errors, volume) {
        EventKeeps(cfg, events, n - 1, errors, volume);
      }
    }
  }

  /** On an empty Redis nothing short of all the writes will do, once one is made. */
  lemma FirstErrorExactly(cfg: Config, e: Event)
    requires cfg.Valid() && IsError(e)
    ensures var redis := Run(cfg, [e]);
            Within(Lookup(redis, EventKey(cfg, e, Errors)), Lookup(redis, EventKey(cfg, e, Volume)), e.now) <==>
            e.writes == 0 || Complete(e)
  {
    PartialWritesExactly(cfg, [], e, e.now, map[]);
    assert [] + [e] == [e] && cfg.Ttl() > 0.0;
  }

  /** The counter will never expire by itself. */
  predicate Immortal(counter: Option<Counter>) {
    counter.Some? && counter.value.expires.None?
  }

  /** Event i created the key, its EXPIRE failed, and no later EXPIRE on the key succeeded. */
  ghost predicate ImmortalSince(cfg: Config, events: seq<Event>, k: Key, i: nat)
    requires cfg.Valid()
  {
    && i < |events| && IncrDone(cfg, events[i], k) && !Live(Run(cfg, events[..i]), k, events[i].now)
    && forall j | i <= j < |events| :: !ExpireDone(cfg, events[j], k)
  }

  lemma ImmortalInLonger(cfg: Config, front: seq<Event>, e: Event, k: Key, i: nat)
    requires cfg.Valid() && i < |front|
    ensures ImmortalSince(cfg, front + [e], k, i) <==>
            ImmortalSince(cfg, front, k, i) && !ExpireDone(cfg, e, k)
  {
    var events := front + [e];
    assert events[..i] == front[..i] && events[i] == front[i] && events[|front|] == e;
    if ImmortalSince(cfg, events, k, i) {
      forall j | i <= j < |front| ensures !ExpireDone(cfg, front[j], k) {
        assert events[j] == front[j];
      }
    }
  }

  lemma ImmortalStep(ttl: real, counter: Option<Counter>, now: real, incr: bool, expire: bool)
    requires expire ==> incr
    ensures Immortal(SeePartly(ttl, counter, now, incr, expire)) <==>
            !expire && (Immortal(counter) || (incr && !Alive(counter, now)))
  {}

  /** In every run, whichever writes fail: a key has no TTL exactly when the event that created
      it failed to set one and no later one has. */
  lemma {:induction false} NoTtlExactly(cfg: Config, events: seq<Event>, k: Key)
    requires cfg.Valid()
    ensures Immortal(Lookup(Run(cfg, events), k)) <==> exists i: nat :: ImmortalSince(cfg, events, k, i)
  {
    if events != [] {
      var n := |events| - 1;
      var front, e := events[..n], events[n];
      assert events == front + [e];
      NoTtlExactly(cfg, front, k);
      StepOnKeyPartly(cfg, Run(cfg, front), e, k);
      ImmortalStep(cfg.Ttl(), Lookup(Run(cfg, front), k), e.now, IncrDone(cfg, e, k), ExpireDone(cfg, e, k));
      NewOrOld(cfg, front, e, k);
    }
  }

  lemma NewOrOld(cfg: Config, front: seq<Event>, e: Event, k: Key)
    requires cfg.Valid()
    ensures (exists i: nat :: ImmortalSince(cfg, front + [e], k, i)) <==>
            !ExpireDone(cfg, e, k)
            && ((exists i: nat :: ImmortalSince(cfg, front, k, i))
                || (IncrDone(cfg, e, k) && !Live(Run(cfg, front), k, e.now)))
  {
    var n := |front|;
    assert (front + [e])[..n] == front && (front + [e])[n] == e;
    assert ImmortalSince(cfg, front + [e], k, n) <==>
           IncrDone(cfg, e, k) && !Live(Run(cfg, front), k, e.now) && !ExpireDone(cfg, e, k);
    if i: nat :| ImmortalSince(cfg, front + [e], k, i) && i < n {
      ImmortalInLonger(cfg, front, e, k, i);
    }
    if i: nat :| ImmortalSince(cfg, front, k, i) {
      ImmortalInLonger(cfg, front, e, k, i);
    }
  }

  // ----- How many buckets are live -----

  function CeilDiv(x: int, y: int): int
    requires y > 0
  {
    (x + y - 1) / y
  }

  /** Event times trail the Redis clock by at most lag seconds. */
  ghost predicate Trailing(events: seq<Event>, lag: nat) {
    forall i | 0 <= i < |events| :: events[i].now - lag as real <= events[i].timestamp <= events[i].now
  }

  ghost function LiveEpochs(redis: Redis, tenant: string, service: string, metric: Metric, t: real): set<int> {
    set k | k in redis && Live(redis, k, t)
            && k.tenant == tenant && k.service == service && k.metric == metric :: k.epoch
  }

  /** Whatever the log volume, the live buckets of one metric of one service number at most
      ceil((2 window + lag) / bucket) + 1. */
  lemma LiveBucketBound(cfg: Config, events: seq<Event>, tenant: string, service: string, metric: Metric, t: real,
                        lag: nat)
    requires cfg.Valid() && Orderly(events) && Trailing(events, lag)
    requires forall i | 0 <= i < |events| :: events[i].now <= t
    ensures |LiveEpochs(Run(cfg, events), tenant, service, metric, t)|
         <= CeilDiv(2 * cfg.windowSeconds + lag, cfg.bucketSeconds) + 1
  {
    var live := LiveEpochs(Run(cfg, events), tenant, service, metric, t);
    var length, b := 2 * cfg.windowSeconds + lag, cfg.bucketSeconds;
    var oldest := t - length as real;
    forall epoch | epoch in live ensures exists q :: InWindow(b, oldest, t, q) && IsMultiple(epoch, b, q) {
      var h := RecentHit(cfg, events, Key(tenant, service, metric, epoch), t);
      EpochInWindow(cfg, events[h].timestamp, oldest, t);
    }
    EpochsInWindow(live, b, oldest, t, length);
  }

  lemma RecentHit(cfg: Config, events: seq<Event>, k: Key, t: real) returns (h: nat)
    requires cfg.Valid() && Orderly(events) && Live(Run(cfg, events), k, t)
    ensures h < |events| && BucketEpoch(cfg, events[h].timestamp) == k.epoch && t < events[h].now + cfg.Ttl()
  {
    CounterIsHitsSinceCreation(cfg, events, k, t);
    h :| 0 <= h < |events| && Marks(cfg, events, k)[h].hit && t < events[h].now + cfg.Ttl();
  }

  predicate InWindow(b: int, oldest: real, newest: real, q: int)
    requires b > 0
  {
    WholeSeconds(oldest) / b <= q <= WholeSeconds(newest) / b
  }

  lemma EpochInWindow(cfg: Config, timestamp: real, oldest: real, newest: real)
    requires cfg.Valid() && oldest <= timestamp <= newest
    ensures exists q :: InWindow(cfg.bucketSeconds, oldest, newest, q)
                        && IsMultiple(BucketEpoch(cfg, timestamp), cfg.bucketSeconds, q)
  {
    var b, x := cfg.bucketSeconds, WholeSeconds(timestamp);
    WholeSecondsMonotone(oldest, timestamp);
    WholeSecondsMonotone(timestamp, newest);
    QuotientMonotone(WholeSeconds(oldest), x, b);
    QuotientMonotone(x, WholeSeconds(newest), b);
    assert IsMultiple(BucketEpoch(cfg, timestamp), b, x / b);
  }

  lemma EpochsInWindow(epochs: set<int>, b: int, oldest: real, newest: real, length: nat)
    requires b > 0 && newest - oldest == length as real
    requires forall epoch | epoch in epochs :: exists q :: InWindow(b, oldest, newest, q) && IsMultiple(epoch, b, q)
    ensures |epochs| <= CeilDiv(length, b) + 1
  {
    var first, last := WholeSeconds(oldest), WholeSeconds(newest);
    WholeSecondsApart(oldest, newest, length);
    WholeSecondsMonotone(oldest, newest);
    QuotientMonotone(first, last, b);
    QuotientsApart(first, last, length, b, CeilDiv(length, b));
    forall epoch | epoch in epochs ensures Between(epoch, b, first / b, last / b) {
      var q :| InWindow(b, oldest, newest, q) && IsMultiple(epoch, b, q);
    }
    MultiplesBetween(epochs, b, first / b, last / b);
  }

  ghost predicate Between(x: int, b: int, low: int, high: int) {
    exists q :: low <= q <= high && IsMultiple(x, b, q)
  }

  lemma WholeSecondsMonotone(s: real, s': real)
    requires s <= s'
    ensures WholeSeconds(s) <= WholeSeconds(s')
  {}

  lemma WholeSecondsApart(s: real, s': real, length: nat)
    requires s' - s <= length as real
    ensures WholeSeconds(s') - WholeSeconds(s) <= length
  {}

  lemma Quotient(x: int, b: int, q: int)
    requires b > 0 && q == x / b
    ensures q * b <= x < q * b + b
  {}

  lemma Scaled(x: int, y: int, b: int)
    requires b > 0 && x <= y
    ensures x * b <= y * b
  {}

  lemma Less(x: int, y: int, b: int)
    requires b > 0 && x * b < y * b
    ensures x < y
  {
    if y <= x {
      Scaled(y, x, b);
    }
  }

  lemma QuotientMonotone(x: int, y: int, b: int)
    requires b > 0 && x <= y
    ensures x / b <= y / b
  {
    var p, q := x / b, y / b;
    Quotient(x, b, p);
    Quotient(y, b, q);
    assert (q + 1) * b == q * b + b;
    Less(p, q + 1, b);
  }

  lemma QuotientsApart(x: int, y: int, length: nat, b: int, c: int)
    requires b > 0 && y - x <= length && c == CeilDiv(length, b)
    ensures y / b <= x / b + c
  {
    var p, q := x / b, y / b;
    Quotient(x, b, p);
    Quotient(y, b, q);
    Quotient(length + b - 1, b, c);
    assert (p + 1 + c) * b == p * b + b + c * b;
    Less(q, p + 1 + c, b);
  }

  lemma {:induction false} MultiplesBetween(xs: set<int>, b: int, low: int, high: int)
    requires low <= high + 1
    requires forall x | x in xs :: Between(x, b, low, high)
    ensures |xs| <= high - low + 1
    decreases high - low + 1
  {
    if low == high + 1 {
      assert forall x :: !Between(x, b, low, high);
      assert forall x :: x !in xs;
      assert xs == {};
    } else {
      var top := high * b;
      var rest := xs - {top};
      forall x | x in rest ensures Between(x, b, low, high - 1) {
        assert Between(x, b, low, high);
        var q :| low <= q <= high && IsMultiple(x, b, q);
        assert q != high;
      }
      MultiplesBetween(rest, b, low, high - 1);
      assert xs <= rest + {top};
      Subset(xs, rest, top);
    }
  }

  lemma Subset(xs: set<int>, rest: set<int>, top: int)
    requires rest == xs - {top}
    ensures |xs| <= |rest| + 1
  {
    if top in xs {
      assert xs == rest + {top};
    } else {
      assert xs == rest;
    }
  }

  // ----- Collecting a baseline -----

  predicate Matches(k: Key, tenant: string, service: string, metric: Metric) {
    k.tenant == tenant && k.service == service && k.metric == metric
  }

  /** ks has only matching keys, and every one that is live, possibly several times. */
  ghost predicate Covers(redis: Redis, t: real, tenant: string, service: string, metric: Metric, ks: seq<Key>) {
    && (forall i | 0 <= i < |ks| :: Matches(ks[i], tenant, service, metric))
    && forall k | Live(redis, k, t) && Matches(k, tenant, service, metric) :: k in ks
  }

  /** ks lists every key that is live and matches, once each, and possibly keys that have
      just expired. */
  ghost predicate Lists(redis: Redis, t: real, tenant: string, service: string, metric: Metric, ks: seq<Key>) {
    Distinct(ks) && Covers(redis, t, tenant, service, metric, ks)
  }

  predicate Counted(redis: Redis, t: real, current: Key, k: Key) {
    Live(redis, k, t) && k != current
  }

  /** The counts of the live keys of ks other than the current one. */
  function Baseline(redis: Redis, t: real, current: Key, ks: seq<Key>): multiset<real> {
    if ks == [] then multiset{} else CountOf(redis, t, current, ks[0]) + Baseline(redis, t, current, ks[1..])
  }

  function CountOf(redis: Redis, t: real, current: Key, k: Key): multiset<real> {
    if Counted(redis, t, current, k) then multiset{redis[k].value as real} else multiset{}
  }

  function CurrentValue(redis: Redis, t: real, current: Key): real {
    if Live(redis, current, t) then redis[current].value as real else 0.0
  }

  lemma {:induction false} BaselineWithout(redis: Redis, t: real, current: Key, ks: seq<Key>, i: nat)
    requires i < |ks|
    ensures Baseline(redis, t, current, ks)
         == CountOf(redis, t, current, ks[i]) + Baseline(redis, t, current, ks[..i] + ks[i + 1..])
  {
    var rest := ks[..i] + ks[i + 1..];
    if i == 0 {
      assert rest == ks[1..];
    } else {
      BaselineWithout(redis, t, current, ks[1..], i - 1);
      assert rest[1..] == ks[1..][..i - 1] + ks[1..][i..];
    }
  }

  lemma {:induction false} BaselineAppend(redis: Redis, t: real, current: Key, ks: seq<Key>, k: Key)
    ensures Baseline(redis, t, current, ks + [k]) == Baseline(redis, t, current, ks) + CountOf(redis, t, current, k)
  {
    BaselineWithout(redis, t, current, ks + [k], |ks|);
    assert (ks + [k])[..|ks|] + (ks + [k])[|ks| + 1..] == ks;
  }

  /** No key that is counted occurs twice. */
  ghost predicate CountedOnce(redis: Redis, t: real, current: Key, ks: seq<Key>) {
    forall i, j | 0 <= i < j < |ks| && ks[i] == ks[j] :: !Counted(redis, t, current, ks[i])
  }

  lemma WithoutOne(redis: Redis, t: real, current: Key, ks: seq<Key>, i: nat)
    requires i < |ks|
    ensures forall x | x != ks[i] :: x in ks[..i] + ks[i + 1..] <==> x in ks
    ensures CountedOnce(redis, t, current, ks) ==>
              && CountedOnce(redis, t, current, ks[..i] + ks[i + 1..])
              && (Counted(redis, t, current, ks[i]) ==> ks[i] !in ks[..i] + ks[i + 1..])
  {
    var rest := ks[..i] + ks[i + 1..];
    forall x | x in ks && x != ks[i] ensures x in rest {
      var j := IndexOf(ks, x);
      assert x == rest[if j < i then j else j - 1];
    }
    forall j | 0 <= j < |rest| ensures rest[j] == ks[if j < i then j else j + 1] {}
  }

  /** Any two listings of the live keys that repeat none give the same counts. */
  lemma {:induction false} ListingsAgree(redis: Redis, t: real, current: Key, ks: seq<Key>, js: seq<Key>)
    requires CountedOnce(redis, t, current, ks) && CountedOnce(redis, t, current, js)
    requires forall k | Counted(redis, t, current, k) :: k in ks <==> k in js
    ensures Baseline(redis, t, current, ks) == Baseline(redis, t, current, js)
  {
    if ks == [] {
      NothingCounted(redis, t, current, js);
    } else {
      WithoutOne(redis, t, current, ks, 0);
      assert ks[..0] + ks[1..] == ks[1..];
      if Counted(redis, t, current, ks[0]) {
        var i := IndexOf(js, ks[0]);
        WithoutOne(redis, t, current, js, i);
        BaselineWithout(redis, t, current, js, i);
        ListingsAgree(redis, t, current, ks[1..], js[..i] + js[i + 1..]);
      } else {
        ListingsAgree(redis, t, current, ks[1..], js);
      }
    }
  }

  /** A listing has at least as many counts as one that repeats none. */
  lemma {:induction false} AtLeastAsMany(redis: Redis, t: real, current: Key, ks: seq<Key>, js: seq<Key>)
    requires CountedOnce(redis, t, current, js)
    requires forall k | Counted(redis, t, current, k) && k in js :: k in ks
    ensures |Baseline(redis, t, current, ks)| >= |Baseline(redis, t, current, js)|
    decreases js
  {
    if js != [] {
      var rest := js[1..];
      WithoutOne(redis, t, current, js, 0);
      assert js[..0] + rest == rest;
      if Counted(redis, t, current, js[0]) {
        var i := IndexOf(ks, js[0]);
        var others := ks[..i] + ks[i + 1..];
        WithoutOne(redis, t, current, ks, i);
        AtLeastAsMany(redis, t, current, others, rest);
        OneCountMore(redis, t, current, ks, i, Baseline(redis, t, current, others));
        OneCountMore(redis, t, current, js, 0, Baseline(redis, t, current, rest));
      } else {
        AtLeastAsMany(redis, t, current, ks, rest);
      }
    }
  }

  lemma OneCountMore(redis: Redis, t: real, current: Key, ks: seq<Key>, i: nat, others: multiset<real>)
    requires i < |ks| && Counted(redis, t, current, ks[i])
    requires others == Baseline(redis, t, current, ks[..i] + ks[i + 1..])
    ensures |Baseline(redis, t, current, ks)| == |others| + 1
  {
    BaselineWithout(redis, t, current, ks, i);
  }

  /** A counted key that occurs twice adds a count too many. */
  lemma RepeatAdds(redis: Redis, t: real, current: Key, ks: seq<Key>, js: seq<Key>, i: nat, j: nat)
    requires i < j < |ks| && ks[i] == ks[j] && Counted(redis, t, current, ks[i])
    requires CountedOnce(redis, t, current, js)
    requires forall k | Counted(redis, t, current, k) && k in js :: k in ks
    ensures |Baseline(redis, t, current, ks)| > |Baseline(redis, t, current, js)|
  {
    var rest := ks[..j] + ks[j + 1..];
    assert rest[i] == ks[j];
    WithoutOne(redis, t, current, ks, j);
    BaselineWithout(redis, t, current, ks, j);
    AtLeastAsMany(redis, t, current, rest, js);
  }

  lemma {:induction false} NothingCounted(redis: Redis, t: real, current: Key, ks: seq<Key>)
    requires forall k | Counted(redis, t, current, k) :: k !in ks
    ensures Baseline(redis, t, current, ks) == multiset{}
  {
    if ks != [] {
      assert ks[0] in ks;
      NothingCounted(redis, t, current, ks[1..]);
    }
  }

  lemma SameCounted(redis: Redis, t: real, tenant: string, service: string, metric: Metric, ks: seq<Key>,
                    js: seq<Key>, k: Key)
    requires Covers(redis, t, tenant, service, metric, ks) && Covers(redis, t, tenant, service, metric, js)
    requires Live(redis, k, t)
    ensures k in ks <==> k in js
  {
    if k in ks {
      assert Matches(ks[IndexOf(ks, k)], tenant, service, metric);
    }
    if k in js {
      assert Matches(js[IndexOf(js, k)], tenant, service, metric);
    }
  }

  /** The counters that are live and match, except the current one, with this count. */
  ghost function Others(redis: Redis, t: real, tenant: string, service: string, metric: Metric, current: Key,
                        count: real): set<Key> {
    set k | && k in redis && (redis[k].expires == None || t < redis[k].expires.value)
            && k.tenant == tenant && k.service == service && k.metric == metric && k != current
            && redis[k].value as real == count
  }

  function CountedWith(redis: Redis, t: real, current: Key, ks: seq<Key>, count: real): set<Key> {
    set k | k in ks && Counted(redis, t, current, k) && redis[k].value as real == count
  }

  lemma {:induction false} BaselineCounts(redis: Redis, t: real, current: Key, ks: seq<Key>, count: real)
    requires Distinct(ks)
    ensures Baseline(redis, t, current, ks)[count] == |CountedWith(redis, t, current, ks, count)|
  {
    if ks != [] {
      BaselineCounts(redis, t, current, ks[1..], count);
      CountedOneMore(redis, t, current, ks, count);
    }
  }

  lemma CountedOneMore(redis: Redis, t: real, current: Key, ks: seq<Key>, count: real)
    requires Distinct(ks) && ks != []
    ensures |CountedWith(redis, t, current, ks, count)|
         == |CountedWith(redis, t, current, ks[1..], count)| + CountOf(redis, t, current, ks[0])[count]
  {
    var rest, x := CountedWith(redis, t, current, ks[1..], count), ks[0];
    assert ks == [x] + ks[1..] && x !in ks[1..];
    if Counted(redis, t, current, x) && redis[x].value as real == count {
      assert CountedWith(redis, t, current, ks, count) == rest + {x};
    } else {
      assert CountedWith(redis, t, current, ks, count) == rest;
    }
  }

  /** The baseline of a complete listing holds each count as often as there are other live
      counters with it, and the current value is the current counter's, or 0. */
  lemma BaselineExactly(redis: Redis, t: real, current: Key, ks: seq<Key>, count: real)
    requires Lists(redis, t, current.tenant, current.service, current.metric, ks)
    ensures Baseline(redis, t, current, ks)[count]
         == |Others(redis, t, current.tenant, current.service, current.metric, current, count)|
    ensures CurrentValue(redis, t, current)
         == if current in redis && (redis[current].expires == None || t < redis[current].expires.value)
            then redis[current].value as real else 0.0
  {
    BaselineCounts(redis, t, current, ks, count);
    assert CountedWith(redis, t, current, ks, count)
        == Others(redis, t, current.tenant, current.service, current.metric, current, count);
  }

  /** SCAN may return a key more than once, and the loop does not notice: whatever it repeats,
      the baseline is that of a listing without repeats exactly when none of the repeated keys
      is counted. */
  lemma RepeatsExactly(redis: Redis, t: real, tenant: string, service: string, metric: Metric, current: Key,
                       ks: seq<Key>, js: seq<Key>)
    requires Covers(redis, t, tenant, service, metric, ks) && Lists(redis, t, tenant, service, metric, js)
    ensures Baseline(redis, t, current, ks) == Baseline(redis, t, current, js) <==> CountedOnce(redis, t, current, ks)
  {
    forall k | Counted(redis, t, current, k) ensures k in ks <==> k in js {
      SameCounted(redis, t, tenant, service, metric, ks, js, k);
    }
    if CountedOnce(redis, t, current, ks) {
      ListingsAgree(redis, t, current, ks, js);
    } else {
      var i, j :| 0 <= i < j < |ks| && ks[i] == ks[j] && Counted(redis, t, current, ks[i]);
      RepeatAdds(redis, t, current, ks, js, i, j);
    }
  }

  lemma ListsAgree(redis: Redis, t: real, tenant: string, service: string, metric: Metric, current: Key, ks: seq<Key>,
                   js: seq<Key>)
    requires Lists(redis, t, tenant, service, metric, ks) && Lists(redis, t, tenant, service, metric, js)
    ensures Baseline(redis, t, current, ks) == Baseline(redis, t, current, js)
  {
    RepeatsExactly(redis, t, tenant, service, metric, current, ks, js);
  }

  lemma BaselineLast(redis: Redis, t: real, current: Key, ks: seq<Key>)
    requires ks != []
    ensures Baseline(redis, t, current, ks)
         == Baseline(redis, t, current, ks[..|ks| - 1]) + CountOf(redis, t, current, ks[|ks| - 1])
  {
    assert ks == ks[..|ks| - 1] + [ks[|ks| - 1]];
    BaselineAppend(redis, t, current, ks[..|ks| - 1], ks[|ks| - 1]);
  }

  lemma UnionAssociates(whole: multiset<real>, front: multiset<real>, a: multiset<real>, b: multiset<real>,
                        b': multiset<real>, one: multiset<real>)
    requires whole == front + one && front == a + b' && b == b' + one
    ensures whole == a + b
  {}

  lemma {:induction false} BaselineConcat(redis: Redis, t: real, current: Key, ks: seq<Key>, js: seq<Key>,
                                          whole: seq<Key>)
    requires whole == ks + js
    ensures Baseline(redis, t, current, whole) == Baseline(redis, t, current, ks) + Baseline(redis, t, current, js)
    decreases js
  {
    if js == [] {
      assert whole == ks;
    } else {
      var js', front, one := js[..|js| - 1], whole[..|whole| - 1], CountOf(redis, t, current, js[|js| - 1]);
      BaselineConcat(redis, t, current, ks, js', front);
      BaselineLast(redis, t, current, js);
      BaselineLast(redis, t, current, whole);
      UnionAssociates(Baseline(redis, t, current, whole), Baseline(redis, t, current, front),
                      Baseline(redis, t, current, ks), Baseline(redis, t, current, js),
                      Baseline(redis, t, current, js'), one);
    }
  }

  /** What a repeat can do: when a scan returns every key twice the score stays as it was, but a
      baseline of half the minimum length passes. */
  lemma RepeatsPassTheGuard(cfg: Config, sqrt: real -> real, redis: Redis, t: real, current: Key, ks: seq<Key>,
                            values: seq<real>)
    requires cfg.Valid() && multiset(values) == Baseline(redis, t, current, ks)
    ensures multiset(values + values) == Baseline(redis, t, current, ks + ks)
    ensures var c := CurrentValue(redis, t, current);
            Z.Check(sqrt, cfg.minPoints, cfg.threshold, c, values + values).Some? <==>
            && cfg.minPoints <= 2 * |values|
            && Z.Check(sqrt, 0, cfg.threshold, c, values).Some?
  {
    BaselineConcat(redis, t, current, ks, ks, ks + ks);
    Z.DoubledScore(sqrt, CurrentValue(redis, t, current), values);
  }

  // ----- The detector -----

  /** The finding a complete listing of the live buckets leads to, whatever the listing. */
  ghost predicate Judged(cfg: Config, sqrt: real -> real, redis: Redis, t: real, current: Key,
                         finding: Option<Z.Finding>)
    requires cfg.Valid()
  {
    forall ks, values | Lists(redis, t, current.tenant, current.service, current.metric, ks)
                        && multiset(values) == Baseline(redis, t, current, ks) ::
      finding == Z.Check(sqrt, cfg.minPoints, cfg.threshold, CurrentValue(redis, t, current), values)
  }

  /** What the loop has gathered from the keys seen so far. */
  ghost predicate Collected(redis: Redis, t: real, currentKey: Key, seen: seq<Key>, current: real,
                            baseline: seq<real>) {
    && multiset(baseline) == Baseline(redis, t, currentKey, seen)
    && current == if currentKey in seen then CurrentValue(redis, t, currentKey) else 0.0
  }

  lemma CollectOne(redis: Redis, t: real, currentKey: Key, seen: seq<Key>, current: real, baseline: seq<real>, key: Key)
    requires Collected(redis, t, currentKey, seen, current, baseline)
    ensures Collected(redis, t, currentKey, seen + [key],
                      if Live(redis, key, t) && key == currentKey then redis[key].value as real else current,
                      if Counted(redis, t, currentKey, key) then baseline + [redis[key].value as real] else baseline)
  {
    BaselineAppend(redis, t, currentKey, seen, key);
  }

  class Detector {
    const cfg: Config
    var redis: Redis

    constructor (cfg: Config)
      ensures this.cfg == cfg && redis == map[]
    {
      this.cfg, redis := cfg, map[];
    }

    /** Reads every key of every SCAN page and separates the current bucket from the rest. */
    method CollectBucketValues(currentKey: Key, t: real, pages: seq<seq<Key>>)
      returns (current: real, baseline: seq<real>)
      ensures multiset(baseline) == Baseline(redis, t, currentKey, Flatten(pages))
      ensures current == if currentKey in Flatten(pages) then CurrentValue(redis, t, currentKey) else 0.0
    {
      current, baseline := 0.0, [];
      ghost var seen: seq<Key> := [];
      for p := 0 to |pages|
        invariant seen == Flatten(pages[..p])
        invariant Collected(redis, t, currentKey, seen, current, baseline)
      {
        var keys := pages[p];
        for j := 0 to |keys|
          invariant seen == Flatten(pages[..p]) + keys[..j]
          invariant Collected(redis, t, currentKey, seen, current, baseline)
        {
          var key := keys[j];
          CollectOne(redis, t, currentKey, seen, current, baseline, key);
          PageOneMore(pages, p, j);
          seen := seen + [key];
          if Live(redis, key, t) {
            var count := redis[key].value as real;
            if key == currentKey {
              current := count;
            } else {
              baseline := baseline + [count];
            }
          }
        }
        FlattenOneMore(pages, p);
      }
      assert pages[..|pages|] == pages;
    }

    method RunZScoreCheck(currentKey: Key, t: real, pages: seq<seq<Key>>, sqrt: real -> real)
      returns (finding: Option<Z.Finding>)
      requires cfg.Valid()
      requires Lists(redis, t, currentKey.tenant, currentKey.service, currentKey.metric, Flatten(pages))
      ensures Judged(cfg, sqrt, redis, t, currentKey, finding)
    {
      var current, baseline := CollectBucketValues(currentKey, t, pages);
      finding := Z.Check(sqrt, cfg.minPoints, cfg.threshold, current, baseline);
      forall ks, values | Lists(redis, t, currentKey.tenant, currentKey.service, currentKey.metric, ks)
                          && multiset(values) == Baseline(redis, t, currentKey, ks)
        ensures finding == Z.Check(sqrt, cfg.minPoints, cfg.threshold, CurrentValue(redis, t, currentKey), values)
      {
        ListsAgree(redis, t, currentKey.tenant, currentKey.service, currentKey.metric, currentKey, ks, Flatten(pages));
        Z.OrderIrrelevant(sqrt, cfg.minPoints, cfg.threshold, current, baseline, values);
      }
    }

    /** Counts the event, then looks for an error spike and, failing that, a volume spike. A
        Redis error (a missing write, or pages that could not be read) means no alert. */
    method UpdateAndCheck(e: Event, sqrt: real -> real, errorPages: Option<seq<seq<Key>>>,
                          volumePages: Option<seq<seq<Key>>>)
      returns (alert: Option<Alert>)
      requires cfg.Valid()
      requires errorPages.Some? ==>
                 Lists(Step(cfg, redis, e), e.now, e.tenant, e.service, Errors, Flatten(errorPages.value))
      requires volumePages.Some? ==>
                 Lists(Step(cfg, redis, e), e.now, e.tenant, e.service, Volume, Flatten(volumePages.value))
      modifies `redis
      ensures redis == Step(cfg, old(redis), e)
      ensures !Complete(e) || errorPages.None? ==> alert == None
      ensures Complete(e) && errorPages.Some? ==>
                exists errors :: Judged(cfg, sqrt, redis, e.now, EventKey(cfg, e, Errors), errors) &&
                  if errors.Some? then alert == Some(Alert(Errors, errors.value))
                  else if volumePages.None? then alert == None
                  else exists volume :: Judged(cfg, sqrt, redis, e.now, EventKey(cfg, e, Volume), volume) &&
                         alert == if volume.Some? then Some(Alert(Volume, volume.value)) else None
    {
      var errorKey, volumeKey := EventKey(cfg, e, Errors), EventKey(cfg, e, Volume);
      var writes := e.writes;
      if IsError(e) {
        if writes >= 1 { redis := Incr(redis, errorKey, e.now); }
        if writes >= 2 { redis := Expire(redis, errorKey, e.now, cfg.Ttl()); }
        writes := if writes >= 2 then writes - 2 else 0;
      }
      if writes >= 1 { redis := Incr(redis, volumeKey, e.now); }
      if writes >= 2 { redis := Expire(redis, volumeKey, e.now, cfg.Ttl()); }
      if !Complete(e) || errorPages.None? {
        return None;
      }
      var errors := RunZScoreCheck(errorKey, e.now, errorPages.value, sqrt);
      if errors.Some? {
        return Some(Alert(Errors, errors.value));
      }
      if volumePages.None? {
        return None;
      }
      var volume := RunZScoreCheck(volumeKey, e.now, volumePages.value, sqrt);
      alert := if volume.Some? then Some(Alert(Volume, volume.value)) else None;
    }
  }
}
