/** API-key verification: a cache with a TTL in front of the tenant table, with any number of
    requests interleaved between the cache lookup, the database read and the cache write. */
module TenantCache {
  import opened Wrappers

  type Hash = string
  type Row = string

  datatype Entry = Entry(row: Row, cachedAt: real)

  type Store = map<Hash, Entry>

  // ----- The cache -----

  /** The row of an entry that is not older than the TTL. */
  function Lookup(store: Store, ttl: real, h: Hash, now: real): Option<Row> {
    if h in store && now - store[h].cachedAt <= ttl then Some(store[h].row) else None
  }

  /** A lookup evicts the entry it finds expired. */
  function AfterLookup(store: Store, ttl: real, h: Hash, now: real): Store {
    if h in store && now - store[h].cachedAt > ttl then store - {h} else store
  }

  /** The cache after some lookups at given times. */
  function AfterLookups(store: Store, ttl: real, lookups: seq<(Hash, real)>): Store {
    if lookups == [] then store
    else
      var n := |lookups| - 1;
      AfterLookup(AfterLookups(store, ttl, lookups[..n]), ttl, lookups[n].0, lookups[n].1)
  }

  /** Whatever is looked up in between, an entry is found until it is older than the TTL and not
      after that; and lookups never change a row or its time. */
  lemma {:induction false} FoundUntilExpiry(store: Store, ttl: real, lookups: seq<(Hash, real)>, h: Hash, now: real)
    requires forall i | 0 <= i < |lookups| :: lookups[i].1 <= now
    ensures Lookup(AfterLookups(store, ttl, lookups), ttl, h, now)
         == if h in store && now <= store[h].cachedAt + ttl then Some(store[h].row) else None
    ensures h in AfterLookups(store, ttl, lookups) ==> h in store && AfterLookups(store, ttl, lookups)[h] == store[h]
  {
    if lookups != [] {
      FoundUntilExpiry(store, ttl, lookups[..|lookups| - 1], h, now);
    }
  }

  /** An expired entry is evicted by the lookup that finds it, and only then. */
  lemma EvictedExactly(store: Store, ttl: real, h: Hash, now: real)
    ensures AfterLookup(store, ttl, h, now)
         == if h in store && now > store[h].cachedAt + ttl then map k | k in store && k != h :: store[k] else store
  {}

  class TenantCache {
    const ttl: real
    var store: Store

    constructor (ttl: real)
      ensures this.ttl == ttl && store == map[]
    {
      this.ttl, store := ttl, map[];
    }

    method Get(h: Hash, now: real) returns (row: Option<Row>)
      modifies `store
      ensures row == Lookup(old(store), ttl, h, now)
      ensures store == AfterLookup(old(store), ttl, h, now)
    {
      if h !in store {
        return None;
      }
      var age := now - store[h].cachedAt;
      if age > ttl {
        store := store - {h};
        return None;
      }
      return Some(store[h].row);
    }

    method Set(h: Hash, row: Row, now: real)
      modifies `store
      ensures store == old(store)[h := Entry(row, now)]
    {
      store := store[h := Entry(row, now)];
    }
  }

  // ----- Interleaved requests -----

  /** A request that missed the cache, and then what the database returned to it. */
  datatype Pending = Missed(h: Hash) | Fetched(h: Hash, row: Row, readAt: real)

  /** The steps requests and the owner of the table take, in any order. */
  datatype Action =
    | Begin(request: int, h: Hash)
    | ReadTable(request: int)
    | WriteCache(request: int)
    | Cancel(request: int)
    | ChangeRow(h: Hash, row: Option<Row>)

  datatype Timed = Timed(at: real, action: Action)

  /** An answer given to a request. */
  datatype Served = Served(h: Hash, row: Row, at: real)

  /** The tenant table at the instant of one step. */
  datatype Snapshot = Snapshot(at: real, table: map<Hash, Row>)

  datatype State = State(store: Store, table: map<Hash, Row>, pending: map<int, Pending>,
                         served: seq<Served>, history: seq<Snapshot>)

  const INIT := State(map[], map[], map[], [], [])

  function Step(ttl: real, s: State, e: Timed): State {
    Act(ttl, s.(history := s.history + [Snapshot(e.at, s.table)]), e)
  }

  function Act(ttl: real, s: State, e: Timed): State {
    match e.action
    case Begin(request, h) =>
      var left := s.(store := AfterLookup(s.store, ttl, h, e.at));
      (match Lookup(s.store, ttl, h, e.at)
       case Some(row) => left.(served := s.served + [Served(h, row, e.at)])
       case None => left.(pending := s.pending[request := Missed(h)]))
    case ReadTable(request) =>
      if request !in s.pending || !s.pending[request].Missed? then s
      else
        var h := s.pending[request].h;
        if h in s.table then s.(pending := s.pending[request := Fetched(h, s.table[h], e.at)])
        else s.(pending := s.pending - {request})
    case WriteCache(request) =>
      if request !in s.pending || !s.pending[request].Fetched? then s
      else
        var p := s.pending[request];
        s.(store := s.store[p.h := Entry(p.row, e.at)], pending := s.pending - {request},
           served := s.served + [Served(p.h, p.row, e.at)])
    case Cancel(request) => s.(pending := s.pending - {request})
    case ChangeRow(h, row) =>
      s.(table := if row.Some? then s.table[h := row.value] else s.table - {h})
  }

  function Run(ttl: real, events: seq<Timed>): State {
    if events == [] then INIT else Step(ttl, Run(ttl, events[..|events| - 1]), events[|events| - 1])
  }

  /** A request that nothing interrupts is answered with the cached row, if that is no older than
      the TTL, or else with the table's, which it then caches; without either it gets none. */
  lemma RequestExactly(ttl: real, s: State, request: int, h: Hash, begun: real, read: real, written: real)
    requires request !in s.pending && begun <= read <= written
    ensures var valid := h in s.store && begun <= s.store[h].cachedAt + ttl;
            var s1 := Step(ttl, s, Timed(begun, Begin(request, h)));
            var s2 := Step(ttl, s1, Timed(read, ReadTable(request)));
            var s3 := Step(ttl, s2, Timed(written, WriteCache(request)));
            && s3.served == s.served
                 + (if valid then [Served(h, s.store[h].row, begun)]
                    else if h in s.table then [Served(h, s.table[h], written)] else [])
            && (h in s3.store <==> valid || h in s.table)
            && (h in s3.store ==> s3.store[h] == if valid then s.store[h] else Entry(s.table[h], written))
            && (forall k | k in s.store && k != h :: k in s3.store && s3.store[k] == s.store[k])
            && s3.pending == s.pending && s3.table == s.table
  {}

  /** Time does not run backwards, and no request takes longer than delay from its database
      read to its cache write. */
  ghost predicate Prompt(ttl: real, events: seq<Timed>, delay: real) {
    && (forall i, j | 0 <= i < j < |events| :: events[i].at <= events[j].at)
    && forall i | 0 <= i < |events| :: PromptWrite(Run(ttl, events[..i]), events[i], delay)
  }

  ghost predicate PromptWrite(s: State, e: Timed, delay: real) {
    match e.action
    case WriteCache(request) =>
      request in s.pending && s.pending[request].Fetched? ==> e.at - s.pending[request].readAt <= delay
    case _ => true
  }

  // ----- Staleness -----

  /** The table held this row for the hash at some time no earlier than since and no later
      than until. */
  ghost predicate Held(history: seq<Snapshot>, h: Hash, row: Row, since: real, until: real) {
    exists i :: 0 <= i < |history| && since <= history[i].at <= until && HasRow(history[i].table, h, row)
  }

  predicate HasRow(table: map<Hash, Row>, h: Hash, row: Row) {
    h in table && table[h] == row
  }

  /** Every cached row was the table's at most delay before it was cached. */
  ghost predicate StoreSourced(history: seq<Snapshot>, store: Store, delay: real) {
    forall h | h in store :: Held(history, h, store[h].row, store[h].cachedAt - delay, store[h].cachedAt)
  }

  /** Every fetched row was the table's when it was read. */
  ghost predicate PendingSourced(history: seq<Snapshot>, pending: map<int, Pending>) {
    forall r | r in pending && pending[r].Fetched? ::
      Held(history, pending[r].h, pending[r].row, pending[r].readAt, pending[r].readAt)
  }

  /** Every row served at t was the table's at some time in [t - bound, t]. */
  ghost predicate ServedSourced(history: seq<Snapshot>, served: seq<Served>, bound: real) {
    forall i | 0 <= i < |served| :: Held(history, served[i].h, served[i].row, served[i].at - bound, served[i].at)
  }

  ghost predicate Sourced(s: State, ttl: real, delay: real) {
    && StoreSourced(s.history, s.store, delay)
    && PendingSourced(s.history, s.pending)
    && ServedSourced(s.history, s.served, ttl + delay)
  }

  lemma HeldLonger(history: seq<Snapshot>, last: Snapshot, h: Hash, row: Row, since: real, until: real)
    requires Held(history, h, row, since, until)
    ensures Held(history + [last], h, row, since, until)
  {
    var i :| 0 <= i < |history| && since <= history[i].at <= until && HasRow(history[i].table, h, row);
    assert (history + [last])[i] == history[i];
  }

  lemma HeldNow(history: seq<Snapshot>, last: Snapshot, h: Hash, row: Row)
    requires HasRow(last.table, h, row)
    ensures Held(history + [last], h, row, last.at, last.at)
  {
    assert (history + [last])[|history|] == last;
  }

  lemma Widen(history: seq<Snapshot>, h: Hash, row: Row, since: real, until: real, since': real, until': real)
    requires Held(history, h, row, since, until) && since' <= since && until <= until'
    ensures Held(history, h, row, since', until')
  {}

  lemma SnapshotKeepsSourced(s: State, last: Snapshot, ttl: real, delay: real)
    requires Sourced(s, ttl, delay)
    ensures Sourced(s.(history := s.history + [last]), ttl, delay)
  {
    forall h | h in s.store
      ensures Held(s.history + [last], h, s.store[h].row, s.store[h].cachedAt - delay, s.store[h].cachedAt)
    {
      HeldLonger(s.history, last, h, s.store[h].row, s.store[h].cachedAt - delay, s.store[h].cachedAt);
    }
    forall r | r in s.pending && s.pending[r].Fetched?
      ensures Held(s.history + [last], s.pending[r].h, s.pending[r].row, s.pending[r].readAt, s.pending[r].readAt)
    {
      HeldLonger(s.history, last, s.pending[r].h, s.pending[r].row, s.pending[r].readAt, s.pending[r].readAt);
    }
    forall i | 0 <= i < |s.served|
      ensures Held(s.history + [last], s.served[i].h, s.served[i].row, s.served[i].at - (ttl + delay), s.served[i].at)
    {
      HeldLonger(s.history, last, s.served[i].h, s.served[i].row, s.served[i].at - (ttl + delay), s.served[i].at);
    }
  }

  lemma ServeKeepsSourced(history: seq<Snapshot>, served: seq<Served>, a: Served, bound: real)
    requires ServedSourced(history, served, bound) && Held(history, a.h, a.row, a.at - bound, a.at)
    ensures ServedSourced(history, served + [a], bound)
  {}

  lemma BeginKeepsSourced(ttl: real, s: State, e: Timed, delay: real)
    requires e.action.Begin? && Sourced(s, ttl, delay) && Past(s, e.at)
    ensures Sourced(Act(ttl, s, e), ttl, delay)
  {
    var h := e.action.h;
    if Lookup(s.store, ttl, h, e.at).Some? {
      var entry := s.store[h];
      Widen(s.history, h, entry.row, entry.cachedAt - delay, entry.cachedAt, e.at - (ttl + delay), e.at);
      ServeKeepsSourced(s.history, s.served, Served(h, entry.row, e.at), ttl + delay);
    }
  }

  lemma WriteKeepsSourced(ttl: real, s: State, e: Timed, delay: real)
    requires e.action.WriteCache? && ttl >= 0.0 && Sourced(s, ttl, delay) && Past(s, e.at) && PromptWrite(s, e, delay)
    ensures Sourced(Act(ttl, s, e), ttl, delay)
  {
    var r := e.action.request;
    if r in s.pending && s.pending[r].Fetched? {
      var p := s.pending[r];
      Widen(s.history, p.h, p.row, p.readAt, p.readAt, e.at - delay, e.at);
      Widen(s.history, p.h, p.row, p.readAt, p.readAt, e.at - (ttl + delay), e.at);
      ServeKeepsSourced(s.history, s.served, Served(p.h, p.row, e.at), ttl + delay);
    }
  }

  lemma ReadKeepsSourced(ttl: real, s: State, e: Timed, delay: real)
    requires e.action.ReadTable? && Sourced(s, ttl, delay)
    requires forall h | h in s.table :: Held(s.history, h, s.table[h], e.at, e.at)
    ensures Sourced(Act(ttl, s, e), ttl, delay)
  {}

  lemma StepKeepsSourced(ttl: real, s: State, e: Timed, delay: real)
    requires ttl >= 0.0 && Sourced(s, ttl, delay) && Past(s, e.at) && PromptWrite(s, e, delay)
    ensures Sourced(Step(ttl, s, e), ttl, delay)
  {
    var last := Snapshot(e.at, s.table);
    var s' := s.(history := s.history + [last]);
    SnapshotKeepsSourced(s, last, ttl, delay);
    match e.action
    case Begin(_, _) => BeginKeepsSourced(ttl, s', e, delay);
    case ReadTable(_) =>
      forall h | h in s.table ensures Held(s'.history, h, s.table[h], e.at, e.at) {
        HeldNow(s.history, last, h, s.table[h]);
      }
      ReadKeepsSourced(ttl, s', e, delay);
    case WriteCache(_) => WriteKeepsSourced(ttl, s', e, delay);
    case Cancel(_) =>
    case ChangeRow(_, _) =>
  }

  /** Cached and fetched rows carry times that have passed. */
  ghost predicate Past(s: State, now: real) {
    && (forall h | h in s.store :: s.store[h].cachedAt <= now)
    && (forall r | r in s.pending && s.pending[r].Fetched? :: s.pending[r].readAt <= now)
  }

  lemma StepKeepsPast(ttl: real, s: State, e: Timed, now: real)
    requires Past(s, e.at) && e.at <= now
    ensures Past(Step(ttl, s, e), now)
  {}

  lemma {:induction false} AlwaysPast(ttl: real, events: seq<Timed>, now: real)
    requires forall i, j | 0 <= i < j < |events| :: events[i].at <= events[j].at
    requires forall i | 0 <= i < |events| :: events[i].at <= now
    ensures Past(Run(ttl, events), now)
  {
    if events != [] {
      var n := |events| - 1;
      AlwaysPast(ttl, events[..n], events[n].at);
      StepKeepsPast(ttl, Run(ttl, events[..n]), events[n], now);
    }
  }

  lemma PromptPrefix(ttl: real, events: seq<Timed>, delay: real, n: nat)
    requires Prompt(ttl, events, delay) && n <= |events|
    ensures Prompt(ttl, events[..n], delay)
  {
    forall i | 0 <= i < n ensures PromptWrite(Run(ttl, events[..n][..i]), events[..n][i], delay) {
      assert events[..n][..i] == events[..i];
    }
  }

  /** Over every interleaving: a tenant served at time t was the table's row for that hash at
      some time in [t - (ttl + delay), t], and only hashes that once had a row are cached. */
  lemma {:induction false} ServedIsBoundedlyStale(ttl: real, events: seq<Timed>, delay: real)
    requires ttl >= 0.0 && Prompt(ttl, events, delay)
    ensures Sourced(Run(ttl, events), ttl, delay)
  {
    if events != [] {
      var n := |events| - 1;
      PromptPrefix(ttl, events, delay, n);
      ServedIsBoundedlyStale(ttl, events[..n], delay);
      AlwaysPast(ttl, events[..n], events[n].at);
      StepKeepsSourced(ttl, Run(ttl, events[..n]), events[n], delay);
    }
  }

  /** The snapshots are the table as the steps so far have left it. */
  lemma {:induction false} HistoryIsTheTable(ttl: real, events: seq<Timed>, s: State, i: nat)
    requires i < |events| && s == Run(ttl, events)
    ensures |s.history| == |events|
    ensures s.history[i] == Snapshot(events[i].at, Run(ttl, events[..i]).table)
    decreases events
  {
    var n := |events| - 1;
    var before := Run(ttl, events[..n]);
    StepHistory(ttl, before, events[n]);
    if n == 0 {
      assert before.history == [];
    } else if i < n {
      HistoryIsTheTable(ttl, events[..n], before, i);
      assert events[..n][..i] == events[..i];
    } else {
      HistoryIsTheTable(ttl, events[..n], before, 0);
    }
  }

  lemma StepHistory(ttl: real, s: State, e: Timed)
    ensures Step(ttl, s, e).history == s.history + [Snapshot(e.at, s.table)]
  {}

  /** The hash has no row in any snapshot from time r on. */
  ghost predicate RevokedSince(history: seq<Snapshot>, h: Hash, r: real) {
    forall k | 0 <= k < |history| && history[k].at >= r :: h !in history[k].table
  }

  /** Once a hash has been without a row since time r, nothing is served for it at
      r + ttl + delay or later. */
  lemma RevocationTakesEffect(ttl: real, events: seq<Timed>, delay: real, s: State, r: real, i: nat)
    requires ttl >= 0.0 && Prompt(ttl, events, delay) && s == Run(ttl, events)
    requires i < |s.served| && RevokedSince(s.history, s.served[i].h, r)
    ensures s.served[i].at < r + ttl + delay
  {
    ServedIsBoundedlyStale(ttl, events, delay);
    assert Held(s.history, s.served[i].h, s.served[i].row, s.served[i].at - (ttl + delay), s.served[i].at);
  }

  lemma OneMore(ttl: real, events: seq<Timed>, e: Timed, delay: real)
    requires Prompt(ttl, events, delay) && PromptWrite(Run(ttl, events), e, delay)
    requires forall i | 0 <= i < |events| :: events[i].at <= e.at
    ensures Prompt(ttl, events + [e], delay)
    ensures Run(ttl, events + [e]) == Step(ttl, Run(ttl, events), e)
  {
    var longer := events + [e];
    assert longer[..|events|] == events;
    forall i | 0 <= i < |longer| ensures PromptWrite(Run(ttl, longer[..i]), longer[i], delay) {
      if i < |events| {
        assert longer[..i] == events[..i];
      }
    }
  }

  /** A prompt run, none of it later than latest, that leads to s. */
  ghost predicate Reaches(ttl: real, events: seq<Timed>, delay: real, latest: real, s: State) {
    && (forall run | run == events :: Prompt(ttl, run, delay) && s == Run(ttl, run))
    && forall i | 0 <= i < |events| :: events[i].at <= latest
  }

  lemma ReachesNext(ttl: real, events: seq<Timed>, delay: real, latest: real, s: State, e: Timed)
    requires Reaches(ttl, events, delay, latest, s) && latest <= e.at && PromptWrite(s, e, delay)
    ensures Reaches(ttl, events + [e], delay, e.at, Step(ttl, s, e))
  {
    OneMore(ttl, events, e, delay);
  }

  /** The bound is attained: a row read at 0 and revoked before the delayed cache write is
      served at ttl + delay, so a revoked key can stay valid for longer than the TTL. */
  lemma BoundIsAttained(ttl: real, delay: real, revoked: real) returns (events: seq<Timed>, s: State)
    requires ttl >= 0.0 && 0.0 < revoked <= delay
    ensures Prompt(ttl, events, delay) && s == Run(ttl, events)
    ensures Timed(revoked, ChangeRow("k", None)) in events
    ensures s.served != [] && s.served[|s.served| - 1] == Served("k", "tenant", ttl + delay)
    ensures forall r | r > revoked :: RevokedSince(s.history, "k", r)
  {
    var e3 := Timed(revoked, ChangeRow("k", None));
    var before, s3 := Fetching(ttl, delay);
    ReachesNext(ttl, before, delay, 0.0, s3, e3);
    var s4 := Step(ttl, s3, e3);
    var e4, e5 := Timed(delay, WriteCache(1)), Timed(ttl + delay, Begin(2, "k"));
    ReachesNext(ttl, before + [e3], delay, revoked, s4, e4);
    var s5 := Step(ttl, s4, e4);
    ReachesNext(ttl, before + [e3] + [e4], delay, delay, s5, e5);
    events, s := before + [e3] + [e4] + [e5], Step(ttl, s5, e5);
    assert events[|before|] == e3;
    ServesStale(ttl, s5, e5, delay);
    TableStaysEmpty(ttl, s3, s4, s5, e3, e4, e5, revoked);
  }

  /** At time 0 a row is inserted, missed by the cache and read. */
  lemma Fetching(ttl: real, delay: real) returns (events: seq<Timed>, s: State)
    ensures Reaches(ttl, events, delay, 0.0, s)
    ensures 1 in s.pending && s.pending[1] == Fetched("k", "tenant", 0.0)
    ensures forall i | 0 <= i < |s.history| :: s.history[i].at == 0.0
  {
    var e0, e1, e2 := Timed(0.0, ChangeRow("k", Some("tenant"))), Timed(0.0, Begin(1, "k")), Timed(0.0, ReadTable(1));
    var s1 := Step(ttl, INIT, e0);
    var s2 := Step(ttl, s1, e1);
    s := Step(ttl, s2, e2);
    ReachesNext(ttl, [], delay, 0.0, INIT, e0);
    ReachesNext(ttl, [] + [e0], delay, 0.0, s1, e1);
    ReachesNext(ttl, [] + [e0] + [e1], delay, 0.0, s2, e2);
    events := [] + [e0] + [e1] + [e2];
  }

  lemma ServesStale(ttl: real, s: State, e: Timed, delay: real)
    requires ttl >= 0.0 && "k" in s.store && s.store["k"] == Entry("tenant", delay)
    requires e.at == ttl + delay && e.action.Begin? && e.action.h == "k"
    ensures var served := Step(ttl, s, e).served;
            served != [] && served[|served| - 1] == Served("k", "tenant", ttl + delay)
  {}

  lemma TableStaysEmpty(ttl: real, s3: State, s4: State, s5: State, e3: Timed, e4: Timed, e5: Timed, revoked: real)
    requires e3 == Timed(revoked, ChangeRow("k", None)) && e4.action.WriteCache? && e5.action.Begin?
    requires s4 == Step(ttl, s3, e3) && s5 == Step(ttl, s4, e4)
    requires forall i | 0 <= i < |s3.history| :: s3.history[i].at <= revoked
    ensures forall r | r > revoked :: RevokedSince(Step(ttl, s5, e5).history, "k", r)
  {
    StepHistory(ttl, s3, e3);
    StepHistory(ttl, s4, e4);
    StepHistory(ttl, s5, e5);
    assert "k" !in s4.table && s5.table == s4.table;
  }

  /** What the cache's documentation promises: a revoked key stays valid for up to the TTL. */
  ghost predicate RevokedWithinTtl(ttl: real, delay: real) {
    forall events, r, i | Prompt(ttl, events, delay) && 0 <= i < |Run(ttl, events).served|
                          && RevokedSince(Run(ttl, events).history, Run(ttl, events).served[i].h, r) ::
      Run(ttl, events).served[i].at < r + ttl
  }

  /** The promise holds for all runs with that much delay exactly when there is none. */
  lemma RevokedWithinTtlExactly(ttl: real, delay: real)
    requires ttl >= 0.0 && delay >= 0.0
    ensures RevokedWithinTtl(ttl, delay) <==> delay == 0.0
  {
    if delay == 0.0 {
      forall events, r, i | Prompt(ttl, events, delay) && 0 <= i < |Run(ttl, events).served|
                            && RevokedSince(Run(ttl, events).history, Run(ttl, events).served[i].h, r)
        ensures Run(ttl, events).served[i].at < r + ttl
      {
        RevocationTakesEffect(ttl, events, delay, Run(ttl, events), r, i);
      }
    } else {
      var events, s := BoundIsAttained(ttl, delay, delay / 2.0);
      var i := |s.served| - 1;
      assert RevokedSince(s.history, s.served[i].h, delay);
      assert s.served[i].at == delay + ttl;
    }
  }
}
