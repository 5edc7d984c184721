/** How large the semantic detector's collection can get. Cold starts skip the size check, so
    what bounds it is the eviction batch, if that covers the services, or else how many
    pairwise dissimilar embeddings there are. */
module CollectionBounds {
  import opened SemanticDetector
  import opened Sequences
  import C = Cosine
  import R = Reals

  /** Pairwise dissimilar embeddings of the domain. */
  ghost predicate Packing(cfg: Config, domain: Embedding -> bool, es: seq<Embedding>) {
    && (forall i | 0 <= i < |es| :: domain(es[i]))
    && forall i, j | 0 <= i < |es| && 0 <= j < |es| && i != j :: cfg.similarity(es[i], es[j]) < cfg.threshold
  }

  ghost predicate Packs(cfg: Config, domain: Embedding -> bool, n: nat) {
    exists es :: |es| == n && Packing(cfg, domain, es)
  }

  /** Every message that counts is of a watched service and embedded in the domain. */
  ghost predicate From(calls: seq<Call>, watched: set<string>, domain: Embedding -> bool) {
    forall i | 0 <= i < |calls| && Watched(calls[i].level) ::
      calls[i].service in watched && domain(calls[i].embedding)
  }

  ghost predicate FaultFree(calls: seq<Call>) {
    forall i | 0 <= i < |calls| :: calls[i].fault == NoFault
  }

  // ----- A collection is a packing per service -----

  lemma {:induction false} StoredFrom(cfg: Config, calls: seq<Call>, watched: set<string>, domain: Embedding -> bool)
    requires From(calls, watched, domain)
    ensures forall x | x in Exec(cfg, calls).items :: x.service in watched && domain(x.embedding)
  {
    if calls != [] {
      var n := |calls| - 1;
      StoredFrom(cfg, calls[..n], watched, domain);
      EffectPlausible(cfg, Exec(cfg, calls[..n]).items, calls[n]);
    }
  }

  lemma {:induction false} PackingOf(cfg: Config, domain: Embedding -> bool, items: set<Item>)
    returns (es: seq<Embedding>)
    requires forall x | x in items :: domain(x.embedding)
    requires forall x, y | x in items && y in items && x != y ::
               cfg.similarity(x.embedding, y.embedding) < cfg.threshold
    ensures |es| == |items| && Packing(cfg, domain, es)
    ensures forall e | e in es :: exists x :: x in items && x.embedding == e
  {
    es := [];
    if items != {} {
      var x :| x in items;
      var rest := PackingOf(cfg, domain, items - {x});
      es := rest + [x.embedding];
      forall i | 0 <= i < |rest|
        ensures cfg.similarity(rest[i], x.embedding) < cfg.threshold
        ensures cfg.similarity(x.embedding, rest[i]) < cfg.threshold
      {
        assert rest[i] in rest;
      }
    }
  }

  lemma {:induction false} PerService(items: set<Item>, watched: set<string>, p: nat)
    requires Services(items) <= watched && forall service | service in watched :: |OfService(items, service)| <= p
    ensures |items| <= |watched| * p
  {
    if watched == {} {
      assert forall x | x in items :: x.service in Services(items);
      assert items == {};
    } else {
      var w :| w in watched;
      var rest := items - OfService(items, w);
      forall service | service in watched - {w} ensures |OfService(rest, service)| <= p {
        assert OfService(rest, service) == OfService(items, service);
      }
      PerService(rest, watched - {w}, p);
      assert items == rest + OfService(items, w);
      OneFactorLess(|watched|, p);
    }
  }

  lemma OneFactorLess(n: nat, p: nat)
    ensures n * p == (n - 1) * p + p
  {}

  /** In every run, faults included: if no more than p embeddings are pairwise dissimilar, the
      collection never holds more than p items per watched service, whatever the configured
      maximum and batch. */
  lemma BoundedByPackings(cfg: Config, calls: seq<Call>, watched: set<string>, domain: Embedding -> bool, p: nat)
    requires Symmetric(cfg) && HonestRun(cfg, calls) && From(calls, watched, domain)
    requires forall es | Packing(cfg, domain, es) :: |es| <= p
    ensures |Exec(cfg, calls).items| <= |watched| * p
  {
    var items := Exec(cfg, calls).items;
    AlwaysNet(cfg, calls);
    StoredFrom(cfg, calls, watched, domain);
    forall service | service in watched ensures |OfService(items, service)| <= p {
      var es := PackingOf(cfg, domain, OfService(items, service));
    }
    PerService(items, watched, p);
  }

  // ----- A run that stores a whole packing -----

  /** The patterns are all of the first service, and the others only log old messages. */
  datatype Plan = Plan(cfg: Config, domain: Embedding -> bool, names: seq<string>, es: seq<Embedding>) {
    ghost predicate Valid() {
      && |names| == cfg.batch + 1 && Distinct(names)
      && es != [] && Packing(cfg, domain, es)
    }
  }

  /** Items of the first service, one for each of the first embeddings. */
  ghost predicate Patterns(p: Plan, patterns: seq<Item>)
    requires p.names != []
  {
    && |patterns| <= |p.es| && Distinct(patterns)
    && forall i | 0 <= i < |patterns| ::
         patterns[i].service == p.names[0] && patterns[i].at == 0.0 && patterns[i].embedding == p.es[i]
  }

  /** Older items, one of each of the first other services. */
  ghost predicate Stale(p: Plan, stale: seq<Item>)
    requires p.names != []
  {
    && |stale| < |p.names| && Distinct(stale)
    && forall i | 0 <= i < |stale| :: stale[i].service == p.names[i + 1] && stale[i].at == -1.0
  }

  ghost predicate IdsBelow(s: State, k: nat) {
    forall x | x in s.items + s.evicted :: x.id < k
  }

  ghost predicate Crowded(p: Plan, s: State, patterns: seq<Item>, stale: seq<Item>, k: nat)
    requires p.names != []
  {
    && Patterns(p, patterns) && Stale(p, stale)
    && s.items == Elements(patterns) + Elements(stale) && IdsBelow(s, k)
  }

  lemma OneLonger(xs: seq<Item>, x: Item)
    requires Distinct(xs) && x !in xs
    ensures Distinct(xs + [x]) && Elements(xs + [x]) == Elements(xs) + {x}
  {}

  lemma Counts(p: Plan, patterns: seq<Item>, stale: seq<Item>)
    requires p.names != [] && Patterns(p, patterns) && Stale(p, stale)
    ensures Elements(patterns) !! Elements(stale)
    ensures |Elements(patterns)| == |patterns| && |Elements(stale)| == |stale|
  {
    ElementsCount(patterns);
    ElementsCount(stale);
  }

  lemma OfFirst(p: Plan, patterns: seq<Item>, stale: seq<Item>)
    requires p.Valid() && Patterns(p, patterns) && Stale(p, stale)
    ensures OfService(Elements(patterns) + Elements(stale), p.names[0]) == Elements(patterns)
  {}

  lemma OfNext(p: Plan, patterns: seq<Item>, stale: seq<Item>)
    requires p.Valid() && Patterns(p, patterns) && Stale(p, stale) && |stale| + 1 < |p.names|
    ensures OfService(Elements(patterns) + Elements(stale), p.names[|stale| + 1]) == {}
  {}

  lemma HonestCall(cfg: Config, s: State, c: Call)
    requires IdsBelow(s, c.id) && IsOldest(s.items + {NewItem(c)}, c.oldest, cfg.batch)
    requires OfService(s.items, c.service) != {} ==> IsNearest(cfg, s.items, c)
    ensures Honest(cfg, s, c)
  {}

  // ----- An old message of yet another service cold-starts it -----

  lemma OldColdStart(p: Plan, s: State, patterns: seq<Item>, stale: seq<Item>, k: nat) returns (c: Call, s': State)
    requires p.Valid() && |stale| < p.cfg.batch && Crowded(p, s, patterns, stale, k)
    ensures c.service in p.names && p.domain(c.embedding) && c.fault == NoFault && Honest(p.cfg, s, c)
    ensures s' == Step(p.cfg, s, c)
    ensures Crowded(p, s', patterns, stale + [NewItem(c)], k + 1)
  {
    var x := Item(k, p.names[|stale| + 1], -1.0, p.es[0]);
    var oldest := SomeOldest(s.items + {x}, p.cfg.batch);
    c := Call(x.service, "ERROR", x.at, x.embedding, x.id, NoFault, x, oldest);
    OfNext(p, patterns, stale);
    HonestCall(p.cfg, s, c);
    s' := ColdStored(p.cfg, s, c);
    StillCrowded(p, s, patterns, stale, k, x, s');
  }

  lemma ColdStored(cfg: Config, s: State, c: Call) returns (s': State)
    requires OfService(s.items, c.service) == {} && c.level == "ERROR" && c.fault == NoFault
    ensures s' == Step(cfg, s, c) && s'.items == s.items + {NewItem(c)} && s'.evicted == s.evicted
  {
    s' := Step(cfg, s, c);
  }

  lemma StillCrowded(p: Plan, s: State, patterns: seq<Item>, stale: seq<Item>, k: nat, x: Item, s': State)
    requires |stale| + 1 < |p.names| && Crowded(p, s, patterns, stale, k)
    requires x.id == k && x.service == p.names[|stale| + 1] && x.at == -1.0
    requires s'.items == s.items + {x} && s'.evicted == s.evicted
    ensures Crowded(p, s', patterns, stale + [x], k + 1)
  {
    assert x !in s.items;
    OneLonger(stale, x);
  }

  /** Every collection has a batch of oldest items. */
  lemma {:induction false} SomeOldest(items: set<Item>, batch: nat) returns (oldest: set<Item>)
    ensures IsOldest(items, oldest, batch)
  {
    if batch == 0 || items == {} {
      oldest := {};
    } else {
      var x := Eldest(items);
      var rest := SomeOldest(items - {x}, batch - 1);
      oldest := rest + {x};
      assert items - oldest == items - {x} - rest;
    }
  }

  lemma {:induction false} Eldest(items: set<Item>) returns (x: Item)
    requires items != {}
    ensures x in items && forall y | y in items :: x.at <= y.at
  {
    x :| x in items;
    if items != {x} {
      var y := Eldest(items - {x});
      if y.at < x.at {
        x := y;
      }
    }
  }

  // ----- The next pattern is novel -----

  /** Every collection has an item most similar to a message. */
  lemma {:induction false} Nearest(cfg: Config, items: set<Item>, e: Embedding) returns (x: Item)
    requires items != {}
    ensures x in items
    ensures forall y | y in items :: cfg.similarity(e, y.embedding) <= cfg.similarity(e, x.embedding)
  {
    x :| x in items;
    if items != {x} {
      var y := Nearest(cfg, items - {x}, e);
      if cfg.similarity(e, y.embedding) > cfg.similarity(e, x.embedding) {
        x := y;
      }
    }
  }

  /** The message with the next embedding, told of the given batch. */
  lemma NextPattern(p: Plan, s: State, patterns: seq<Item>, stale: seq<Item>, k: nat, oldest: set<Item>)
    returns (c: Call)
    requires p.Valid() && 0 < |patterns| < |p.es| && Crowded(p, s, patterns, stale, k)
    requires IsOldest(s.items + {Item(k, p.names[0], 0.0, p.es[|patterns|])}, oldest, p.cfg.batch)
    ensures NewItem(c) == Item(k, p.names[0], 0.0, p.es[|patterns|]) && c.oldest == oldest
    ensures c.level == "ERROR" && c.fault == NoFault && Honest(p.cfg, s, c)
    ensures OfService(s.items, c.service) != {}
    ensures p.cfg.similarity(c.embedding, c.nearest.embedding) < p.cfg.threshold
  {
    var n := |patterns|;
    assert patterns[0] in Elements(patterns);
    var nearest := Nearest(p.cfg, Elements(patterns), p.es[n]);
    c := Call(p.names[0], "ERROR", 0.0, p.es[n], k, NoFault, nearest, oldest);
    OfFirst(p, patterns, stale);
    HonestCall(p.cfg, s, c);
    var i :| 0 <= i < n && patterns[i] == nearest;
  }

  /** While there is room it evicts nothing. */
  lemma NovelFits(p: Plan, s: State, patterns: seq<Item>, k: nat) returns (c: Call, s': State)
    requires p.Valid() && 0 < |patterns| < |p.es| && |patterns| < p.cfg.maxSize && Crowded(p, s, patterns, [], k)
    ensures c.service in p.names && p.domain(c.embedding) && c.fault == NoFault && Honest(p.cfg, s, c)
    ensures s' == Step(p.cfg, s, c)
    ensures Crowded(p, s', patterns + [NewItem(c)], [], k + 1)
  {
    var x := Item(k, p.names[0], 0.0, p.es[|patterns|]);
    var oldest := SomeOldest(s.items + {x}, p.cfg.batch);
    c := NextPattern(p, s, patterns, [], k, oldest);
    Counts(p, patterns, []);
    NotDue(p.cfg, s.items, c, |patterns|);
    s' := NovelStored(p.cfg, s, c, {});
    CrowdedAgain(p, s, patterns, [], k, x, s');
  }

  lemma NotDue(cfg: Config, all: set<Item>, c: Call, n: nat)
    requires OfService(all, c.service) != {} && c.level == "ERROR" && c.fault == NoFault
    requires cfg.similarity(c.embedding, c.nearest.embedding) < cfg.threshold
    requires |all| == n < cfg.maxSize
    ensures EffectOf(cfg, all, c) == Novel({}, true, false)
  {
    assert |all + {NewItem(c)}| <= n + 1;
  }

  lemma NovelStored(cfg: Config, s: State, c: Call, removed: set<Item>) returns (s': State)
    requires EffectOf(cfg, s.items, c) == Novel(removed, true, false)
    ensures s' == Step(cfg, s, c)
    ensures s'.items == s.items + {NewItem(c)} - removed && s'.evicted == s.evicted + removed
  {
    s' := Step(cfg, s, c);
  }

  lemma CrowdedAgain(p: Plan, s: State, patterns: seq<Item>, stale: seq<Item>, k: nat, x: Item, s': State)
    requires p.names != [] && Crowded(p, s, patterns, stale, k) && |patterns| < |p.es|
    requires x == Item(k, p.names[0], 0.0, p.es[|patterns|])
    requires s'.items == s.items + {x} - Elements(stale) && s'.evicted == s.evicted + Elements(stale)
    ensures Crowded(p, s', patterns + [x], [], k + 1)
  {
    assert x !in s.items;
    PatternsOneMore(p, patterns, x);
    Counts(p, patterns, stale);
    Replaced(Elements(patterns), Elements(stale), x);
    JustThem(s'.items, Elements(patterns + [x]));
    assert Stale(p, []);
  }

  lemma PatternsOneMore(p: Plan, patterns: seq<Item>, x: Item)
    requires p.names != [] && Patterns(p, patterns) && |patterns| < |p.es| && x !in patterns
    requires x.service == p.names[0] && x.at == 0.0 && x.embedding == p.es[|patterns|]
    ensures Patterns(p, patterns + [x]) && Elements(patterns + [x]) == Elements(patterns) + {x}
  {
    OneLonger(patterns, x);
  }

  lemma JustThem(items: set<Item>, patterns: set<Item>)
    requires items == patterns
    ensures items == patterns + Elements([])
  {}

  lemma Replaced(kept: set<Item>, gone: set<Item>, x: Item)
    requires kept !! gone && x !in gone
    ensures kept + gone + {x} - gone == kept + {x}
  {}

  /** With an older item of every other service it evicts just those. */
  lemma NovelEvictsThem(p: Plan, s: State, patterns: seq<Item>, stale: seq<Item>, k: nat) returns (c: Call, s': State)
    requires p.Valid() && 0 < |patterns| < |p.es| && |patterns| >= p.cfg.maxSize
    requires Crowded(p, s, patterns, stale, k) && |stale| == p.cfg.batch
    ensures c.service in p.names && p.domain(c.embedding) && c.fault == NoFault && Honest(p.cfg, s, c)
    ensures s' == Step(p.cfg, s, c)
    ensures Crowded(p, s', patterns + [NewItem(c)], [], k + 1)
  {
    var x := Item(k, p.names[0], 0.0, p.es[|patterns|]);
    assert x !in s.items;
    Counts(p, patterns, stale);
    OldestFirst(Elements(patterns) + {x}, Elements(stale));
    assert Elements(patterns) + {x} + Elements(stale) == s.items + {x};
    c := NextPattern(p, s, patterns, stale, k, Elements(stale));
    Due(p.cfg, s.items, c, |patterns|);
    s' := NovelStored(p.cfg, s, c, Elements(stale));
    CrowdedAgain(p, s, patterns, stale, k, x, s');
  }

  lemma OldestFirst(newer: set<Item>, older: set<Item>)
    requires newer !! older && forall x, y | x in older && y in newer :: x.at <= y.at
    ensures IsOldest(newer + older, older, |older|)
  {
    assert newer + older - older == newer;
  }

  lemma Due(cfg: Config, all: set<Item>, c: Call, n: nat)
    requires OfService(all, c.service) != {} && c.level == "ERROR" && c.fault == NoFault
    requires cfg.similarity(c.embedding, c.nearest.embedding) < cfg.threshold
    requires NewItem(c) !in all && |all| >= n >= cfg.maxSize && |c.oldest| == cfg.batch
    ensures EffectOf(cfg, all, c) == Novel(c.oldest, true, false)
  {
    assert |all + {NewItem(c)}| == |all| + 1;
  }

  // ----- A run that stores a whole packing -----

  /** An honest run without faults from the planned services that reaches s. */
  ghost predicate Reaches(p: Plan, calls: seq<Call>, s: State) {
    && s == Exec(p.cfg, calls) && HonestRun(p.cfg, calls)
    && FaultFree(calls) && From(calls, Elements(p.names), p.domain)
  }

  lemma OneMoreFrom(calls: seq<Call>, c: Call, watched: set<string>, domain: Embedding -> bool)
    requires FaultFree(calls) && From(calls, watched, domain)
    requires c.fault == NoFault && c.service in watched && domain(c.embedding)
    ensures FaultFree(calls + [c]) && From(calls + [c], watched, domain)
  {}

  lemma ReachesNext(p: Plan, calls: seq<Call>, s: State, c: Call)
    requires Reaches(p, calls, s) && Honest(p.cfg, s, c)
    requires c.fault == NoFault && c.service in p.names && p.domain(c.embedding)
    ensures Reaches(p, calls + [c], Step(p.cfg, s, c))
  {
    OneMoreFrom(calls, c, Elements(p.names), p.domain);
    assert (calls + [c])[..|calls|] == calls;
  }

  /** Some such run leaves the first n patterns and an older item of each of j others. */
  ghost predicate Leaves(p: Plan, n: nat, j: nat)
    requires p.names != []
  {
    exists calls, s, patterns, stale, k: nat ::
      Reaches(p, calls, s) && Crowded(p, s, patterns, stale, k) && |patterns| == n && |stale| == j
  }

  lemma LeavesBy(p: Plan, calls: seq<Call>, s: State, patterns: seq<Item>, stale: seq<Item>, k: nat)
    requires p.names != [] && Reaches(p, calls, s) && Crowded(p, s, patterns, stale, k)
    ensures Leaves(p, |patterns|, |stale|)
  {}

  lemma ServiceStep(p: Plan, calls: seq<Call>, s: State, patterns: seq<Item>, stale: seq<Item>, k: nat)
    requires p.Valid() && |stale| < p.cfg.batch && Reaches(p, calls, s) && Crowded(p, s, patterns, stale, k)
    ensures Leaves(p, |patterns|, |stale| + 1)
  {
    var c, s' := OldColdStart(p, s, patterns, stale, k);
    ReachesNext(p, calls, s, c);
    LeavesBy(p, calls + [c], s', patterns, stale + [NewItem(c)], k + 1);
  }

  lemma PatternStep(p: Plan, calls: seq<Call>, s: State, patterns: seq<Item>, stale: seq<Item>, k: nat)
    requires p.Valid() && 0 < |patterns| < |p.es|
    requires if |patterns| < p.cfg.maxSize then stale == [] else |stale| == p.cfg.batch
    requires Reaches(p, calls, s) && Crowded(p, s, patterns, stale, k)
    ensures Leaves(p, |patterns| + 1, 0)
  {
    var c, s' := NextPatternStored(p, s, patterns, stale, k);
    ReachesNext(p, calls, s, c);
    LeavesBy(p, calls + [c], s', patterns + [NewItem(c)], [], k + 1);
  }

  lemma NextPatternStored(p: Plan, s: State, patterns: seq<Item>, stale: seq<Item>, k: nat)
    returns (c: Call, s': State)
    requires p.Valid() && 0 < |patterns| < |p.es| && Crowded(p, s, patterns, stale, k)
    requires if |patterns| < p.cfg.maxSize then stale == [] else |stale| == p.cfg.batch
    ensures c.service in p.names && p.domain(c.embedding) && c.fault == NoFault && Honest(p.cfg, s, c)
    ensures s' == Step(p.cfg, s, c)
    ensures Crowded(p, s', patterns + [NewItem(c)], [], k + 1)
  {
    if |patterns| < p.cfg.maxSize {
      c, s' := NovelFits(p, s, patterns, k);
    } else {
      c, s' := NovelEvictsThem(p, s, patterns, stale, k);
    }
  }

  lemma OneMoreService(p: Plan, n: nat, j: nat)
    requires p.Valid() && j < p.cfg.batch && Leaves(p, n, j)
    ensures Leaves(p, n, j + 1)
  {
    var calls, s, patterns, stale, k: nat :|
      Reaches(p, calls, s) && Crowded(p, s, patterns, stale, k) && |patterns| == n && |stale| == j;
    ServiceStep(p, calls, s, patterns, stale, k);
  }

  lemma {:induction false} MoreServices(p: Plan, n: nat, j: nat)
    requires p.Valid() && j <= p.cfg.batch && Leaves(p, n, 0)
    ensures Leaves(p, n, j)
  {
    if j > 0 {
      MoreServices(p, n, j - 1);
      OneMoreService(p, n, j - 1);
    }
  }

  lemma OneMorePattern(p: Plan, n: nat, j: nat)
    requires p.Valid() && 0 < n < |p.es| && Leaves(p, n, j) && j == if n < p.cfg.maxSize then 0 else p.cfg.batch
    ensures Leaves(p, n + 1, 0)
  {
    var calls, s, patterns, stale, k: nat :|
      Reaches(p, calls, s) && Crowded(p, s, patterns, stale, k) && |patterns| == n && |stale| == j;
    PatternStep(p, calls, s, patterns, stale, k);
  }

  lemma FirstCall(p: Plan) returns (c: Call, s: State)
    requires p.Valid()
    ensures c.service in p.names && p.domain(c.embedding) && c.fault == NoFault && Honest(p.cfg, EMPTY, c)
    ensures s == Step(p.cfg, EMPTY, c) && s.evicted == {}
    ensures NewItem(c) == Item(0, p.names[0], 0.0, p.es[0]) && s.items == {NewItem(c)}
  {
    var x := Item(0, p.names[0], 0.0, p.es[0]);
    var oldest := SomeOldest(EMPTY.items + {x}, p.cfg.batch);
    c := Call(x.service, "ERROR", x.at, x.embedding, x.id, NoFault, x, oldest);
    assert OfService({}, c.service) == {};
    HonestCall(p.cfg, EMPTY, c);
    s := ColdStored(p.cfg, EMPTY, c);
  }

  lemma FirstCrowded(p: Plan, s: State, x: Item)
    requires p.Valid() && s.items == {x} && s.evicted == {} && x == Item(0, p.names[0], 0.0, p.es[0])
    ensures Crowded(p, s, [x], [], 1)
  {
    assert Patterns(p, [x]) && Stale(p, []);
    JustThem({x}, Elements([x]));
  }

  lemma NothingYet(p: Plan)
    ensures Reaches(p, [], EMPTY)
  {}

  lemma FirstPattern(p: Plan)
    requires p.Valid()
    ensures Leaves(p, 1, 0)
  {
    var c, s := FirstCall(p);
    NothingYet(p);
    ReachesNext(p, [], EMPTY, c);
    FirstCrowded(p, s, NewItem(c));
    LeavesBy(p, [] + [c], s, [NewItem(c)], [], 1);
  }

  /** With room the next pattern just fits, and without it a cold start of every other service
      makes its eviction spare the patterns. */
  lemma {:induction false} LeavesPatterns(p: Plan, n: nat)
    requires p.Valid() && 0 < n <= |p.es|
    ensures Leaves(p, n, 0)
  {
    if n == 1 {
      FirstPattern(p);
    } else {
      LeavesPatterns(p, n - 1);
      var j := if n - 1 < p.cfg.maxSize then 0 else p.cfg.batch;
      MoreServices(p, n - 1, j);
      OneMorePattern(p, n - 1, j);
    }
  }

  /** With one service more than the batch a run without faults stores any packing whole,
      whatever the configured maximum. */
  lemma StoresWholePacking(p: Plan) returns (calls: seq<Call>)
    requires p.Valid()
    ensures HonestRun(p.cfg, calls) && FaultFree(calls) && From(calls, Elements(p.names), p.domain)
    ensures |Exec(p.cfg, calls).items| == |p.es|
  {
    LeavesPatterns(p, |p.es|);
    var run, s, patterns, stale, k: nat :|
      Reaches(p, run, s) && Crowded(p, s, patterns, stale, k) && |patterns| == |p.es| && |stale| == 0;
    calls := run;
    Counts(p, patterns, stale);
    assert s.items == Elements(patterns);
  }

  // ----- Exactly when there is no bound -----

  /** Some fault-free run of the watched services leaves at least n items. */
  ghost predicate Reachable(cfg: Config, watched: set<string>, domain: Embedding -> bool, n: nat) {
    exists calls :: HonestRun(cfg, calls) && FaultFree(calls) && From(calls, watched, domain)
                    && |Exec(cfg, calls).items| >= n
  }

  ghost predicate Unbounded(cfg: Config, watched: set<string>, domain: Embedding -> bool) {
    forall n: nat :: Reachable(cfg, watched, domain, n)
  }

  lemma NotOverdue(cfg: Config, s: State, c: Call)
    requires c.fault == NoFault
    ensures Step(cfg, s, c).overdue == s.overdue
  {}

  lemma {:induction false} NothingOverdue(cfg: Config, calls: seq<Call>)
    requires FaultFree(calls)
    ensures Exec(cfg, calls).overdue == 0
  {
    if calls != [] {
      var n := |calls| - 1;
      NothingOverdue(cfg, calls[..n]);
      NotOverdue(cfg, Exec(cfg, calls[..n]), calls[n]);
    }
  }

  lemma {:induction false} SomeNames(watched: set<string>, n: nat) returns (names: seq<string>)
    requires n <= |watched|
    ensures |names| == n && Distinct(names) && Elements(names) <= watched
  {
    names := [];
    if n > 0 {
      var w :| w in watched;
      var rest := SomeNames(watched - {w}, n - 1);
      names := rest + [w];
      forall i | 0 <= i < |rest| ensures rest[i] != w {
        assert rest[i] in Elements(rest);
      }
    }
  }

  lemma FewerPack(cfg: Config, domain: Embedding -> bool, n: nat, es: seq<Embedding>)
    requires n <= |es| && Packing(cfg, domain, es)
    ensures Packs(cfg, domain, n)
  {
    assert Packing(cfg, domain, es[..n]);
  }

  lemma BatchCovers(cfg: Config, watched: set<string>, domain: Embedding -> bool)
    requires |watched| <= cfg.batch
    ensures !Reachable(cfg, watched, domain, cfg.maxSize + |watched| + 1)
  {
    forall calls | HonestRun(cfg, calls) && FaultFree(calls) && From(calls, watched, domain)
      ensures |Exec(cfg, calls).items| <= cfg.maxSize + |watched|
    {
      CollectionBounded(cfg, calls, watched);
      NothingOverdue(cfg, calls);
    }
  }

  lemma FewPack(cfg: Config, watched: set<string>, domain: Embedding -> bool, n: nat)
    requires Symmetric(cfg) && !Packs(cfg, domain, n)
    ensures !Reachable(cfg, watched, domain, |watched| * n + 1)
  {
    forall es | Packing(cfg, domain, es) ensures |es| <= n {
      if |es| > n {
        FewerPack(cfg, domain, n, es);
      }
    }
    forall calls | HonestRun(cfg, calls) && FaultFree(calls) && From(calls, watched, domain)
      ensures |Exec(cfg, calls).items| <= |watched| * n
    {
      BoundedByPackings(cfg, calls, watched, domain, n);
    }
  }

  lemma AllPacked(cfg: Config, watched: set<string>, domain: Embedding -> bool, n: nat)
    requires |watched| > cfg.batch && n > 0 && Packs(cfg, domain, n)
    ensures Reachable(cfg, watched, domain, n)
  {
    var es :| |es| == n && Packing(cfg, domain, es);
    var names := SomeNames(watched, cfg.batch + 1);
    var calls := StoresWholePacking(Plan(cfg, domain, names, es));
    assert From(calls, watched, domain);
  }

  /** The collection of a set of services has no bound, even without faults, exactly when the
      services outnumber the batch and any number of embeddings can be pairwise dissimilar. */
  lemma UnboundedExactly(cfg: Config, watched: set<string>, domain: Embedding -> bool)
    requires Symmetric(cfg)
    ensures Unbounded(cfg, watched, domain) <==> |watched| > cfg.batch && forall n: nat :: Packs(cfg, domain, n)
  {
    if |watched| <= cfg.batch {
      BatchCovers(cfg, watched, domain);
    } else if n: nat :| !Packs(cfg, domain, n) {
      FewPack(cfg, watched, domain, n);
    } else {
      forall n: nat ensures Reachable(cfg, watched, domain, n) {
        AllPacked(cfg, watched, domain, n + 1);
        var calls :| HonestRun(cfg, calls) && FaultFree(calls) && From(calls, watched, domain)
                     && |Exec(cfg, calls).items| >= n + 1;
      }
    }
  }
}
