/** The semantic novelty detector: an online greedy net of embeddings per service, kept in
    one collection per tenant and trimmed oldest-first in batches. */
module SemanticDetector {
  import opened Sequences
  import opened Severities
  import opened Wrappers

  type Embedding = seq<real>

  /** id stands for the fresh UUID; at is the event's own timestamp. */
  datatype Item = Item(id: nat, service: string, at: real, embedding: Embedding)

  datatype Config = Config(similarity: (Embedding, Embedding) -> real, threshold: real,
                           maxSize: nat, batch: nat)

  datatype Detection = Detection(service: string, severity: Severity, confidence: real)

  /** The vector store or embedding operation that raises during one call. */
  datatype Fault = NoFault | GetOrCreate | Embed | Count | Query | Add | Recount | Get | Delete | CountAfterDelete

  /** One log event, with what the vector store answers: nearest is its query result, and
      oldest the ids it would be told to delete. */
  datatype Call = Call(service: string, level: string, at: real, embedding: Embedding, id: nat,
                       fault: Fault, nearest: Item, oldest: set<Item>)

  /** What one call amounts to. A Novel pattern is stored; removed is what eviction deleted,
      reported whether the alert got out, overdue whether a due eviction did not happen. */
  datatype Effect =
    | Skipped
    | Failed
    | Known
    | ColdStart
    | Novel(removed: set<Item>, reported: bool, overdue: bool)

  // ----- Severity -----

  function DistanceToSeverity(distance: real): Severity {
    if distance > 0.7 then Critical
    else if distance > 0.5 then High
    else if distance > 0.3 then Medium
    else Low
  }

  /** Severity grows with the distance: its rank is the number of boundaries exceeded. */
  lemma SeverityMonotone(d: real, d': real)
    requires d <= d'
    ensures Rank(DistanceToSeverity(d)) <= Rank(DistanceToSeverity(d'))
    ensures Rank(DistanceToSeverity(d)) == Bit(d > 0.3) + Bit(d > 0.5) + Bit(d > 0.7)
  {}

  // ----- One call -----

  predicate Watched(level: string) {
    level == "ERROR" || level == "FATAL"
  }

  function NewItem(c: Call): Item {
    Item(c.id, c.service, c.at, c.embedding)
  }

  function OfService(items: set<Item>, service: string): set<Item> {
    set x | x in items && x.service == service
  }

  function EffectOf(cfg: Config, items: set<Item>, c: Call): Effect {
    if !Watched(c.level) then Skipped
    else if c.fault in {GetOrCreate, Embed, Count} then Failed
    else Compare(cfg, items, c)
  }

  /** The part of a call that compares the message with what is stored. */
  function Compare(cfg: Config, items: set<Item>, c: Call): Effect {
    if items == {} then (if c.fault == Add then Failed else ColdStart)
    else if c.fault == Query then Failed
    else if OfService(items, c.service) == {} then (if c.fault == Add then Failed else ColdStart)
    else if cfg.similarity(c.embedding, c.nearest.embedding) >= cfg.threshold then Known
    else if c.fault == Add then Failed
    else Trim(cfg, items, c)
  }

  /** What follows the storing of a novel pattern. */
  function Trim(cfg: Config, items: set<Item>, c: Call): (e: Effect)
    ensures e.Novel?
  {
    var due := |items + {NewItem(c)}| > cfg.maxSize;
    if c.fault == Recount then Novel({}, false, due)
    else if !due then Novel({}, true, false)
    else if c.fault == Get then Novel({}, false, true)
    else if cfg.batch == 0 then Novel({}, true, false)
    else if c.fault == Delete then Novel({}, false, true)
    else Novel(c.oldest, c.fault != CountAfterDelete, false)
  }

  function ItemsAfter(items: set<Item>, c: Call, e: Effect): set<Item> {
    match e
    case ColdStart => items + {NewItem(c)}
    case Novel(removed, _, _) => items + {NewItem(c)} - removed
    case _ => items
  }

  function DetectionOf(cfg: Config, c: Call, e: Effect): Option<Detection> {
    if e.Novel? && e.reported then
      var similarity := cfg.similarity(c.embedding, c.nearest.embedding);
      Some(Detection(c.service, DistanceToSeverity(1.0 - similarity), 1.0 - similarity))
    else None
  }

  /** What an effect reveals about the collection the call met. */
  ghost predicate Plausible(cfg: Config, items: set<Item>, c: Call, e: Effect) {
    match e
    case Skipped => true
    case Failed => Watched(c.level)
    case Known => Watched(c.level) && OfService(items, c.service) != {}
                  && cfg.similarity(c.embedding, c.nearest.embedding) >= cfg.threshold
    case ColdStart => Watched(c.level) && OfService(items, c.service) == {}
    case Novel(removed, reported, overdue) =>
      && Watched(c.level) && OfService(items, c.service) != {}
      && cfg.similarity(c.embedding, c.nearest.embedding) < cfg.threshold
      && (removed != {} ==> removed == c.oldest)
      && (removed == {} && !overdue && cfg.batch > 0 && c.oldest != {} ==> |items + {NewItem(c)}| <= cfg.maxSize)
  }

  lemma EffectPlausible(cfg: Config, items: set<Item>, c: Call)
    ensures Plausible(cfg, items, c, EffectOf(cfg, items, c))
  {}

  // ----- What the vector store is trusted with -----

  ghost predicate IsNearest(cfg: Config, items: set<Item>, c: Call) {
    && c.nearest in OfService(items, c.service)
    && forall x | x in OfService(items, c.service) ::
         cfg.similarity(c.embedding, x.embedding) <= cfg.similarity(c.embedding, c.nearest.embedding)
  }

  /** removed is a batch of oldest items: as many as the batch size, or all of them. */
  ghost predicate IsOldest(items: set<Item>, removed: set<Item>, batch: nat) {
    && removed <= items
    && |removed| == (if batch <= |items| then batch else |items|)
    && forall x, y | x in removed && y in items - removed :: x.at <= y.at
  }

  ghost predicate Symmetric(cfg: Config) {
    forall a, b :: cfg.similarity(a, b) == cfg.similarity(b, a)
  }

  ghost predicate SelfSimilar(cfg: Config) {
    forall a :: cfg.similarity(a, a) >= cfg.threshold
  }

  // ----- The detector -----

  ghost predicate ByAge(s: seq<Item>) {
    forall i, j | 0 <= i < j < |s| :: s[i].at <= s[j].at
  }

  function InsertByAge(x: Item, s: seq<Item>): (r: seq<Item>)
    ensures |r| == |s| + 1
    ensures forall y :: y in r <==> y == x || y in s
  {
    if s == [] || x.at <= s[0].at then [x] + s else [s[0]] + InsertByAge(x, s[1..])
  }

  /** Stable sort by timestamp, oldest first. */
  function SortByAge(s: seq<Item>): (r: seq<Item>)
    ensures |r| == |s|
    ensures forall y :: y in r <==> y in s
  {
    if s == [] then [] else InsertByAge(s[0], SortByAge(s[1..]))
  }

  lemma {:induction false} InsertSorts(x: Item, s: seq<Item>)
    requires ByAge(s)
    ensures ByAge(InsertByAge(x, s))
  {
    if s != [] && x.at > s[0].at {
      var rest := InsertByAge(x, s[1..]);
      InsertSorts(x, s[1..]);
      forall i | 0 <= i < |rest| ensures s[0].at <= rest[i].at {
        assert rest[i] in rest;
      }
    }
  }

  lemma {:induction false} InsertDistinct(x: Item, s: seq<Item>)
    requires Distinct(s) && x !in s
    ensures Distinct(InsertByAge(x, s))
  {
    if s != [] && x.at > s[0].at {
      var rest := InsertByAge(x, s[1..]);
      InsertDistinct(x, s[1..]);
      forall i | 0 <= i < |rest| ensures s[0] != rest[i] {
        assert rest[i] in rest;
      }
    }
  }

  lemma {:induction false} SortSorts(s: seq<Item>)
    ensures ByAge(SortByAge(s))
    ensures Distinct(s) ==> Distinct(SortByAge(s))
  {
    if s != [] {
      SortSorts(s[1..]);
      InsertSorts(s[0], SortByAge(s[1..]));
      if Distinct(s) {
        InsertDistinct(s[0], SortByAge(s[1..]));
      }
    }
  }

  /** A listing of the collection, each item once, in any order. */
  ghost predicate Lists(listing: seq<Item>, items: set<Item>) {
    (forall x :: x in listing <==> x in items) && Distinct(listing)
  }

  function OldestOf(listing: seq<Item>, batch: nat): set<Item> {
    var byAge := SortByAge(listing);
    Elements(byAge[..if batch <= |byAge| then batch else |byAge|])
  }

  /** Sorting a listing and taking its first batch yields a batch of oldest items. */
  lemma SortYieldsOldest(listing: seq<Item>, items: set<Item>, batch: nat)
    requires Lists(listing, items)
    ensures IsOldest(items, OldestOf(listing, batch), batch)
  {
    var byAge := SortByAge(listing);
    var n := if batch <= |byAge| then batch else |byAge|;
    SortSorts(listing);
    ElementsCount(byAge);
    ElementsCount(byAge[..n]);
    assert Elements(byAge) == items;
    assert byAge == byAge[..n] + byAge[n..];
    forall x, y | x in byAge[..n] && y in byAge[n..] ensures x.at <= y.at {
      FirstPartOlder(byAge, n, x, y);
    }
  }

  lemma FirstPartOlder(s: seq<Item>, n: nat, x: Item, y: Item)
    requires ByAge(s) && n <= |s| && x in s[..n] && y in s[n..]
    ensures x.at <= y.at
  {
    var i :| 0 <= i < n && s[..n][i] == x;
    var j :| 0 <= j < |s| - n && s[n..][j] == y;
    assert s[i] == x && s[n + j] == y;
  }

  class Detector {
    const cfg: Config
    var collections: map<string, set<Item>>

    constructor (cfg: Config)
      ensures this.cfg == cfg && collections == map[]
    {
      this.cfg := cfg;
      collections := map[];
    }

    function Collection(tenant: string): set<Item>
      reads this
    {
      if tenant in collections then collections[tenant] else {}
    }

    /** c.oldest is not an input here: the method finds the batch itself, by sorting the
        listing the store returns. Only the tenant's own collection is touched. */
    method UpdateAndCheck(tenant: string, c: Call, listing: seq<Item>) returns (result: Option<Detection>)
      requires Lists(listing, Collection(tenant) + {NewItem(c)})
      modifies this
      ensures var call := c.(oldest := OldestOf(listing, cfg.batch));
              var effect := EffectOf(cfg, old(Collection(tenant)), call);
              && Collection(tenant) == ItemsAfter(old(Collection(tenant)), call, effect)
              && result == DetectionOf(cfg, call, effect)
      ensures collections == old(collections) || collections == old(collections)[tenant := Collection(tenant)]
    {
      if !Watched(c.level) {
        return None;
      }
      if c.fault == GetOrCreate {
        return None;
      }
      if tenant !in collections {
        collections := collections[tenant := {}];
      }
      if c.fault == Embed || c.fault == Count {
        return None;
      }
      result := CompareWith(tenant, c.(oldest := OldestOf(listing, cfg.batch)), listing);
    }

    method CompareWith(tenant: string, c: Call, listing: seq<Item>) returns (result: Option<Detection>)
      requires tenant in collections && Lists(listing, collections[tenant] + {NewItem(c)})
      requires c.fault !in {GetOrCreate, Embed, Count} && c.oldest == OldestOf(listing, cfg.batch)
      modifies this
      ensures var effect := Compare(cfg, old(collections)[tenant], c);
              && collections == old(collections)[tenant := ItemsAfter(old(collections)[tenant], c, effect)]
              && result == DetectionOf(cfg, c, effect)
    {
      var items := collections[tenant];
      assert collections == collections[tenant := items];
      if items == {} {
        result := LearnFirst(tenant, c);
        return;
      }
      if c.fault == Query {
        return None;
      }
      if OfService(items, c.service) == {} {
        result := LearnFirst(tenant, c);
        return;
      }
      result := CompareNearest(tenant, c, listing);
    }

    /** The message against its service's nearest pattern. */
    method CompareNearest(tenant: string, c: Call, listing: seq<Item>) returns (result: Option<Detection>)
      requires tenant in collections && Lists(listing, collections[tenant] + {NewItem(c)})
      requires c.fault !in {GetOrCreate, Embed, Count, Query} && c.oldest == OldestOf(listing, cfg.batch)
      modifies this
      ensures var similarity := cfg.similarity(c.embedding, c.nearest.embedding);
              if similarity >= cfg.threshold || c.fault == Add then collections == old(collections) && result == None
              else
                var e := Trim(cfg, old(collections)[tenant], c);
                && collections == old(collections)[tenant := ItemsAfter(old(collections)[tenant], c, e)]
                && result == DetectionOf(cfg, c, e)
    {
      var similarity := cfg.similarity(c.embedding, c.nearest.embedding);
      if similarity >= cfg.threshold || c.fault == Add {
        return None;
      }
      var completed := StoreNovel(tenant, c, listing);
      if completed {
        result := Some(Detection(c.service, DistanceToSeverity(1.0 - similarity), 1.0 - similarity));
      } else {
        result := None;
      }
    }

    /** A cold start: the first pattern is stored and nothing is reported. */
    method LearnFirst(tenant: string, c: Call) returns (result: Option<Detection>)
      requires tenant in collections
      modifies this
      ensures result == None
      ensures collections == if c.fault == Add then old(collections)
                             else old(collections)[tenant := old(collections)[tenant] + {NewItem(c)}]
    {
      if c.fault != Add {
        AddEmbedding(tenant, c);
      }
      result := None;
    }

    /** Stores the pattern first and trims afterwards; completed is false when an operation
        raises on the way, which loses the alert. */
    method StoreNovel(tenant: string, c: Call, listing: seq<Item>) returns (completed: bool)
      requires tenant in collections && Lists(listing, collections[tenant] + {NewItem(c)})
      requires c.fault !in {GetOrCreate, Embed, Count, Query, Add} && c.oldest == OldestOf(listing, cfg.batch)
      modifies this
      ensures var e := Trim(cfg, old(collections)[tenant], c);
              && completed == e.reported
              && collections == old(collections)[tenant := old(collections)[tenant] + {NewItem(c)} - e.removed]
    {
      AddEmbedding(tenant, c);
      var items := collections[tenant];
      assert items - {} == items;
      if c.fault == Recount {
        return false;
      }
      completed := true;
      if |collections[tenant]| > cfg.maxSize {
        completed := EvictOldest(tenant, listing, c.fault);
      }
    }

    method AddEmbedding(tenant: string, c: Call)
      requires tenant in collections
      modifies this
      ensures collections == old(collections)[tenant := old(collections)[tenant] + {NewItem(c)}]
    {
      collections := collections[tenant := collections[tenant] + {NewItem(c)}];
    }

    /** completed is false when an operation raises on the way, which loses the alert. */
    method EvictOldest(tenant: string, listing: seq<Item>, fault: Fault) returns (completed: bool)
      requires tenant in collections && Lists(listing, collections[tenant]) && listing != []
      modifies this
      ensures completed <==> fault != Get && (cfg.batch > 0 ==> fault != Delete && fault != CountAfterDelete)
      ensures collections ==
              if fault == Get || cfg.batch == 0 || fault == Delete then old(collections)
              else old(collections)[tenant := old(collections)[tenant] - OldestOf(listing, cfg.batch)]
    {
      if fault == Get {
        return false;
      }
      var doomed := OldestOf(listing, cfg.batch);
      SortYieldsOldest(listing, collections[tenant], cfg.batch);
      ElementsCount(listing);
      assert Elements(listing) == collections[tenant];
      if doomed != {} {
        if fault == Delete {
          return false;
        }
        collections := collections[tenant := collections[tenant] - doomed];
        if fault == CountAfterDelete {
          return false;
        }
      }
      completed := true;
    }
  }

  // ----- Whole runs of one tenant -----

  /** items is the collection; the rest is a record of the run: what was evicted, per
      service the alerts raised, cold starts and alerts lost to a fault, the evictions that
      were due and failed, and every message that was compared or stored. */
  datatype State = State(items: set<Item>, evicted: set<Item>, alerts: multiset<string>,
                         cold: multiset<string>, lost: multiset<string>, overdue: nat,
                         seen: set<(string, Embedding)>)

  const EMPTY := State({}, {}, multiset{}, multiset{}, multiset{}, 0, {})

  function Step(cfg: Config, s: State, c: Call): State {
    Apply(s, c, EffectOf(cfg, s.items, c))
  }

  function Apply(s: State, c: Call, e: Effect): State {
    var removed := if e.Novel? then e.removed else {};
    State(ItemsAfter(s.items, c, e),
          s.evicted + removed,
          if e.Novel? && e.reported then s.alerts + multiset{c.service} else s.alerts,
          if e.ColdStart? then s.cold + multiset{c.service} else s.cold,
          if e.Novel? && !e.reported then s.lost + multiset{c.service} else s.lost,
          if e.Novel? && e.overdue then s.overdue + 1 else s.overdue,
          if e.Skipped? || e.Failed? then s.seen else s.seen + {(c.service, c.embedding)})
  }

  function Exec(cfg: Config, calls: seq<Call>): State {
    if calls == [] then EMPTY else Step(cfg, Exec(cfg, calls[..|calls| - 1]), calls[|calls| - 1])
  }

  /** The store answers this call exactly: fresh id, true nearest neighbour, true batch. */
  ghost predicate Honest(cfg: Config, s: State, c: Call) {
    && (forall x | x in s.items + s.evicted :: x.id != c.id)
    && (OfService(s.items, c.service) != {} ==> IsNearest(cfg, s.items, c))
    && IsOldest(s.items + {NewItem(c)}, c.oldest, cfg.batch)
  }

  ghost predicate HonestRun(cfg: Config, calls: seq<Call>) {
    calls == [] ||
    (HonestRun(cfg, calls[..|calls| - 1]) && Honest(cfg, Exec(cfg, calls[..|calls| - 1]), calls[|calls| - 1]))
  }

  // ----- The greedy net -----

  /** Any two stored embeddings of one service are less similar than the threshold. */
  ghost predicate Net(cfg: Config, items: set<Item>) {
    forall x, y | x in items && y in items && x != y && x.service == y.service ::
      cfg.similarity(x.embedding, y.embedding) < cfg.threshold
  }

  lemma ApplyKeepsNet(cfg: Config, s: State, c: Call, e: Effect)
    requires Symmetric(cfg) && Net(cfg, s.items) && Honest(cfg, s, c) && Plausible(cfg, s.items, c, e)
    ensures Net(cfg, Apply(s, c, e).items)
  {
    var x := NewItem(c);
    if e.ColdStart? || e.Novel? {
      forall y | y in s.items && y.service == c.service
        ensures cfg.similarity(x.embedding, y.embedding) < cfg.threshold
        ensures cfg.similarity(y.embedding, x.embedding) < cfg.threshold
      {
        assert y in OfService(s.items, c.service);
      }
      assert Net(cfg, s.items + {x});
      assert Apply(s, c, e).items <= s.items + {x};
    }
  }

  /** Packing: in every reachable state, faults and evictions included, the collection is a
      net. */
  lemma {:induction false} AlwaysNet(cfg: Config, calls: seq<Call>)
    requires Symmetric(cfg) && HonestRun(cfg, calls)
    ensures Net(cfg, Exec(cfg, calls).items)
  {
    if calls != [] {
      var s, c := Exec(cfg, calls[..|calls| - 1]), calls[|calls| - 1];
      AlwaysNet(cfg, calls[..|calls| - 1]);
      EffectPlausible(cfg, s.items, c);
      ApplyKeepsNet(cfg, s, c, EffectOf(cfg, s.items, c));
    }
  }

  ghost predicate Covered(cfg: Config, items: set<Item>, service: string, e: Embedding) {
    exists x :: x in items && x.service == service && cfg.similarity(e, x.embedding) >= cfg.threshold
  }

  ghost predicate Covers(cfg: Config, items: set<Item>, seen: set<(string, Embedding)>) {
    forall m | m in seen :: Covered(cfg, items, m.0, m.1)
  }

  lemma CoveredByMore(cfg: Config, items: set<Item>, items': set<Item>, seen: set<(string, Embedding)>)
    requires items <= items' && Covers(cfg, items, seen)
    ensures Covers(cfg, items', seen)
  {
    forall m | m in seen ensures Covered(cfg, items', m.0, m.1) {
      assert Covered(cfg, items, m.0, m.1);
    }
  }

  function Ever(s: State): set<Item> {
    s.items + s.evicted
  }

  lemma ApplyGrows(s: State, c: Call, e: Effect)
    ensures Ever(Apply(s, c, e)) >= Ever(s)
    ensures e.ColdStart? || e.Novel? ==> NewItem(c) in Ever(Apply(s, c, e))
  {}

  lemma ApplyKeepsCover(cfg: Config, s: State, c: Call, e: Effect)
    requires SelfSimilar(cfg) && Honest(cfg, s, c) && Plausible(cfg, s.items, c, e)
    requires Covers(cfg, Ever(s), s.seen)
    ensures Covers(cfg, Ever(Apply(s, c, e)), Apply(s, c, e).seen)
  {
    var s' := Apply(s, c, e);
    ApplyGrows(s, c, e);
    CoveredByMore(cfg, Ever(s), Ever(s'), s.seen);
    if e.Known? {
      assert c.nearest in Ever(s');
      assert Covered(cfg, Ever(s'), c.service, c.embedding);
    } else if e.ColdStart? || e.Novel? {
      assert NewItem(c) in Ever(s');
      assert Covered(cfg, Ever(s'), c.service, c.embedding);
    }
  }

  /** Covering: every message that was compared or stored is within the threshold of an
      embedding of its service that is stored, or was until an eviction removed it. */
  lemma {:induction false} AlwaysCovers(cfg: Config, calls: seq<Call>)
    requires SelfSimilar(cfg) && HonestRun(cfg, calls)
    ensures Covers(cfg, Ever(Exec(cfg, calls)), Exec(cfg, calls).seen)
  {
    if calls != [] {
      var s, c := Exec(cfg, calls[..|calls| - 1]), calls[|calls| - 1];
      AlwaysCovers(cfg, calls[..|calls| - 1]);
      EffectPlausible(cfg, s.items, c);
      ApplyKeepsCover(cfg, s, c, EffectOf(cfg, s.items, c));
    }
  }

  /** One call without faults raises an alert exactly when its service has patterns stored
      and none of them covers the message, and stores the message unless one covers it. */
  lemma AlertExactlyWhenNovel(cfg: Config, s: State, c: Call)
    requires Honest(cfg, s, c) && c.fault == NoFault && Watched(c.level)
    ensures var e := EffectOf(cfg, s.items, c);
            var covered := Covered(cfg, s.items, c.service, c.embedding);
            && (DetectionOf(cfg, c, e).Some? <==> OfService(s.items, c.service) != {} && !covered)
            && (e.Known? <==> covered)
            && (!covered ==> e.ColdStart? || e.Novel?)
  {
    NearestDecides(cfg, s, c);
    assert OfService({}, c.service) == {};
  }

  /** The highest similarity of the message to a stored pattern of its service. */
  ghost predicate Highest(cfg: Config, items: set<Item>, c: Call, similarity: real) {
    && (exists x :: x in items && x.service == c.service && cfg.similarity(c.embedding, x.embedding) == similarity)
    && forall x | x in items && x.service == c.service :: cfg.similarity(c.embedding, x.embedding) <= similarity
  }

  /** The operations of the store and the embedder that a call gets to. */
  datatype Course = Course(stored: bool, alerted: bool, removed: set<Item>)

  /** What a call comes to, for every fault: only errors are looked at. The first pattern of a
      service is stored and not reported. A later one is stored when even the highest
      similarity is below the threshold, and reported unless an operation after that raises;
      if the collection is then too large, and nothing raises before, its oldest items go. */
  ghost predicate Comes(cfg: Config, items: set<Item>, c: Call, course: Course) {
    var watched := c.level == "ERROR" || c.level == "FATAL";
    var first := forall x | x in items :: x.service != c.service;
    var novel := !first && forall x | x in items && x.service == c.service ::
                             cfg.similarity(c.embedding, x.embedding) < cfg.threshold;
    var due := |items + {NewItem(c)}| > cfg.maxSize;
    && (course.stored <==>
          && watched && (first || novel)
          && c.fault !in {GetOrCreate, Embed, Count, Add} && (c.fault == Query ==> items == {}))
    && (course.alerted <==>
          && course.stored && novel && c.fault != Recount
          && (due ==> c.fault != Get && (cfg.batch > 0 ==> c.fault !in {Delete, CountAfterDelete})))
    && course.removed == if course.stored && novel && due && cfg.batch > 0 && c.fault !in {Recount, Get, Delete}
                         then c.oldest else {}
  }

  /** An alert names the service, its confidence is the distance, 1 minus the highest
      similarity, and its severity tells how many of the three boundaries that exceeds. */
  ghost predicate Says(alert: Detection, service: string, distance: real) {
    && alert.service == service && alert.confidence == distance
    && (alert.severity == Critical <==> distance > 0.7)
    && (alert.severity == High <==> 0.5 < distance <= 0.7)
    && (alert.severity == Medium <==> 0.3 < distance <= 0.5)
    && (alert.severity == Low <==> distance <= 0.3)
  }

  /** Every call takes the course it comes to, and its alert says so. */
  lemma CallExactly(cfg: Config, s: State, c: Call, e: Effect) returns (course: Course)
    requires Honest(cfg, s, c) && e == EffectOf(cfg, s.items, c)
    ensures Comes(cfg, s.items, c, course)
    ensures var arrived := if course.stored then {Item(c.id, c.service, c.at, c.embedding)} else {};
            ItemsAfter(s.items, c, e) == s.items + arrived - course.removed
    ensures DetectionOf(cfg, c, e).Some? <==> course.alerted
    ensures forall similarity | course.alerted && Highest(cfg, s.items, c, similarity) ::
              Says(DetectionOf(cfg, c, e).value, c.service, 1.0 - similarity)
  {
    course := Course(e.ColdStart? || e.Novel?, e.Novel? && e.reported, if e.Novel? then e.removed else {});
    CourseComes(cfg, s, c, e, course);
    CourseItems(s.items, c, e, course);
    if course.alerted {
      EffectPlausible(cfg, s.items, c);
      forall similarity | Highest(cfg, s.items, c, similarity)
        ensures Says(DetectionOf(cfg, c, e).value, c.service, 1.0 - similarity)
      {
        AlertSays(cfg, s, c, e, similarity);
      }
    }
  }

  lemma CourseItems(items: set<Item>, c: Call, e: Effect, course: Course)
    requires course
          == Course(e.ColdStart? || e.Novel?, e.Novel? && e.reported, if e.Novel? then e.removed else {})
    ensures ItemsAfter(items, c, e)
         == items + (if course.stored then {Item(c.id, c.service, c.at, c.embedding)} else {}) - course.removed
  {}

  lemma AlertSays(cfg: Config, s: State, c: Call, e: Effect, similarity: real)
    requires Honest(cfg, s, c) && e.Novel? && e.reported
    requires OfService(s.items, c.service) != {} && Highest(cfg, s.items, c, similarity)
    ensures DetectionOf(cfg, c, e).Some? && Says(DetectionOf(cfg, c, e).value, c.service, 1.0 - similarity)
  {
    HighestIsNearest(cfg, s, c, similarity);
  }

  lemma HighestIsNearest(cfg: Config, s: State, c: Call, similarity: real)
    requires Honest(cfg, s, c) && OfService(s.items, c.service) != {} && Highest(cfg, s.items, c, similarity)
    ensures similarity == cfg.similarity(c.embedding, c.nearest.embedding)
  {
    var x :| x in s.items && x.service == c.service && cfg.similarity(c.embedding, x.embedding) == similarity;
    assert x in OfService(s.items, c.service) && c.nearest in OfService(s.items, c.service);
  }

  lemma CourseComes(cfg: Config, s: State, c: Call, e: Effect, course: Course)
    requires Honest(cfg, s, c) && e == EffectOf(cfg, s.items, c)
    requires course
          == Course(e.ColdStart? || e.Novel?, e.Novel? && e.reported, if e.Novel? then e.removed else {})
    ensures Comes(cfg, s.items, c, course)
  {
    NearestDecides(cfg, s, c);
    FirstOrNot(s.items, c.service);
    assert OfService({}, c.service) == {};
  }

  lemma FirstOrNot(items: set<Item>, service: string)
    ensures OfService(items, service) == {} <==> forall x | x in items :: x.service != service
  {
    forall x | x in items && x.service == service ensures OfService(items, service) != {} {
      assert x in OfService(items, service);
    }
  }

  lemma NearestDecides(cfg: Config, s: State, c: Call)
    requires Honest(cfg, s, c)
    ensures Covered(cfg, s.items, c.service, c.embedding) <==>
            OfService(s.items, c.service) != {}
            && cfg.similarity(c.embedding, c.nearest.embedding) >= cfg.threshold
  {
    if OfService(s.items, c.service) != {} {
      assert c.nearest in OfService(s.items, c.service);
    }
    if Covered(cfg, s.items, c.service, c.embedding) {
      var x :| x in s.items && x.service == c.service && cfg.similarity(c.embedding, x.embedding) >= cfg.threshold;
      assert x in OfService(s.items, c.service);
    }
  }

  // ----- Accounting -----

  ghost predicate Balanced(s: State, service: string) {
    && s.items !! s.evicted
    && |OfService(Ever(s), service)| == s.alerts[service] + s.cold[service] + s.lost[service]
  }

  function Added(c: Call, e: Effect): set<Item> {
    if e.ColdStart? || e.Novel? then {NewItem(c)} else {}
  }

  lemma ApplyEver(cfg: Config, s: State, c: Call, e: Effect)
    requires s.items !! s.evicted && Honest(cfg, s, c) && Plausible(cfg, s.items, c, e)
    ensures Ever(Apply(s, c, e)) == Ever(s) + Added(c, e)
    ensures Apply(s, c, e).items !! Apply(s, c, e).evicted
  {
    if e.Novel? {
      RemovedWasThere(cfg, s, c, e);
    }
    ApplyMoves(s, c, e);
  }

  lemma RemovedWasThere(cfg: Config, s: State, c: Call, e: Effect)
    requires Honest(cfg, s, c) && Plausible(cfg, s.items, c, e) && e.Novel?
    ensures e.removed <= s.items + {NewItem(c)}
  {}

  lemma ApplyMoves(s: State, c: Call, e: Effect)
    requires s.items !! s.evicted && NewItem(c) !in s.evicted && (e.Novel? ==> e.removed <= s.items + {NewItem(c)})
    ensures Ever(Apply(s, c, e)) == Ever(s) + Added(c, e)
    ensures Apply(s, c, e).items !! Apply(s, c, e).evicted
  {}

  lemma AddCount(all: set<Item>, x: Item, service: string)
    requires x !in all
    ensures |OfService(all + {x}, service)| == |OfService(all, service)| + Bit(x.service == service)
  {
    assert OfService(all + {x}, service) == OfService(all, service) + (if x.service == service then {x} else {});
  }

  /** One call adds to exactly one tally when it stores something, and to none otherwise. */
  lemma TalliesInStep(s: State, c: Call, e: Effect, service: string)
    ensures var s' := Apply(s, c, e);
            s'.alerts[service] + s'.cold[service] + s'.lost[service]
            == s.alerts[service] + s.cold[service] + s.lost[service]
               + Bit((e.ColdStart? || e.Novel?) && c.service == service)
  {}

  lemma ApplyKeepsBalance(cfg: Config, s: State, c: Call, e: Effect, service: string)
    requires Balanced(s, service) && Honest(cfg, s, c) && Plausible(cfg, s.items, c, e)
    ensures Balanced(Apply(s, c, e), service)
  {
    ApplyEver(cfg, s, c, e);
    TalliesInStep(s, c, e, service);
    StoredInStep(Ever(s), Ever(Apply(s, c, e)), c, e, service);
  }

  lemma StoredInStep(all: set<Item>, all': set<Item>, c: Call, e: Effect, service: string)
    requires all' == all + Added(c, e) && forall x | x in all :: x.id != c.id
    ensures |OfService(all', service)|
         == |OfService(all, service)| + Bit((e.ColdStart? || e.Novel?) && c.service == service)
  {
    if e.ColdStart? || e.Novel? {
      AddCount(all, NewItem(c), service);
    } else {
      assert all' == all;
    }
  }

  /** Conservation: for each service, what is stored or was evicted is exactly one item per
      alert, per cold start and per alert lost to a fault. */
  lemma {:induction false} AlwaysBalanced(cfg: Config, calls: seq<Call>, service: string)
    requires HonestRun(cfg, calls)
    ensures Balanced(Exec(cfg, calls), service)
  {
    if calls != [] {
      var s, c := Exec(cfg, calls[..|calls| - 1]), calls[|calls| - 1];
      AlwaysBalanced(cfg, calls[..|calls| - 1], service);
      EffectPlausible(cfg, s.items, c);
      ApplyKeepsBalance(cfg, s, c, EffectOf(cfg, s.items, c), service);
    }
  }

  predicate Has(s: State, service: string) {
    exists x | x in s.items :: x.service == service
  }

  lemma ColdStartsInStep(cfg: Config, s: State, c: Call, e: Effect, service: string)
    requires s.items !! s.evicted && Honest(cfg, s, c) && Plausible(cfg, s.items, c, e)
    requires Apply(s, c, e).evicted == s.evicted
    ensures var s' := Apply(s, c, e);
            s'.cold[service] + Bit(Has(s, service)) == s.cold[service] + Bit(Has(s', service))
  {
    var s' := Apply(s, c, e);
    var x := NewItem(c);
    if e.Novel? {
      assert x !in s.evicted && e.removed <= s.evicted;
      assert s'.items == s.items + {x};
      var y :| y in OfService(s.items, c.service);
      assert Has(s, c.service);
    } else if e.ColdStart? {
      assert x in s'.items;
      forall y | y in s.items ensures y.service != c.service {
        assert y !in OfService(s.items, c.service);
      }
    }
  }

  /** From a to b, where nothing was evicted in between, the service's cold starts went up by
      one if it newly has something stored, and not otherwise. */
  ghost predicate ColdOnce(a: State, b: State, service: string) {
    && a.evicted <= b.evicted
    && (a.evicted == b.evicted ==>
          b.cold[service] + Bit(Has(a, service)) == a.cold[service] + Bit(Has(b, service)))
  }

  /** Between evictions a service cold-starts once if it had nothing stored, and not again. */
  lemma {:induction false} ColdStartsBetweenEvictions(cfg: Config, calls: seq<Call>, from: nat, service: string)
    requires from <= |calls| && HonestRun(cfg, calls)
    ensures ColdOnce(Exec(cfg, calls[..from]), Exec(cfg, calls), service)
  {
    if from == |calls| {
      assert calls[..from] == calls;
    } else {
      var n := |calls| - 1;
      assert calls[..n][..from] == calls[..from];
      ColdStartsBetweenEvictions(cfg, calls[..n], from, service);
      AlwaysBalanced(cfg, calls[..n], service);
      LastCallColdStart(cfg, Exec(cfg, calls[..n]), calls[n], service);
      ColdOnceChains(Exec(cfg, calls[..from]), Exec(cfg, calls[..n]), Exec(cfg, calls), service);
    }
  }

  lemma ColdOnceChains(a: State, b: State, c: State, service: string)
    requires ColdOnce(a, b, service) && ColdOnce(b, c, service)
    ensures ColdOnce(a, c, service)
  {}

  lemma LastCallColdStart(cfg: Config, s: State, c: Call, service: string)
    requires s.items !! s.evicted && Honest(cfg, s, c)
    ensures ColdOnce(s, Step(cfg, s, c), service)
  {
    EffectPlausible(cfg, s.items, c);
    if Step(cfg, s, c).evicted == s.evicted {
      ColdStartsInStep(cfg, s, c, EffectOf(cfg, s.items, c), service);
    }
  }

  /** In a run that evicts nothing, a service's alerts, raised or lost to a fault, number its
      stored patterns less the one it started from; and everything compared or stored is
      covered by what is stored now. */
  lemma EvictionFreeRun(cfg: Config, calls: seq<Call>, service: string)
    requires HonestRun(cfg, calls) && Exec(cfg, calls).evicted == {}
    ensures var s := Exec(cfg, calls);
            s.alerts[service] + s.lost[service] + Bit(Has(s, service)) == |OfService(s.items, service)|
    ensures SelfSimilar(cfg) ==> Covers(cfg, Exec(cfg, calls).items, Exec(cfg, calls).seen)
  {
    var s := Exec(cfg, calls);
    AlwaysBalanced(cfg, calls, service);
    ColdStartsBetweenEvictions(cfg, calls, 0, service);
    assert calls[..0] == [] && Ever(s) == s.items;
    if SelfSimilar(cfg) {
      AlwaysCovers(cfg, calls);
    }
  }

  // ----- Size -----

  function Services(items: set<Item>): set<string> {
    set x | x in items :: x.service
  }

  /** The potential argument: every item above the limit is paid for by a service that has
      something stored, or by an eviction that failed. */
  ghost predicate WithinPotential(cfg: Config, s: State) {
    |s.items| <= cfg.maxSize + |Services(s.items)| + s.overdue
  }

  lemma ApplyKeepsPotential(cfg: Config, s: State, c: Call, e: Effect, watched: set<string>)
    requires WithinPotential(cfg, s) && Honest(cfg, s, c) && Plausible(cfg, s.items, c, e)
    requires Services(s.items) <= watched && (Watched(c.level) ==> c.service in watched)
    requires |watched| <= cfg.batch
    ensures WithinPotential(cfg, Apply(s, c, e)) && Services(Apply(s, c, e).items) <= watched
  {
    if e.ColdStart? {
      ColdStartPays(cfg, s, c, e, watched);
    } else if e.Novel? && e.removed == {} {
      NothingTrimmed(cfg, s, c, e, watched);
    } else if e.Novel? {
      EvictionPays(cfg, s, c, e, watched);
    }
  }

  lemma ServicesWith(items: set<Item>, x: Item)
    ensures Services(items + {x}) == Services(items) + {x.service}
    ensures x.service in Services(items) <==> OfService(items, x.service) != {}
  {
    if OfService(items, x.service) != {} {
      var y :| y in OfService(items, x.service);
      assert y in items;
    }
    forall y | y in items && y.service == x.service ensures OfService(items, x.service) != {} {
      assert y in OfService(items, x.service);
    }
  }

  lemma ColdStartPays(cfg: Config, s: State, c: Call, e: Effect, watched: set<string>)
    requires WithinPotential(cfg, s) && Honest(cfg, s, c) && Plausible(cfg, s.items, c, e) && e.ColdStart?
    requires Services(s.items) <= watched && c.service in watched
    ensures WithinPotential(cfg, Apply(s, c, e)) && Services(Apply(s, c, e).items) <= watched
  {
    ServicesWith(s.items, NewItem(c));
    assert |s.items + {NewItem(c)}| <= |s.items| + 1;
  }

  lemma NothingTrimmed(cfg: Config, s: State, c: Call, e: Effect, watched: set<string>)
    requires WithinPotential(cfg, s) && Honest(cfg, s, c) && Plausible(cfg, s.items, c, e)
    requires Services(s.items) <= watched && c.service in watched && |watched| <= cfg.batch
    requires e.Novel? && e.removed == {}
    ensures WithinPotential(cfg, Apply(s, c, e)) && Services(Apply(s, c, e).items) <= watched
  {
    var all := s.items + {NewItem(c)};
    ServicesWith(s.items, NewItem(c));
    assert |all| <= |s.items| + 1;
    assert Apply(s, c, e).items == all;
    assert Services(s.items) + {c.service} == Services(s.items);
    if !e.overdue {
      SubsetCount({c.service}, watched);
      assert NewItem(c) in all && |all| > 0;
      assert |c.oldest| > 0;
    }
  }

  lemma EvictionPays(cfg: Config, s: State, c: Call, e: Effect, watched: set<string>)
    requires WithinPotential(cfg, s) && Honest(cfg, s, c)
    requires Services(s.items) <= watched && c.service in watched && |watched| <= cfg.batch
    requires e.Novel? && e.removed == c.oldest
    ensures WithinPotential(cfg, Apply(s, c, e)) && Services(Apply(s, c, e).items) <= watched
  {
    var all := s.items + {NewItem(c)};
    var left := Apply(s, c, e).items;
    assert left == all - c.oldest && |all| <= |s.items| + 1;
    assert |left| == |all| - |c.oldest|;
    SubsetCount(Services(s.items), watched);
    ServicesWith(s.items, NewItem(c));
    assert Services(left) <= Services(all);
    if left != {} {
      var y :| y in left;
      assert {y.service} <= Services(left);
      SubsetCount({y.service}, Services(left));
    }
  }

  ghost predicate OnlyFrom(calls: seq<Call>, watched: set<string>) {
    forall c | c in calls && Watched(c.level) :: c.service in watched
  }

  /** Over whole runs: if the services that ever log errors are no more than the eviction
      batch, the collection never holds more than the configured maximum plus one item per
      service with something stored, plus one per eviction that was due and failed. The cold
      starts, which skip the size check, cannot add up beyond that. */
  lemma {:induction false} CollectionBounded(cfg: Config, calls: seq<Call>, watched: set<string>)
    requires HonestRun(cfg, calls) && OnlyFrom(calls, watched) && |watched| <= cfg.batch
    ensures WithinPotential(cfg, Exec(cfg, calls)) && Services(Exec(cfg, calls).items) <= watched
    ensures |Exec(cfg, calls).items| <= cfg.maxSize + |watched| + Exec(cfg, calls).overdue
  {
    if calls != [] {
      var s, c := Exec(cfg, calls[..|calls| - 1]), calls[|calls| - 1];
      CollectionBounded(cfg, calls[..|calls| - 1], watched);
      EffectPlausible(cfg, s.items, c);
      ApplyKeepsPotential(cfg, s, c, EffectOf(cfg, s.items, c), watched);
    }
    SubsetCount(Services(Exec(cfg, calls).items), watched);
  }
}
