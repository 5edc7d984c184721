/** The semantic cache: similarity lookup over a SCANned keyspace, storing with a TTL, and the
    hit and miss counters. */
module SemanticCache {
  import opened Wrappers
  import opened CacheKeys
  import opened Cosine
  import opened Sequences
  import R = Reals

  /** A stored JSON field: missing, not parseable, null, or a value. */
  datatype Field<T> = Absent | Malformed | Null | Present(value: T)

  /** A cache entry; expires is None until EXPIRE has been issued. */
  datatype Entry = Entry(embedding: Field<Vector>, result: Field<string>, expires: Option<real>)

  type Store = map<string, Entry>

  datatype Config = Config(threshold: real, ttl: real, sqrt: real -> real)

  datatype Reply = Reply(hit: bool, result: Option<string>, score: Option<real>)

  const MISS := Reply(false, None, None)

  /** The best entry so far; its score starts at -1. */
  datatype Best = Best(score: real, result: Option<string>)

  // ----- Lookup -----

  predicate LiveEntry(store: Store, key: string, t: real) {
    key in store && (store[key].expires.Some? ==> t < store[key].expires.value)
  }

  /** One lookup: the embedding of the query (None when the client raised), the SCAN pages
      (None when the scan raised), the keys whose read raises, the time, and whether the
      counter increment succeeds. */
  datatype Query = Query(tenant: string, embedding: Option<Vector>, pages: Option<seq<seq<string>>>,
                         broken: set<string>, t: real, counted: bool)

  /** The score of an entry the loop can compare: live, readable, with both fields and an
      embedding of the query's shape. */
  function ScoreOf(cfg: Config, store: Store, q: Query, key: string): Option<real>
    requires q.embedding.Some?
  {
    if key in q.broken || !LiveEntry(store, key, q.t) || store[key].result.Absent? then None
    else match store[key].embedding
         case Present(vector) =>
           (match Similarity(cfg.sqrt, q.embedding.value, vector) case Ok(score) => Some(score) case Err(_) => None)
         case _ => None
  }

  function Visit(cfg: Config, store: Store, q: Query, best: Best, key: string): Best
    requires q.embedding.Some?
  {
    match ScoreOf(cfg, store, q, key)
    case None => best
    case Some(score) =>
      if score <= best.score then best
      else match store[key].result
           case Present(result) => Best(score, Some(result))
           case Null => Best(score, None)
           case _ => best.(score := score)
  }

  function VisitAll(cfg: Config, store: Store, q: Query, keys: seq<string>): Best
    requires q.embedding.Some?
  {
    if keys == [] then Best(-1.0, None)
    else Visit(cfg, store, q, VisitAll(cfg, store, q, keys[..|keys| - 1]), keys[|keys| - 1])
  }

  /** Keeps the keys that are not counters. */
  function EntryKeys(keys: seq<string>): (entries: seq<string>)
    ensures forall k :: k in entries <==> k in keys && !IsCounter(k)
  {
    if keys == [] then []
    else
      var last := keys[|keys| - 1];
      assert forall k :: k in keys <==> k in keys[..|keys| - 1] || k == last;
      EntryKeys(keys[..|keys| - 1]) + if IsCounter(last) then [] else [last]
  }

  function Answer(cfg: Config, store: Store, q: Query): Reply {
    if q.embedding.None? || q.pages.None? then MISS
    else
      var best := VisitAll(cfg, store, q, EntryKeys(Flatten(q.pages.value)));
      if best.score >= cfg.threshold && best.result.Some? then Reply(true, best.result, Some(best.score)) else MISS
  }

  // ----- A lookup is an argmax -----

  /** Every entry with an embedding has a parseable result that is not null. */
  ghost predicate Intact(store: Store) {
    forall k | k in store && store[k].embedding.Present? :: store[k].result.Present?
  }

  /** An iteration of SCAN returns every live matching key, possibly more than once, and keys
      that have just expired. */
  ghost predicate Scans(store: Store, q: Query) {
    && q.pages.Some?
    && (forall k | k in Flatten(q.pages.value) :: Glob(Pattern(q.tenant), k))
    && (forall k | LiveEntry(store, k, q.t) && Glob(Pattern(q.tenant), k) :: k in Flatten(q.pages.value))
  }

  /** The entry under the key is live and its read does not fail, it has both fields, and its
      embedding compares with the query's as the score says. */
  ghost predicate Scores(cfg: Config, store: Store, q: Query, key: string, score: real)
    requires q.embedding.Some?
  {
    && key in store && key !in q.broken
    && (store[key].expires == None || q.t < store[key].expires.value)
    && !store[key].result.Absent? && store[key].embedding.Present?
    && Similarity(cfg.sqrt, q.embedding.value, store[key].embedding.value) == Ok(score)
  }

  lemma ScoreOfExactly(cfg: Config, store: Store, q: Query, key: string, score: real)
    requires q.embedding.Some?
    ensures ScoreOf(cfg, store, q, key) == Some(score) <==> Scores(cfg, store, q, key, score)
  {}

  lemma ScoreInRange(cfg: Config, store: Store, q: Query, key: string, score: real)
    requires q.embedding.Some? && R.IsRoot(cfg.sqrt) && Scores(cfg, store, q, key, score)
    ensures 0.0 <= score <= 1.0
  {
    ScoreIsSound(cfg.sqrt, q.embedding.value, store[key].embedding.value);
  }

  /** The i-th key returned is that of an entry with this score. */
  ghost predicate EntryAt(cfg: Config, store: Store, q: Query, keys: seq<string>, i: nat, score: real)
    requires q.embedding.Some?
  {
    i < |keys| && !IsCounter(keys[i]) && Scores(cfg, store, q, keys[i], score)
  }

  /** It is the first of those with the highest score. */
  ghost predicate Wins(cfg: Config, store: Store, q: Query, keys: seq<string>, i: nat, score: real)
    requires q.embedding.Some?
  {
    && EntryAt(cfg, store, q, keys, i, score)
    && forall j: nat, other | EntryAt(cfg, store, q, keys, j, other) :: other <= score && (j < i ==> other < score)
  }

  /** The score and the result are those of the i-th key, which wins. */
  ghost predicate Winner(cfg: Config, store: Store, q: Query, keys: seq<string>, i: nat, score: real, result: string)
    requires q.embedding.Some?
  {
    Wins(cfg, store, q, keys, i, score) && store[keys[i]].result == Present(result)
  }

  ghost predicate Found(cfg: Config, store: Store, q: Query, keys: seq<string>, best: Best)
    requires q.embedding.Some?
  {
    if best == Best(-1.0, None) then forall i: nat, score :: !EntryAt(cfg, store, q, keys, i, score)
    else best.result.Some? && exists i: nat :: Winner(cfg, store, q, keys, i, best.score, best.result.value)
  }

  lemma EntryAtOneMore(cfg: Config, store: Store, q: Query, keys: seq<string>, last: string, i: nat, score: real)
    requires q.embedding.Some?
    ensures EntryAt(cfg, store, q, keys + [last], i, score) <==>
            EntryAt(cfg, store, q, keys, i, score)
            || (i == |keys| && !IsCounter(last) && Scores(cfg, store, q, last, score))
  {}

  /** The last key changes nothing, or beats all the others. */
  lemma WinsOneMore(cfg: Config, store: Store, q: Query, keys: seq<string>, last: string, i: nat, score: real)
    requires q.embedding.Some?
    requires Wins(cfg, store, q, keys, i, score)
    ensures (IsCounter(last) || forall other | Scores(cfg, store, q, last, other) :: other <= score) ==>
              Wins(cfg, store, q, keys + [last], i, score)
    ensures forall other | !IsCounter(last) && Scores(cfg, store, q, last, other) && other > score ::
              Wins(cfg, store, q, keys + [last], |keys|, other)
  {
    forall j: nat, s ensures EntryAt(cfg, store, q, keys + [last], j, s) <==>
                             EntryAt(cfg, store, q, keys, j, s)
                             || (j == |keys| && !IsCounter(last) && Scores(cfg, store, q, last, s))
    {
      EntryAtOneMore(cfg, store, q, keys, last, j, s);
    }
  }

  lemma VisitKeepsFound(cfg: Config, store: Store, q: Query, keys: seq<string>, last: string, best: Best)
    requires q.embedding.Some? && R.IsRoot(cfg.sqrt) && Intact(store)
    requires Found(cfg, store, q, keys, best)
    ensures Found(cfg, store, q, keys + [last], if IsCounter(last) then best else Visit(cfg, store, q, best, last))
  {
    var longer := keys + [last];
    var score := ScoreOf(cfg, store, q, last);
    forall s ensures Scores(cfg, store, q, last, s) <==> score == Some(s) {
      ScoreOfExactly(cfg, store, q, last, s);
    }
    forall j: nat, s ensures EntryAt(cfg, store, q, longer, j, s) <==>
                             EntryAt(cfg, store, q, keys, j, s)
                             || (j == |keys| && !IsCounter(last) && score == Some(s))
    {
      EntryAtOneMore(cfg, store, q, keys, last, j, s);
    }
    if score.Some? {
      ScoreInRange(cfg, store, q, last, score.value);
    }
    if best != Best(-1.0, None) {
      var i: nat :| Winner(cfg, store, q, keys, i, best.score, best.result.value);
      WinsOneMore(cfg, store, q, keys, last, i, best.score);
      if IsCounter(last) || score.None? || score.value <= best.score {
        assert Winner(cfg, store, q, longer, i, best.score, best.result.value);
      } else {
        assert Winner(cfg, store, q, longer, |keys|, score.value, store[last].result.value);
      }
    } else if !IsCounter(last) && score.Some? {
      assert Winner(cfg, store, q, longer, |keys|, score.value, store[last].result.value);
    }
  }

  lemma EntryKeysOneMore(cfg: Config, store: Store, q: Query, front: seq<string>, last: string)
    requires q.embedding.Some?
    ensures VisitAll(cfg, store, q, EntryKeys(front + [last]))
         == var best := VisitAll(cfg, store, q, EntryKeys(front));
            if IsCounter(last) then best else Visit(cfg, store, q, best, last)
  {
    var keys := front + [last];
    assert keys[..|keys| - 1] == front;
    assert EntryKeys(keys) == EntryKeys(front) + if IsCounter(last) then [] else [last];
    if IsCounter(last) {
      assert EntryKeys(keys) == EntryKeys(front);
    } else {
      assert EntryKeys(keys)[..|EntryKeys(front)|] == EntryKeys(front);
    }
  }

  lemma {:induction false} VisitAllFinds(cfg: Config, store: Store, q: Query, keys: seq<string>)
    requires q.embedding.Some? && R.IsRoot(cfg.sqrt) && Intact(store)
    ensures Found(cfg, store, q, keys, VisitAll(cfg, store, q, EntryKeys(keys)))
  {
    if keys != [] {
      var front, last := keys[..|keys| - 1], keys[|keys| - 1];
      assert keys == front + [last];
      VisitAllFinds(cfg, store, q, front);
      VisitKeepsFound(cfg, store, q, front, last, VisitAll(cfg, store, q, EntryKeys(front)));
      EntryKeysOneMore(cfg, store, q, front, last);
    }
  }

  /** Whatever SCAN returns: a lookup hits exactly when some entry it returned scores at least
      the threshold against the query, and then answers with the result and the score of the
      first of those that score highest. */
  lemma LookupOverScan(cfg: Config, store: Store, q: Query, keys: seq<string>, reply: Reply)
    requires R.IsRoot(cfg.sqrt) && Intact(store) && reply == Answer(cfg, store, q)
    requires q.pages.Some? ==> keys == Flatten(q.pages.value)
    ensures q.embedding.None? || q.pages.None? ==> reply == Reply(false, None, None)
    ensures q.embedding.Some? && q.pages.Some? ==>
              && (reply.hit <==>
                    exists i: nat, score :: EntryAt(cfg, store, q, keys, i, score) && score >= cfg.threshold)
              && (!reply.hit ==> reply == Reply(false, None, None))
              && (reply.hit ==>
                    && reply.score.Some? && reply.result.Some?
                    && exists i: nat :: Winner(cfg, store, q, keys, i, reply.score.value, reply.result.value))
  {
    if q.embedding.Some? && q.pages.Some? {
      var best := VisitAll(cfg, store, q, EntryKeys(keys));
      VisitAllFinds(cfg, store, q, keys);
      if best != Best(-1.0, None) {
        var i: nat :| Winner(cfg, store, q, keys, i, best.score, best.result.value);
        assert EntryAt(cfg, store, q, keys, i, best.score);
      }
    }
  }

  // ----- Between tenants -----

  /** The live, comparable entry of one tenant, and its score. */
  ghost predicate Candidate(cfg: Config, store: Store, q: Query, key: string, score: real)
    requires q.embedding.Some?
  {
    Scores(cfg, store, q, key, score) && exists uid :: OwnEntry(q.tenant, uid, key)
  }

  predicate OwnEntry(tenant: string, uid: string, key: string) {
    ColonFree(uid) && uid != "hits" && uid != "misses" && key == "cache:" + tenant + ":" + uid
  }

  /** Every stored key is an entry of some tenant with a colon-free id. */
  ghost predicate WellKeyed(store: Store) {
    forall k | k in store :: exists tenant, uid :: ColonFree(tenant) && OwnEntry(tenant, uid, k)
  }

  lemma OwnIffSeen(store: Store, tenant: string, key: string)
    requires WellKeyed(store) && key in store && Literal(tenant) && ColonFree(tenant)
    ensures (exists uid :: OwnEntry(tenant, uid, key)) <==> Glob(Pattern(tenant), key)
    ensures !IsCounter(key)
  {
    var other, uid :| ColonFree(other) && OwnEntry(other, uid, key);
    TenantsSeparate(tenant, other, uid);
    KeysInjective(other, uid, other, uid);
    if uid' :| OwnEntry(tenant, uid', key) {
      KeysInjective(other, uid, tenant, uid');
    }
  }

  lemma SeenAreCandidates(cfg: Config, store: Store, q: Query, keys: seq<string>, key: string, score: real)
    requires q.embedding.Some? && Scans(store, q) && keys == Flatten(q.pages.value)
    requires WellKeyed(store) && Literal(q.tenant) && ColonFree(q.tenant)
    ensures Candidate(cfg, store, q, key, score) <==>
            exists i: nat :: EntryAt(cfg, store, q, keys, i, score) && keys[i] == key
  {
    if Scores(cfg, store, q, key, score) {
      OwnIffSeen(store, q.tenant, key);
      assert LiveEntry(store, key, q.t);
      if i: nat :| i < |keys| && keys[i] == key {
        assert EntryAt(cfg, store, q, keys, i, score);
      }
    }
  }

  /** reply carries the result and the score of k, which has the highest score of all. */
  ghost predicate BestCandidate(cfg: Config, store: Store, q: Query, k: string, reply: Reply)
    requires q.embedding.Some?
  {
    && reply.score.Some? && reply.result.Some?
    && Candidate(cfg, store, q, k, reply.score.value) && store[k].result == Present(reply.result.value)
    && forall k', score | Candidate(cfg, store, q, k', score) :: score <= reply.score.value
  }

  /** For any batching, order and repetition of the scan: a lookup hits exactly when one of the
      tenant's own live entries scores at least the threshold, and then returns the result and
      the score of an entry with the highest score. */
  lemma LookupIsArgmax(cfg: Config, store: Store, q: Query)
    requires R.IsRoot(cfg.sqrt) && Intact(store) && WellKeyed(store) && Literal(q.tenant) && ColonFree(q.tenant)
    requires q.embedding.Some? && Scans(store, q)
    ensures var reply := Answer(cfg, store, q);
            && (reply.hit <==> exists k, score :: Candidate(cfg, store, q, k, score) && score >= cfg.threshold)
            && (reply.hit ==> exists k :: BestCandidate(cfg, store, q, k, reply))
            && (!reply.hit ==> reply == Reply(false, None, None))
  {
    var keys, reply := Flatten(q.pages.value), Answer(cfg, store, q);
    LookupOverScan(cfg, store, q, keys, reply);
    forall k, score ensures Candidate(cfg, store, q, k, score) <==>
                            exists i: nat :: EntryAt(cfg, store, q, keys, i, score) && keys[i] == k
    {
      SeenAreCandidates(cfg, store, q, keys, k, score);
    }
    if reply.hit {
      var i: nat :| Winner(cfg, store, q, keys, i, reply.score.value, reply.result.value);
      assert BestCandidate(cfg, store, q, keys[i], reply);
    }
  }

  /** Without that invariant the answer can be wrong: an entry whose result cannot be parsed
      still overwrites the best score, so the result of a worse entry is returned under it. */
  lemma UnparseableResultMisleads(cfg: Config, store: Store, q: Query, good: string, bad: string, low: real,
                                  high: real)
    requires q.embedding.Some? && q.pages.Some? && EntryKeys(Flatten(q.pages.value)) == [good, bad]
    requires Scores(cfg, store, q, good, low) && store[good].result.Present?
    requires Scores(cfg, store, q, bad, high) && store[bad].result.Malformed?
    requires -1.0 < low < cfg.threshold <= high
    ensures Answer(cfg, store, q) == Reply(true, Some(store[good].result.value), Some(high))
  {
    var keys := [good, bad];
    ScoreOfExactly(cfg, store, q, good, low);
    ScoreOfExactly(cfg, store, q, bad, high);
    assert keys[..1] == [good] && keys[..1][..0] == [];
    assert VisitAll(cfg, store, q, [good]) == Best(low, Some(store[good].result.value));
    assert VisitAll(cfg, store, q, keys) == Visit(cfg, store, q, VisitAll(cfg, store, q, [good]), bad);
  }

  // ----- Storing, and whole runs -----

  /** One save: written and expiring tell whether HSET and EXPIRE succeed. */
  datatype Save = Save(tenant: string, uid: string, embedding: Option<Vector>, result: string, t: real,
                       written: bool, expiring: bool)

  function Stored(cfg: Config, store: Store, s: Save): Store {
    if s.embedding.None? || !s.written then store
    else store[EntryKey(s.tenant, s.uid) :=
      Entry(Present(s.embedding.value), Present(s.result), if s.expiring then Some(s.t + cfg.ttl) else None)]
  }

  datatype Op = Get(query: Query) | Set(save: Save)

  datatype State = State(store: Store, counters: map<string, nat>)

  function Bump(counters: map<string, nat>, key: string): map<string, nat> {
    counters[key := if key in counters then counters[key] + 1 else 1]
  }

  function CounterKey(tenant: string, hit: bool): string {
    if hit then HitsKey(tenant) else MissesKey(tenant)
  }

  /** A lookup that got as far as comparing entries counts as a hit or a miss. */
  predicate Counts(q: Query) {
    q.embedding.Some? && q.pages.Some? && q.counted
  }

  function Step(cfg: Config, s: State, op: Op): State {
    match op
    case Get(q) =>
      if Counts(q) then s.(counters := Bump(s.counters, CounterKey(q.tenant, Answer(cfg, s.store, q).hit))) else s
    case Set(save) => s.(store := Stored(cfg, s.store, save))
  }

  function Run(cfg: Config, ops: seq<Op>): State {
    if ops == [] then State(map[], map[]) else Step(cfg, Run(cfg, ops[..|ops| - 1]), ops[|ops| - 1])
  }

  /** Saves use colon-free tenant ids and fresh uids, like UUIDs. */
  ghost predicate FreshIds(ops: seq<Op>) {
    && (forall i | 0 <= i < |ops| && ops[i].Set? ::
          ColonFree(ops[i].save.tenant) && OwnEntry(ops[i].save.tenant, ops[i].save.uid, SaveKey(ops[i])))
    && (forall i, j | 0 <= i < j < |ops| && ops[i].Set? && ops[j].Set? :: ops[i].save.uid != ops[j].save.uid)
  }

  function SaveKey(op: Op): string
    requires op.Set?
  {
    EntryKey(op.save.tenant, op.save.uid)
  }

  /** What set establishes holds in every run. */
  lemma {:induction false} AlwaysIntact(cfg: Config, ops: seq<Op>)
    requires FreshIds(ops)
    ensures Intact(Run(cfg, ops).store) && WellKeyed(Run(cfg, ops).store)
  {
    if ops != [] {
      AlwaysIntact(cfg, ops[..|ops| - 1]);
    }
  }

  /** How many counted lookups of one tenant hit, or missed. */
  function Outcomes(cfg: Config, ops: seq<Op>, tenant: string, hit: bool): nat {
    if ops == [] then 0
    else
      var front, op := ops[..|ops| - 1], ops[|ops| - 1];
      Outcomes(cfg, front, tenant, hit)
      + if op.Get? && Counts(op.query) && op.query.tenant == tenant
           && Answer(cfg, Run(cfg, front).store, op.query).hit == hit then 1 else 0
  }

  lemma CounterKeyIs(tenant: string, hit: bool)
    ensures CounterKey(tenant, hit) == "cache:" + tenant + if hit then ":hits" else ":misses"
  {
    assert "cache:" + tenant + ":" + "hits" == "cache:" + tenant + ":hits";
    assert "cache:" + tenant + ":" + "misses" == "cache:" + tenant + ":misses";
  }

  /** A lookup changes no entry, and one counter if it could embed the query, could scan and
      could count: its tenant's hits or its misses, by one. */
  lemma LookupCounts(cfg: Config, s: State, q: Query, key: string)
    ensures var s' := Step(cfg, s, Get(q));
            var counter := "cache:" + q.tenant + if Answer(cfg, s.store, q).hit then ":hits" else ":misses";
            var bumped := q.embedding.Some? && q.pages.Some? && q.counted && key == counter;
            && s'.store == s.store
            && (key in s'.counters <==> key in s.counters || bumped)
            && (key in s'.counters ==>
                  s'.counters[key] == (if key in s.counters then s.counters[key] else 0) + if bumped then 1 else 0)
  {
    CounterKeyIs(q.tenant, Answer(cfg, s.store, q).hit);
  }

  /** The counters of every tenant are exactly its hits and its misses. */
  lemma {:induction false} CountersAreExact(cfg: Config, ops: seq<Op>, tenant: string, hit: bool)
    ensures var counters := Run(cfg, ops).counters;
            var key := "cache:" + tenant + if hit then ":hits" else ":misses";
            Outcomes(cfg, ops, tenant, hit) == if key in counters then counters[key] else 0
  {
    if ops != [] {
      var front, op := ops[..|ops| - 1], ops[|ops| - 1];
      CountersAreExact(cfg, front, tenant, hit);
      CounterKeyIs(tenant, hit);
      if op.Get? && Counts(op.query) {
        CounterKeysDiffer(tenant, hit, op.query.tenant, Answer(cfg, Run(cfg, front).store, op.query).hit);
      }
    }
  }

  lemma CounterKeysDiffer(tenant: string, hit: bool, other: string, hit': bool)
    ensures CounterKey(tenant, hit) == CounterKey(other, hit') <==> tenant == other && hit == hit'
  {
    KeysInjective(tenant, if hit then "hits" else "misses", other, if hit' then "hits" else "misses");
  }

  lemma {:induction false} SavedStays(cfg: Config, ops: seq<Op>, i: nat)
    requires FreshIds(ops) && i < |ops| && ops[i].Set? && ops[i].save.embedding.Some? && ops[i].save.written
    ensures var s := ops[i].save;
            && SaveKey(ops[i]) in Run(cfg, ops).store
            && Run(cfg, ops).store[SaveKey(ops[i])]
               == Entry(Present(s.embedding.value), Present(s.result), if s.expiring then Some(s.t + cfg.ttl) else None)
  {
    var n := |ops| - 1;
    if i < n {
      SavedStays(cfg, ops[..n], i);
      if ops[n].Set? {
        KeysInjective(ops[i].save.tenant, ops[i].save.uid, ops[n].save.tenant, ops[n].save.uid);
      }
    }
  }

  /** After a successful set, a lookup of the same text by the same tenant is a hit with score
      1 until the TTL runs out, whatever happens in between; once it has run out the entry is
      no candidate, unless EXPIRE failed, in which case it is one for ever. */
  lemma SavedIsFoundUntilExpiry(cfg: Config, ops: seq<Op>, i: nat, q: Query)
    requires R.IsRoot(cfg.sqrt) && cfg.threshold <= 1.0
    requires FreshIds(ops) && i < |ops| && ops[i].Set? && ops[i].save.embedding.Some? && ops[i].save.written
    requires q.tenant == ops[i].save.tenant && Literal(q.tenant) && SaveKey(ops[i]) !in q.broken
    requires q.embedding == ops[i].save.embedding && Dot(q.embedding.value, q.embedding.value) != 0.0
    requires Scans(Run(cfg, ops).store, q)
    ensures !ops[i].save.expiring || q.t < ops[i].save.t + cfg.ttl ==>
              && Candidate(cfg, Run(cfg, ops).store, q, SaveKey(ops[i]), 1.0)
              && Answer(cfg, Run(cfg, ops).store, q).hit && Answer(cfg, Run(cfg, ops).store, q).score == Some(1.0)
    ensures ops[i].save.expiring && q.t >= ops[i].save.t + cfg.ttl ==>
              forall score :: !Candidate(cfg, Run(cfg, ops).store, q, SaveKey(ops[i]), score)
  {
    var store, s := Run(cfg, ops).store, ops[i].save;
    SavedStays(cfg, ops, i);
    AlwaysIntact(cfg, ops);
    if !s.expiring || q.t < s.t + cfg.ttl {
      SelfScores(cfg, store, q, s.uid);
      PerfectMatchWins(cfg, store, q, SaveKey(ops[i]));
    }
  }

  lemma SelfScores(cfg: Config, store: Store, q: Query, uid: string)
    requires R.IsRoot(cfg.sqrt) && q.embedding.Some? && Dot(q.embedding.value, q.embedding.value) != 0.0
    requires OwnEntry(q.tenant, uid, EntryKey(q.tenant, uid)) && EntryKey(q.tenant, uid) !in q.broken
    requires LiveEntry(store, EntryKey(q.tenant, uid), q.t)
    requires store[EntryKey(q.tenant, uid)].embedding == Present(q.embedding.value)
    requires store[EntryKey(q.tenant, uid)].result.Present?
    ensures Candidate(cfg, store, q, EntryKey(q.tenant, uid), 1.0)
  {
    SelfScore(cfg.sqrt, q.embedding.value);
  }

  lemma PerfectMatchWins(cfg: Config, store: Store, q: Query, key: string)
    requires R.IsRoot(cfg.sqrt) && Intact(store) && WellKeyed(store) && Literal(q.tenant) && ColonFree(q.tenant)
    requires q.embedding.Some? && Scans(store, q) && cfg.threshold <= 1.0
    requires Candidate(cfg, store, q, key, 1.0)
    ensures Answer(cfg, store, q).hit && Answer(cfg, store, q).score == Some(1.0)
  {
    LookupIsArgmax(cfg, store, q);
    var best :| BestCandidate(cfg, store, q, best, Answer(cfg, store, q));
    ScoreInRange(cfg, store, q, best, Answer(cfg, store, q).score.value);
  }

  // ----- Statistics -----

  datatype Stats = Stats(hits: nat, misses: nat, hitRate: real, keysStored: nat, tokensSaved: nat)

  function CounterValue(counters: map<string, nat>, key: string): nat {
    if key in counters then counters[key] else 0
  }

  function HitRate(hits: nat, misses: nat): real {
    if hits + misses > 0 then hits as real / (hits + misses) as real else 0.0
  }

  lemma HitRateSound(hits: nat, misses: nat)
    ensures HitRate(hits, misses) * (hits + misses) as real == hits as real
    ensures 0.0 <= HitRate(hits, misses) <= 1.0
  {
    if hits + misses > 0 {
      Fraction(hits as real, (hits + misses) as real, HitRate(hits, misses));
    }
  }

  lemma Fraction(x: real, n: real, f: real)
    requires n > 0.0 && 0.0 <= x <= n && f == x / n
    ensures f * n == x && 0.0 <= f <= 1.0
  {
    assert f * n == x;
    if f < 0.0 {
      R.PositiveProduct(-f, n, -x);
    }
    if f > 1.0 {
      R.PositiveProduct(f - 1.0, n, x - n);
    }
  }

  lemma {:induction false} EntryKeysOnce(keys: seq<string>)
    requires Distinct(keys)
    ensures Distinct(EntryKeys(keys))
  {
    if keys != [] {
      EntryKeysOnce(keys[..|keys| - 1]);
      assert keys[|keys| - 1] !in EntryKeys(keys[..|keys| - 1]);
    }
  }

  ghost function LiveEntries(store: Store, tenant: string, t: real): set<string> {
    set k | k in store && LiveEntry(store, k, t) && exists uid :: OwnEntry(tenant, uid, k)
  }

  /** A scan that returns live keys, once each, counts exactly the tenant's live entries; a
      repeated key is counted again. */
  lemma KeysStoredAreEntries(store: Store, q: Query)
    requires Scans(store, q) && WellKeyed(store) && Literal(q.tenant) && ColonFree(q.tenant)
    requires Distinct(Flatten(q.pages.value))
    requires forall k | k in Flatten(q.pages.value) && !IsCounter(k) :: LiveEntry(store, k, q.t)
    ensures |EntryKeys(Flatten(q.pages.value))|
         == |LiveEntries(store, q.tenant, q.t)|
  {
    var keys := Flatten(q.pages.value);
    EntryKeysOnce(keys);
    ElementsCount(EntryKeys(keys));
    forall k | k in store ensures (exists uid :: OwnEntry(q.tenant, uid, k)) <==> Glob(Pattern(q.tenant), k)
      ensures !IsCounter(k)
    {
      OwnIffSeen(store, q.tenant, k);
    }
    assert Elements(EntryKeys(keys)) == LiveEntries(store, q.tenant, q.t);
  }

  // ----- The cache -----

  class SemanticCache {
    const cfg: Config
    var store: Store
    var counters: map<string, nat>

    constructor (cfg: Config)
      ensures this.cfg == cfg && store == map[] && counters == map[]
    {
      this.cfg, store, counters := cfg, map[], map[];
    }

    /** Follows the SCAN cursor and keeps the entry keys. */
    method ScanEntryKeys(pages: seq<seq<string>>) returns (entryKeys: seq<string>)
      ensures entryKeys == EntryKeys(Flatten(pages))
    {
      entryKeys := [];
      ghost var seen: seq<string> := [];
      for p := 0 to |pages|
        invariant seen == Flatten(pages[..p]) && entryKeys == EntryKeys(seen)
      {
        var batch := pages[p];
        for j := 0 to |batch|
          invariant seen == Flatten(pages[..p]) + batch[..j] && entryKeys == EntryKeys(seen)
        {
          var key := batch[j];
          assert (seen + [key])[..|seen|] == seen;
          PageOneMore(pages, p, j);
          seen := seen + [key];
          var suffix := Suffix(key);
          if suffix != "hits" && suffix != "misses" {
            entryKeys := entryKeys + [key];
          }
        }
        FlattenOneMore(pages, p);
      }
      assert pages[..|pages|] == pages;
    }

    method Lookup(q: Query) returns (reply: Reply)
      modifies `counters
      ensures reply == Answer(cfg, store, q)
      ensures State(store, counters) == Step(cfg, State(store, old(counters)), Get(q))
    {
      if q.embedding.None? || q.pages.None? {
        return MISS;
      }
      var entryKeys := ScanEntryKeys(q.pages.value);
      var bestScore, bestResult: Option<string> := -1.0, None;
      for i := 0 to |entryKeys|
        invariant Best(bestScore, bestResult) == VisitAll(cfg, store, q, entryKeys[..i])
        invariant counters == old(counters)
      {
        var key := entryKeys[i];
        assert entryKeys[..i + 1][..i] == entryKeys[..i];
        if key !in q.broken && LiveEntry(store, key, q.t) {
          var entry := store[key];
          if !entry.result.Absent? && entry.embedding.Present? {
            var score := Similarity(cfg.sqrt, q.embedding.value, entry.embedding.value);
            if score.Ok? && score.value > bestScore {
              bestScore := score.value;
              match entry.result
              case Present(result) => bestResult := Some(result);
              case Null => bestResult := None;
              case Malformed =>
              case Absent =>
            }
          }
        }
      }
      assert entryKeys[..|entryKeys|] == entryKeys;
      var hit := bestScore >= cfg.threshold && bestResult.Some?;
      if q.counted {
        counters := Bump(counters, if hit then HitsKey(q.tenant) else MissesKey(q.tenant));
      }
      reply := if hit then Reply(true, bestResult, Some(bestScore)) else MISS;
    }

    /** Zeros when the scan raises. */
    method GetStats(tenant: string, pages: Option<seq<seq<string>>>) returns (stats: Stats)
      ensures pages.None? ==> stats == Stats(0, 0, 0.0, 0, 0)
      ensures pages.Some? ==>
                && stats.hits == CounterValue(counters, HitsKey(tenant))
                && stats.misses == CounterValue(counters, MissesKey(tenant))
                && stats.hitRate * (stats.hits + stats.misses) as real == stats.hits as real
                && 0.0 <= stats.hitRate <= 1.0
                && stats.keysStored == |EntryKeys(Flatten(pages.value))|
                && stats.tokensSaved == 2000 * stats.hits
    {
      if pages.None? {
        return Stats(0, 0, 0.0, 0, 0);
      }
      var hits, misses := CounterValue(counters, HitsKey(tenant)), CounterValue(counters, MissesKey(tenant));
      HitRateSound(hits, misses);
      var entryKeys := ScanEntryKeys(pages.value);
      stats := Stats(hits, misses, HitRate(hits, misses), |entryKeys|, hits * 2000);
    }

    method Put(s: Save)
      modifies `store
      ensures State(store, counters) == Step(cfg, State(old(store), counters), Set(s))
      ensures s.embedding.None? || !s.written ==> store == old(store)
      ensures s.embedding.Some? && s.written ==>
                store == old(store)["cache:" + s.tenant + ":" + s.uid :=
                                    Entry(Present(s.embedding.value), Present(s.result),
                                          if s.expiring then Some(s.t + cfg.ttl) else None)]
    {
      if s.embedding.Some? && s.written {
        var key := EntryKey(s.tenant, s.uid);
        store := store[key := Entry(Present(s.embedding.value), Present(s.result), None)];
        if s.expiring {
          store := store[key := store[key].(expires := Some(s.t + cfg.ttl))];
        }
      }
    }
  }

}
