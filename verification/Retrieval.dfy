/** Tenant-filtered search behind a cache whose entries live five minutes. */
module Retrieval {
  import opened Common
  import opened Vectors

  // ---------- questions and their keys ----------

  datatype Question = Question(query: string, collection: string, limit: nat,
                               organization: Option<Organization>, workspace: Option<Workspace>)

  datatype Chunk = Chunk(score: real, document: DocId, index: nat, text: string)

  /** A key names the workspace and the SHA-256 of the rest, which is taken as injective. */
  datatype Key = Key(workspace: Option<Workspace>, digested: string)

  function SearchCacheKey(q: Question): Key {
    Key(q.workspace, q.collection + ":" + Decimal(q.limit) + ":" + q.query)
  }

  function WorkspaceCollectionName(workspace: string): string {
    "ekoa_" + if |workspace| <= 8 then workspace else workspace[..8]
  }

  // ---------- the search ----------

  datatype Scored = Scored(id: PointId, score: real)

  /** What the embedding model and the ranking inside the vector database decide: neither depends on the time. */
  datatype Engine = Engine(encode: string -> Vector, rank: (Store, Vector) -> seq<Scored>)

  /** One condition of a filter on payloads. */
  datatype Condition = OrganizationIs(organization: Organization) | WorkspaceIs(workspace: Workspace)

  predicate Meets(payload: Payload, condition: Condition) {
    match condition
    case OrganizationIs(organization) => payload.organization == Some(organization)
    case WorkspaceIs(workspace) => payload.workspace == Some(workspace)
  }

  /** A condition for each part of the tenant that is given. */
  function TenantFilter(organization: Option<Organization>, workspace: Option<Workspace>): seq<Condition> {
    (if organization.Some? then [OrganizationIs(organization.value)] else [])
    + if workspace.Some? then [WorkspaceIs(workspace.value)] else []
  }

  predicate Passes(payload: Payload, must: seq<Condition>) {
    forall i :: 0 <= i < |must| ==> Meets(payload, must[i])
  }

  function TenantFiltered(store: Store, q: Question): Store {
    map id | id in store && Passes(store[id].payload, TenantFilter(q.organization, q.workspace)) :: store[id]
  }

  /** The payload carries the organization and the workspace that are given. */
  predicate InTenant(payload: Payload, organization: Option<Organization>, workspace: Option<Workspace>) {
    && (organization.Some? ==> payload.organization == organization)
    && (workspace.Some? ==> payload.workspace == workspace)
  }

  /** The filter lets through exactly the points of the tenant. */
  lemma {:induction false} FilterPinsTenant(store: Store, q: Question)
    ensures forall id :: id in TenantFiltered(store, q) <==>
                         id in store && InTenant(store[id].payload, q.organization, q.workspace)
    ensures forall id :: id in TenantFiltered(store, q) ==> TenantFiltered(store, q)[id] == store[id]
  {
    forall id | id in store
      ensures id in TenantFiltered(store, q) <==> InTenant(store[id].payload, q.organization, q.workspace)
    {
      PassesExactly(store[id].payload, q.organization, q.workspace);
    }
  }

  lemma {:induction false} PassesExactly(
      payload: Payload, organization: Option<Organization>, workspace: Option<Workspace>)
    ensures Passes(payload, TenantFilter(organization, workspace)) <==> InTenant(payload, organization, workspace)
  {
    var must := TenantFilter(organization, workspace);
    if organization.Some? {
      assert must[0] == OrganizationIs(organization.value);
    }
    if workspace.Some? {
      assert must[|must| - 1] == WorkspaceIs(workspace.value);
    }
  }

  function ChunkOf(p: Point, score: real): Chunk {
    Chunk(score, p.payload.document, p.payload.index, p.payload.text)
  }

  /** The chunks of the ranked points, as many as asked for. */
  function Top(store: Store, ranked: seq<Scored>, limit: nat): (chunks: seq<Chunk>)
    ensures |chunks| <= limit
    ensures forall i :: 0 <= i < |chunks| ==> Holds(store, chunks[i])
    decreases |ranked|
  {
    if ranked == [] || limit == 0 then []
    else if ranked[0].id in store then
      var chunk := ChunkOf(store[ranked[0].id], ranked[0].score);
      assert Holds(store, chunk);
      [chunk] + Top(store, ranked[1..], limit - 1)
    else Top(store, ranked[1..], limit)
  }

  predicate Holds(store: Store, chunk: Chunk) {
    exists id :: id in store && ChunkOf(store[id], chunk.score) == chunk
  }

  function Search(engine: Engine, store: Store, q: Question): seq<Chunk> {
    var mine := TenantFiltered(store, q);
    Top(mine, engine.rank(mine, engine.encode(q.query)), q.limit)
  }

  // ---------- what a search finds ----------

  type Similarity = (Vector, Vector) -> real

  /** These hits are all the points of the store, once each, by falling similarity to the vector. */
  ghost predicate RankedBy(hits: seq<Scored>, store: Store, vector: Vector, similarity: Similarity) {
    && (forall i :: 0 <= i < |hits| ==>
          hits[i].id in store && hits[i].score == similarity(store[hits[i].id].vector, vector))
    && (forall i, j :: 0 <= i < j < |hits| ==> hits[i].id != hits[j].id && hits[i].score >= hits[j].score)
    && (forall id :: id in store ==> exists i :: 0 <= i < |hits| && hits[i].id == id)
  }

  ghost predicate RanksBy(engine: Engine, similarity: Similarity) {
    forall store, vector :: RankedBy(engine.rank(store, vector), store, vector, similarity)
  }

  /** The chunks are those of these points: of the question's tenant, each once, by falling similarity, and no other
      point of the tenant is left out unless the limit is reached and it is no more similar than any that is listed. */
  ghost predicate NearestPoints(
      store: Store, q: Question, chunks: seq<Chunk>, similarity: Similarity, vector: Vector, ids: seq<PointId>)
  {
    && |ids| == |chunks| <= q.limit
    && (forall i :: 0 <= i < |ids| ==>
          && ids[i] in store && InTenant(store[ids[i]].payload, q.organization, q.workspace)
          && var payload := store[ids[i]].payload;
             chunks[i] == Chunk(similarity(store[ids[i]].vector, vector),
                                payload.document, payload.index, payload.text))
    && (forall i, j :: 0 <= i < j < |ids| ==> ids[i] != ids[j] && chunks[i].score >= chunks[j].score)
    && (forall id :: id in store && InTenant(store[id].payload, q.organization, q.workspace) && id !in ids ==>
          |chunks| == q.limit &&
          forall i :: 0 <= i < |chunks| ==> similarity(store[id].vector, vector) <= chunks[i].score)
  }

  ghost predicate Nearest(store: Store, q: Question, chunks: seq<Chunk>, similarity: Similarity, vector: Vector) {
    exists ids :: NearestPoints(store, q, chunks, similarity, vector, ids)
  }

  lemma {:induction false} TopIsBest(store: Store, ranked: seq<Scored>, limit: nat)
    requires forall i :: 0 <= i < |ranked| ==> ranked[i].id in store
    ensures |Top(store, ranked, limit)| == if |ranked| < limit then |ranked| else limit
    ensures forall i :: 0 <= i < |Top(store, ranked, limit)| ==>
              Top(store, ranked, limit)[i] == ChunkOf(store[ranked[i].id], ranked[i].score)
    decreases |ranked|
  {
    if ranked == [] || limit == 0 {
    } else {
      TopIsBest(store, ranked[1..], limit - 1);
    }
  }

  /** The ids of the first hits. */
  function FirstIds(ranked: seq<Scored>, n: nat): seq<PointId>
    requires n <= |ranked|
  {
    seq(n, i requires 0 <= i < n => ranked[i].id)
  }

  /** A point that is not among the first n hits comes after them. */
  lemma {:induction false} LeftOutIsFarther(
      mine: Store, ranked: seq<Scored>, n: nat, id: PointId, similarity: Similarity, vector: Vector)
    requires RankedBy(ranked, mine, vector, similarity) && n <= |ranked| && id in mine && id !in FirstIds(ranked, n)
    ensures n < |ranked|
    ensures forall i :: 0 <= i < n ==> similarity(mine[id].vector, vector) <= ranked[i].score
  {
    assert forall i :: 0 <= i < n ==> FirstIds(ranked, n)[i] == ranked[i].id;
    var k :| 0 <= k < |ranked| && ranked[k].id == id;
  }

  /** The first hits make the chunks. */
  lemma {:induction false} TopOfFirst(
      mine: Store, ranked: seq<Scored>, limit: nat, similarity: Similarity, vector: Vector)
    returns (n: nat)
    requires RankedBy(ranked, mine, vector, similarity)
    ensures n <= |ranked| && n == |Top(mine, ranked, limit)| <= limit && (n < limit ==> n == |ranked|)
    ensures forall i :: 0 <= i < n ==>
              FirstIds(ranked, n)[i] in mine && ranked[i].score == similarity(mine[ranked[i].id].vector, vector)
              && Top(mine, ranked, limit)[i] == ChunkOf(mine[ranked[i].id], ranked[i].score)
  {
    TopIsBest(mine, ranked, limit);
    n := |Top(mine, ranked, limit)|;
  }

  lemma {:induction false} TopIsNearest(
      store: Store, mine: Store, q: Question, ranked: seq<Scored>, similarity: Similarity, vector: Vector)
    requires RankedBy(ranked, mine, vector, similarity)
    requires forall id :: id in mine <==> id in store && InTenant(store[id].payload, q.organization, q.workspace)
    requires forall id :: id in mine ==> mine[id] == store[id]
    ensures Nearest(store, q, Top(mine, ranked, q.limit), similarity, vector)
  {
    var n := TopOfFirst(mine, ranked, q.limit, similarity, vector);
    var chunks, ids := Top(mine, ranked, q.limit), FirstIds(ranked, n);
    forall id | id in mine && id !in ids
      ensures |chunks| == q.limit
      ensures forall i :: 0 <= i < |chunks| ==> similarity(store[id].vector, vector) <= chunks[i].score
    {
      LeftOutIsFarther(mine, ranked, n, id, similarity, vector);
    }
    assert NearestPoints(store, q, chunks, similarity, vector, ids);
  }

  /** With an engine that ranks by similarity, a search finds the nearest chunks of the question's own tenant to the
      vector of its own query. */
  lemma {:induction false} SearchIsNearest(engine: Engine, store: Store, q: Question, similarity: Similarity)
    requires RanksBy(engine, similarity)
    ensures Nearest(store, q, Search(engine, store, q), similarity, engine.encode(q.query))
  {
    FilterPinsTenant(store, q);
    var mine, vector := TenantFiltered(store, q), engine.encode(q.query);
    assert RankedBy(engine.rank(mine, vector), mine, vector, similarity);
    TopIsNearest(store, mine, q, engine.rank(mine, vector), similarity, vector);
  }

  // ---------- the cache ----------

  const SEARCH_TTL := 300.0

  datatype Entry = Entry(chunks: seq<Chunk>, storedAt: real)
  type Cache = map<Key, Entry>

  predicate Fresh(cache: Cache, key: Key, now: real) {
    key in cache && now < cache[key].storedAt + SEARCH_TTL
  }

  function Remembered(cache: Cache, q: Question, chunks: seq<Chunk>, now: real): Cache {
    cache[SearchCacheKey(q) := Entry(chunks, now)]
  }

  /** The service with its two caches; a cached vector never goes stale, so only its key matters. */
  class Retriever {
    var searches: Cache
    var vectors: map<string, Vector>

    constructor ()
      ensures searches == map[] && vectors == map[]
    {
      searches, vectors := map[], map[];
    }

    ghost predicate Honest(engine: Engine)
      reads this
    {
      forall query :: query in vectors ==> vectors[query] == engine.encode(query)
    }

    method EmbedQueryCached(engine: Engine, query: string, readWorks: bool, writeWorks: bool) returns (vector: Vector)
      requires Honest(engine)
      modifies this`vectors
      ensures Honest(engine) && vector == engine.encode(query)
    {
      if readWorks && query in vectors {
        return vectors[query];
      }
      vector := engine.encode(query);
      if writeWorks {
        vectors := vectors[query := vector];
      }
    }

    /** One call that meets no other; each of the Redis operations may fail. */
    method RetrieveChunks(engine: Engine, store: Store, q: Question, asked: real, answered: real,
                          readWorks: bool, embedReadWorks: bool, embedWriteWorks: bool, writeWorks: bool,
                          ghost similarity: Similarity)
      returns (chunks: seq<Chunk>)
      requires Honest(engine)
      modifies this
      ensures Honest(engine)
      ensures readWorks && Fresh(old(searches), SearchCacheKey(q), asked) ==>
                chunks == old(searches)[SearchCacheKey(q)].chunks && searches == old(searches)
      ensures !(readWorks && Fresh(old(searches), SearchCacheKey(q), asked)) ==>
                && chunks == Search(engine, store, q)
                && searches == if writeWorks then Remembered(old(searches), q, chunks, answered) else old(searches)
      ensures !(readWorks && Fresh(old(searches), SearchCacheKey(q), asked)) && RanksBy(engine, similarity) ==>
                Nearest(store, q, chunks, similarity, engine.encode(q.query))
    {
      var key := SearchCacheKey(q);
      if readWorks && Fresh(searches, key, asked) {
        return searches[key].chunks;
      }
      var vector := EmbedQueryCached(engine, q.query, embedReadWorks, embedWriteWorks);
      var mine := TenantFiltered(store, q);
      chunks := Top(mine, engine.rank(mine, vector), q.limit);
      if RanksBy(engine, similarity) {
        SearchIsNearest(engine, store, q, similarity);
      }
      if writeWorks {
        searches := Remembered(searches, q, chunks, answered);
      }
    }
  }

  // ---------- calls that overlap ----------

  /** Where a call stands: before its cache read, after a miss, or holding what its search found. */
  datatype Call = Asked(q: Question) | Missed(q: Question) | Searched(q: Question, chunks: seq<Chunk>, at: real)
  datatype World = World(now: real, stores: map<string, Store>, cache: Cache, calls: map<int, Call>)

  datatype Event =
    | Tick(until: real)
    | Reindex(stores: map<string, Store>)
    | Evict(key: Key)
    | Ask(call: int, q: Question)
    | Hit(call: int)
    | Miss(call: int)
    | Look(call: int)
    | Keep(call: int)
    | KeepFails(call: int)

  function StoreOf(stores: map<string, Store>, collection: string): Store {
    if collection in stores then stores[collection] else map[]
  }

  function SearchAt(engine: Engine, stores: map<string, Store>, q: Question): seq<Chunk> {
    Search(engine, StoreOf(stores, q.collection), q)
  }

  function SearchIn(engine: Engine, w: World, q: Question): seq<Chunk> {
    SearchAt(engine, w.stores, q)
  }

  /** A read may fail or miss at any time; no more than `gap` passes between a search and its answer. */
  predicate Enabled(w: World, e: Event, gap: real) {
    match e
    case Tick(until) => w.now <= until
    case Reindex(_) => true
    case Evict(_) => true
    case Ask(call, _) => call !in w.calls
    case Hit(call) => call in w.calls && w.calls[call].Asked? && Fresh(w.cache, SearchCacheKey(w.calls[call].q), w.now)
    case Miss(call) => call in w.calls && w.calls[call].Asked?
    case Look(call) => call in w.calls && w.calls[call].Missed?
    case Keep(call) => call in w.calls && w.calls[call].Searched? && w.now <= w.calls[call].at + gap
    case KeepFails(call) => call in w.calls && w.calls[call].Searched? && w.now <= w.calls[call].at + gap
  }

  function Apply(engine: Engine, w: World, e: Event, gap: real): World
    requires Enabled(w, e, gap)
  {
    match e
    case Tick(until) => w.(now := until)
    case Reindex(stores) => w.(stores := stores)
    case Evict(key) => w.(cache := w.cache - {key})
    case Ask(call, q) => w.(calls := w.calls[call := Asked(q)])
    case Hit(call) => w.(calls := w.calls - {call})
    case Miss(call) => w.(calls := w.calls[call := Missed(w.calls[call].q)])
    case Look(call) =>
      var q := w.calls[call].q;
      w.(calls := w.calls[call := Searched(q, SearchIn(engine, w, q), w.now)])
    case Keep(call) =>
      w.(cache := Remembered(w.cache, w.calls[call].q, w.calls[call].chunks, w.now), calls := w.calls - {call})
    case KeepFails(call) => w.(calls := w.calls - {call})
  }

  predicate Answers(e: Event) {
    e.Hit? || e.Keep? || e.KeepFails?
  }

  /** What the call that ends with this event returns. */
  function Answer(w: World, e: Event, gap: real): seq<Chunk>
    requires Enabled(w, e, gap) && Answers(e)
  {
    if e.Hit? then w.cache[SearchCacheKey(w.calls[e.call].q)].chunks else w.calls[e.call].chunks
  }

  ghost predicate Run(engine: Engine, worlds: seq<World>, events: seq<Event>, gap: real) {
    && gap >= 0.0 && |worlds| == |events| + 1 && worlds[0].cache == map[] && worlds[0].calls == map[]
    && forall i :: 0 <= i < |events| ==>
         Enabled(worlds[i], events[i], gap) && worlds[i + 1] == Apply(engine, worlds[i], events[i], gap)
  }
}
