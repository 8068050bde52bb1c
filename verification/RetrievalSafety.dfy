/** Every answer is a recent search of the caller's own tenant, however calls overlap and Redis fails. */
module RetrievalSafety {
  import opened Common
  import opened Vectors
  import opened Retrieval

  // ---------- keys ----------

  /** Questions about colon-free collections have the same key exactly if they differ at most in organization. */
  lemma {:induction false} KeysExactly(p: Question, q: Question)
    requires ':' !in p.collection && ':' !in q.collection
    ensures SearchCacheKey(p) == SearchCacheKey(q) <==> p.(organization := q.organization) == q
  {
    if SearchCacheKey(p) == SearchCacheKey(q) {
      var m, n := Decimal(p.limit), Decimal(q.limit);
      assert SearchCacheKey(p).digested == p.collection + ":" + (m + ":" + p.query);
      assert SearchCacheKey(q).digested == q.collection + ":" + (n + ":" + q.query);
      CutOnce(p.collection, m + ":" + p.query, q.collection, n + ":" + q.query, ':');
      DecimalNonempty(p.limit);
      DecimalNonempty(q.limit);
      CutOnce(m, p.query, n, q.query, ':');
      DecimalInjective(p.limit, q.limit);
    }
  }

  /** Without that condition keys collide. */
  lemma {:induction false} ColonsCollide(
      query: string, organization: Option<Organization>, workspace: Option<Workspace>)
    ensures SearchCacheKey(Question(query, "a:1", 2, organization, workspace))
         == SearchCacheKey(Question("2:" + query, "a", 1, organization, workspace))
  {
    assert Decimal(1) == "1" && Decimal(2) == "2";
    assert "a:1" + ":" + "2" + ":" + query == "a" + ":" + "1" + ":" + ("2:" + query);
  }

  /** Names made from workspace ids, which are hexadecimal digits and dashes, contain no colon. */
  lemma {:induction false} CollectionNamesColonFree(workspace: string)
    requires ':' !in workspace
    ensures ':' !in WorkspaceCollectionName(workspace)
  {
    assert forall c :: c in "ekoa_" ==> c != ':';
    if |workspace| > 8 {
      assert forall c :: c in workspace[..8] ==> c in workspace;
    }
  }

  /** Two workspaces share a collection if and only if their ids begin with the same eight characters. */
  lemma {:induction false} CollectionsSharedExactly(v: string, w: string)
    requires |v| >= 8 && |w| >= 8
    ensures WorkspaceCollectionName(v) == WorkspaceCollectionName(w) <==> v[..8] == w[..8]
  {
    var a, b := WorkspaceCollectionName(v), WorkspaceCollectionName(w);
    assert a[|a| - 8..] == v[..8] && b[|b| - 8..] == w[..8];
  }

  /** What is remembered is found under its question's key for exactly 300 seconds, and nothing else is disturbed. */
  lemma {:induction false} RememberedExactly(cache: Cache, q: Question, chunks: seq<Chunk>, now: real, later: real)
    ensures var after := Remembered(cache, q, chunks, now);
            && (Fresh(after, SearchCacheKey(q), later) <==> later < now + 300.0)
            && after[SearchCacheKey(q)].chunks == chunks
            && (forall key :: key != SearchCacheKey(q) ==> (key in after <==> key in cache))
            && (forall key :: key != SearchCacheKey(q) && key in cache ==> after[key] == cache[key])
  {
  }

  // ---------- where an answer comes from ----------

  ghost predicate WasAsked(events: seq<Event>, q: Question) {
    exists k :: 0 <= k < |events| && events[k].Ask? && events[k].q == q
  }

  /** The two questions have the same answer, whatever is stored. */
  ghost predicate Alike(engine: Engine, p: Question, q: Question) {
    forall stores :: SearchAt(engine, stores, p) == SearchAt(engine, stores, q)
  }

  /** Questions that were asked and share a key have the same answers. */
  ghost predicate KeySafe(engine: Engine, events: seq<Event>) {
    forall p, q :: WasAsked(events, p) && WasAsked(events, q) && SearchCacheKey(p) == SearchCacheKey(q) ==>
      Alike(engine, p, q)
  }

  /** Collection names hold no colon, and the workspace determines the organization. */
  ghost predicate Proper(events: seq<Event>) {
    && (forall q :: WasAsked(events, q) ==> ':' !in q.collection)
    && (forall p, q :: WasAsked(events, p) && WasAsked(events, q) && p.workspace == q.workspace ==>
          p.organization == q.organization)
  }

  /** Then two asked questions with the same key are the same question. */
  lemma {:induction false} ProperIsKeySafe(engine: Engine, events: seq<Event>)
    requires Proper(events)
    ensures KeySafe(engine, events)
  {
    forall p, q | WasAsked(events, p) && WasAsked(events, q) && SearchCacheKey(p) == SearchCacheKey(q)
      ensures Alike(engine, p, q)
    {
      KeysExactly(p, q);
      assert p.workspace == q.workspace;
    }
  }

  /** The chunks are the search on the stores as they stood no earlier than `since`. */
  ghost predicate Explained(engine: Engine, worlds: seq<World>, i: nat, q: Question, chunks: seq<Chunk>, since: real)
    requires i < |worlds|
  {
    exists j :: 0 <= j <= i && worlds[j].now >= since && chunks == SearchIn(engine, worlds[j], q)
  }

  ghost predicate CallFits(engine: Engine, worlds: seq<World>, i: nat, call: Call)
    requires i < |worlds|
  {
    call.Searched? ==> Explained(engine, worlds, i, call.q, call.chunks, call.at)
  }

  ghost predicate EntryFits(engine: Engine, worlds: seq<World>, i: nat, q: Question, entry: Entry, gap: real)
    requires i < |worlds|
  {
    Explained(engine, worlds, i, q, entry.chunks, entry.storedAt - gap)
  }

  ghost predicate Fits(engine: Engine, worlds: seq<World>, events: seq<Event>, gap: real, i: nat)
    requires i < |worlds|
  {
    && (forall c :: c in worlds[i].calls ==>
        WasAsked(events, worlds[i].calls[c].q) && CallFits(engine, worlds, i, worlds[i].calls[c]))
    && (forall q :: WasAsked(events, q) && SearchCacheKey(q) in worlds[i].cache ==>
          EntryFits(engine, worlds, i, q, worlds[i].cache[SearchCacheKey(q)], gap))
  }

  lemma {:induction false} StillExplained(
      engine: Engine, worlds: seq<World>, i: nat, q: Question, chunks: seq<Chunk>, since: real, later: real)
    requires i + 1 < |worlds| && Explained(engine, worlds, i, q, chunks, since) && later <= since
    ensures Explained(engine, worlds, i + 1, q, chunks, later)
  {
    var j :| 0 <= j <= i && worlds[j].now >= since && chunks == SearchIn(engine, worlds[j], q);
    assert 0 <= j <= i + 1;
  }

  /** Calls and entries the step did not touch still fit. */
  lemma {:induction false} OldCallFits(engine: Engine, worlds: seq<World>, i: nat, call: Call)
    requires i + 1 < |worlds| && CallFits(engine, worlds, i, call)
    ensures CallFits(engine, worlds, i + 1, call)
  {
    if call.Searched? {
      StillExplained(engine, worlds, i, call.q, call.chunks, call.at, call.at);
    }
  }

  lemma {:induction false} OldEntryFits(
      engine: Engine, worlds: seq<World>, i: nat, q: Question, entry: Entry, gap: real)
    requires i + 1 < |worlds| && EntryFits(engine, worlds, i, q, entry, gap)
    ensures EntryFits(engine, worlds, i + 1, q, entry, gap)
  {
    StillExplained(engine, worlds, i, q, entry.chunks, entry.storedAt - gap, entry.storedAt - gap);
  }

  /** Where a call in progress after a step comes from. */
  lemma {:induction false} CallOrigin(engine: Engine, w: World, e: Event, gap: real, c: int)
    requires Enabled(w, e, gap) && c in Apply(engine, w, e, gap).calls
    ensures var call := Apply(engine, w, e, gap).calls[c];
            || (e.Ask? && call == Asked(e.q))
            || (c in w.calls && call == w.calls[c])
            || (c in w.calls && call == Missed(w.calls[c].q))
            || (c in w.calls && call == Searched(w.calls[c].q, SearchIn(engine, w, w.calls[c].q), w.now))
  {
  }

  lemma {:induction false} CallsFit(engine: Engine, worlds: seq<World>, events: seq<Event>, gap: real, i: nat, c: int)
    requires Run(engine, worlds, events, gap) && i < |events| && Fits(engine, worlds, events, gap, i)
    requires c in worlds[i + 1].calls
    ensures WasAsked(events, worlds[i + 1].calls[c].q) && CallFits(engine, worlds, i + 1, worlds[i + 1].calls[c])
  {
    var w, call := worlds[i], worlds[i + 1].calls[c];
    CallOrigin(engine, w, events[i], gap, c);
    if c in w.calls && w.calls[c] == call {
      OldCallFits(engine, worlds, i, call);
    } else if events[i].Ask? && call == Asked(events[i].q) {
      assert events[i].q == call.q;
    } else {
      assert w.now >= w.now && SearchIn(engine, w, call.q) == SearchIn(engine, worlds[i], call.q);
    }
  }

  lemma {:induction false} AlikeExplained(
      engine: Engine, worlds: seq<World>, i: nat, p: Question, q: Question, chunks: seq<Chunk>, since: real)
    requires i < |worlds| && Alike(engine, p, q) && Explained(engine, worlds, i, p, chunks, since)
    ensures Explained(engine, worlds, i, q, chunks, since)
  {
    var j :| 0 <= j <= i && worlds[j].now >= since && chunks == SearchIn(engine, worlds[j], p);
    assert SearchAt(engine, worlds[j].stores, p) == SearchAt(engine, worlds[j].stores, q);
  }

  lemma {:induction false} EntriesFit(
      engine: Engine, worlds: seq<World>, events: seq<Event>, gap: real, i: nat, q: Question)
    requires Run(engine, worlds, events, gap) && KeySafe(engine, events)
    requires i < |events| && Fits(engine, worlds, events, gap, i)
    requires WasAsked(events, q) && SearchCacheKey(q) in worlds[i + 1].cache
    ensures EntryFits(engine, worlds, i + 1, q, worlds[i + 1].cache[SearchCacheKey(q)], gap)
  {
    var key, e := SearchCacheKey(q), events[i];
    if e.Keep? && SearchCacheKey(worlds[i].calls[e.call].q) == key {
      var call := worlds[i].calls[e.call];
      AlikeExplained(engine, worlds, i, call.q, q, call.chunks, call.at);
      StillExplained(engine, worlds, i, q, call.chunks, call.at, worlds[i].now - gap);
    } else {
      OldEntryFits(engine, worlds, i, q, worlds[i].cache[key], gap);
    }
  }

  lemma {:induction false} RunFits(engine: Engine, worlds: seq<World>, events: seq<Event>, gap: real, i: nat)
    requires Run(engine, worlds, events, gap) && KeySafe(engine, events) && i < |worlds|
    ensures Fits(engine, worlds, events, gap, i)
  {
    if i == 0 {
    } else {
      RunFits(engine, worlds, events, gap, i - 1);
      forall c | c in worlds[i].calls
        ensures WasAsked(events, worlds[i].calls[c].q) && CallFits(engine, worlds, i, worlds[i].calls[c])
      {
        CallsFit(engine, worlds, events, gap, i - 1, c);
      }
      forall q | WasAsked(events, q) && SearchCacheKey(q) in worlds[i].cache
        ensures EntryFits(engine, worlds, i, q, worlds[i].cache[SearchCacheKey(q)], gap)
      {
        EntriesFit(engine, worlds, events, gap, i - 1, q);
      }
    }
  }

  // ---------- the guarantee ----------

  /** Every chunk is that of a point which carries the tenant asked for. */
  ghost predicate OwnChunks(store: Store, q: Question, chunks: seq<Chunk>) {
    forall i :: 0 <= i < |chunks| ==> Own(store, q, chunks[i])
  }

  ghost predicate Own(store: Store, q: Question, chunk: Chunk) {
    exists id :: id in store && InTenant(store[id].payload, q.organization, q.workspace) &&
      ChunkOf(store[id], chunk.score) == chunk
  }

  lemma {:induction false} SearchStaysInTenant(engine: Engine, store: Store, q: Question)
    ensures OwnChunks(store, q, Search(engine, store, q)) && |Search(engine, store, q)| <= q.limit
  {
    FilterPinsTenant(store, q);
    var mine := TenantFiltered(store, q);
    var chunks := Search(engine, store, q);
    forall i | 0 <= i < |chunks| ensures Own(store, q, chunks[i]) {
      assert Holds(mine, chunks[i]);
      var id :| id in mine && ChunkOf(mine[id], chunks[i].score) == chunks[i];
      assert id in store && mine[id] == store[id];
    }
  }

  lemma {:induction false} TimePasses(engine: Engine, worlds: seq<World>, events: seq<Event>, gap: real, j: nat, i: nat)
    requires Run(engine, worlds, events, gap) && j <= i < |worlds|
    ensures worlds[j].now <= worlds[i].now
    decreases i - j
  {
    if j < i {
      TimePasses(engine, worlds, events, gap, j, i - 1);
    }
  }

  /** The moment of a search that explains the answer, at most 300 seconds plus the gap before it. */
  ghost predicate Explains(engine: Engine, worlds: seq<World>, events: seq<Event>, gap: real, i: nat, j: int)
    requires |worlds| == |events| + 1 && i < |events| && Enabled(worlds[i], events[i], gap) && Answers(events[i])
  {
    && 0 <= j <= i && worlds[i].now - (300.0 + gap) <= worlds[j].now <= worlds[i].now
    && Answer(worlds[i], events[i], gap) == SearchIn(engine, worlds[j], worlds[i].calls[events[i].call].q)
  }

  lemma {:induction false} KeySafeAnswers(
      engine: Engine, worlds: seq<World>, events: seq<Event>, gap: real, i: nat) returns (j: nat)
    requires Run(engine, worlds, events, gap) && KeySafe(engine, events) && i < |events| && Answers(events[i])
    ensures Explains(engine, worlds, events, gap, i, j)
  {
    RunFits(engine, worlds, events, gap, i);
    var w, e := worlds[i], events[i];
    var q, chunks := w.calls[e.call].q, Answer(w, e, gap);
    var since := if e.Hit? then w.cache[SearchCacheKey(q)].storedAt - gap else w.calls[e.call].at;
    assert Explained(engine, worlds, i, q, chunks, since) by {
      if e.Hit? {
        assert EntryFits(engine, worlds, i, q, w.cache[SearchCacheKey(q)], gap);
      } else {
        assert CallFits(engine, worlds, i, w.calls[e.call]);
      }
    }
    var m :| 0 <= m <= i && worlds[m].now >= since && chunks == SearchIn(engine, worlds[m], q);
    j := m;
    TimePasses(engine, worlds, events, gap, j, i);
  }

  /** Every answer equals the tenant-filtered search on the vector store as it stood at some moment at most 300 seconds
      plus the gap earlier, and so holds only the caller's own chunks. */
  lemma {:induction false} AnswersAreRecentSearches(
      engine: Engine, worlds: seq<World>, events: seq<Event>, gap: real, i: nat) returns (j: nat)
    requires Run(engine, worlds, events, gap) && Proper(events) && i < |events| && Answers(events[i])
    ensures Explains(engine, worlds, events, gap, i, j)
    ensures var q := worlds[i].calls[events[i].call].q;
            OwnChunks(StoreOf(worlds[j].stores, q.collection), q, Answer(worlds[i], events[i], gap))
  {
    ProperIsKeySafe(engine, events);
    j := KeySafeAnswers(engine, worlds, events, gap, i);
    var q := worlds[i].calls[events[i].call].q;
    SearchStaysInTenant(engine, StoreOf(worlds[j].stores, q.collection), q);
  }

  /** What a search finds in a run are the nearest chunks of its question's own tenant, in the store of its collection
      as it stands at that moment. */
  lemma {:induction false} LooksAreNearest(
      engine: Engine, worlds: seq<World>, events: seq<Event>, gap: real, i: nat, similarity: Similarity)
    requires Run(engine, worlds, events, gap) && RanksBy(engine, similarity) && i < |events| && events[i].Look?
    ensures var w, call := worlds[i], events[i].call;
            && call in worlds[i + 1].calls && worlds[i + 1].calls[call].Searched?
            && var found := worlds[i + 1].calls[call];
               var store := if found.q.collection in w.stores then w.stores[found.q.collection] else map[];
               found.q == w.calls[call].q &&
               Nearest(store, found.q, found.chunks, similarity, engine.encode(found.q.query))
  {
    var q := worlds[i].calls[events[i].call].q;
    SearchIsNearest(engine, StoreOf(worlds[i].stores, q.collection), q, similarity);
  }

  /** So every answer lists the nearest chunks of the caller's own tenant, in the store of the question's collection as
      it stood at some moment at most 300 seconds plus the gap earlier. */
  lemma {:induction false} AnswersAreNearest(
      engine: Engine, worlds: seq<World>, events: seq<Event>, gap: real, i: nat, similarity: Similarity)
    returns (j: nat)
    requires Run(engine, worlds, events, gap) && Proper(events) && i < |events| && Answers(events[i])
    requires RanksBy(engine, similarity)
    ensures j <= i && worlds[i].now - (300.0 + gap) <= worlds[j].now <= worlds[i].now
    ensures var q := worlds[i].calls[events[i].call].q;
            var store := if q.collection in worlds[j].stores then worlds[j].stores[q.collection] else map[];
            Nearest(store, q, Answer(worlds[i], events[i], gap), similarity, engine.encode(q.query))
  {
    j := AnswersAreRecentSearches(engine, worlds, events, gap, i);
    var q := worlds[i].calls[events[i].call].q;
    SearchIsNearest(engine, StoreOf(worlds[j].stores, q.collection), q, similarity);
  }

  // ---------- exactly when that holds ----------

  /** Whenever two questions share a key but not their searches, the second is answered with the first one's chunks,
      which no search of its own ever gave. */
  lemma {:induction false} SharedKeyCrosses(
      engine: Engine, stores: map<string, Store>, p: Question, q: Question, gap: real)
    returns (worlds: seq<World>, events: seq<Event>)
    requires gap >= 0.0 && SearchCacheKey(p) == SearchCacheKey(q)
    requires SearchAt(engine, stores, p) != SearchAt(engine, stores, q)
    ensures Run(engine, worlds, events, gap) && AsksOnly(events, {p, q})
    ensures |events| == 6 && Answers(events[5]) && worlds[5].calls[events[5].call].q == q
    ensures forall j :: 0 <= j < |worlds| ==> Answer(worlds[5], events[5], gap) != SearchIn(engine, worlds[j], q)
  {
    var w0 := World(0.0, stores, map[], map[]);
    var chunks := SearchIn(engine, w0, p);
    var w1 := w0.(calls := map[0 := Asked(p)]);
    var w2 := w0.(calls := map[0 := Missed(p)]);
    var w3 := w0.(calls := map[0 := Searched(p, chunks, 0.0)]);
    var w4 := w0.(cache := map[SearchCacheKey(p) := Entry(chunks, 0.0)]);
    var w5 := w4.(calls := map[1 := Asked(q)]);
    CrossAsks(engine, w0, p, gap);
    CrossKeeps(engine, w2, p, gap);
    CrossHits(engine, w4, q, gap);
    events := [Ask(0, p), Miss(0), Look(0), Keep(0), Ask(1, q), Hit(1)];
    worlds := [w0, w1, w2, w3, w4, w5, w4];
    SixSteps(engine, worlds, events, gap);
    forall j | 0 <= j < |worlds| ensures SearchIn(engine, worlds[j], q) == SearchAt(engine, stores, q) {
      assert worlds[j].stores == stores;
    }
  }

  ghost predicate Follows(engine: Engine, w: World, e: Event, after: World, gap: real) {
    Enabled(w, e, gap) && after == Apply(engine, w, e, gap)
  }

  lemma {:induction false} SixSteps(engine: Engine, worlds: seq<World>, events: seq<Event>, gap: real)
    requires |worlds| == 7 && |events| == 6 && gap >= 0.0 && worlds[0].cache == map[] && worlds[0].calls == map[]
    requires Follows(engine, worlds[0], events[0], worlds[1], gap)
    requires Follows(engine, worlds[1], events[1], worlds[2], gap)
    requires Follows(engine, worlds[2], events[2], worlds[3], gap)
    requires Follows(engine, worlds[3], events[3], worlds[4], gap)
    requires Follows(engine, worlds[4], events[4], worlds[5], gap)
    requires Follows(engine, worlds[5], events[5], worlds[6], gap)
    ensures Run(engine, worlds, events, gap)
  {
    forall i | 0 <= i < 6 ensures Follows(engine, worlds[i], events[i], worlds[i + 1], gap) {
    }
  }

  lemma {:induction false} CrossAsks(engine: Engine, w: World, p: Question, gap: real)
    requires w.calls == map[]
    ensures Enabled(w, Ask(0, p), gap) && Apply(engine, w, Ask(0, p), gap) == w.(calls := map[0 := Asked(p)])
    ensures Enabled(w.(calls := map[0 := Asked(p)]), Miss(0), gap)
    ensures Apply(engine, w.(calls := map[0 := Asked(p)]), Miss(0), gap) == w.(calls := map[0 := Missed(p)])
  {
  }

  lemma {:induction false} CrossKeeps(engine: Engine, w: World, p: Question, gap: real)
    requires w.calls == map[0 := Missed(p)] && w.cache == map[] && gap >= 0.0
    ensures var looked := w.(calls := map[0 := Searched(p, SearchIn(engine, w, p), w.now)]);
            && Enabled(w, Look(0), gap) && Apply(engine, w, Look(0), gap) == looked
            && Enabled(looked, Keep(0), gap)
            && Apply(engine, looked, Keep(0), gap)
               == w.(calls := map[], cache := map[SearchCacheKey(p) := Entry(SearchIn(engine, w, p), w.now)])
  {
    var looked := w.(calls := map[0 := Searched(p, SearchIn(engine, w, p), w.now)]);
    assert looked.calls - {0} == map[];
  }

  lemma {:induction false} CrossHits(engine: Engine, w: World, q: Question, gap: real)
    requires w.calls == map[] && Fresh(w.cache, SearchCacheKey(q), w.now)
    ensures Enabled(w, Ask(1, q), gap) && Apply(engine, w, Ask(1, q), gap) == w.(calls := map[1 := Asked(q)])
    ensures Enabled(w.(calls := map[1 := Asked(q)]), Hit(1), gap)
    ensures Apply(engine, w.(calls := map[1 := Asked(q)]), Hit(1), gap) == w
  {
    assert map[1 := Asked(q)] - {1} == map[];
  }

  ghost predicate AsksOnly(events: seq<Event>, asked: set<Question>) {
    forall k :: 0 <= k < |events| && events[k].Ask? ==> events[k].q in asked
  }

  ghost predicate HasExplanation(engine: Engine, worlds: seq<World>, events: seq<Event>, gap: real, i: nat)
    requires |worlds| == |events| + 1 && i < |events| && Enabled(worlds[i], events[i], gap) && Answers(events[i])
  {
    exists j :: Explains(engine, worlds, events, gap, i, j)
  }

  /** In every run that asks only these questions, every answer is a recent search of its own question. */
  ghost predicate AlwaysExplained(engine: Engine, asked: set<Question>, gap: real) {
    forall worlds, events {:trigger Run(engine, worlds, events, gap)} ::
      Run(engine, worlds, events, gap) && AsksOnly(events, asked) ==>
        forall i: nat :: i < |events| && Answers(events[i]) ==> HasExplanation(engine, worlds, events, gap, i)
  }

  /** That is so if and only if those of the questions that share a key always have the same answer. */
  lemma {:induction false} ExplainedExactly(engine: Engine, asked: set<Question>, gap: real)
    requires gap >= 0.0
    ensures AlwaysExplained(engine, asked, gap) <==>
            (forall p, q :: p in asked && q in asked && SearchCacheKey(p) == SearchCacheKey(q) ==> Alike(engine, p, q))
  {
    if p, q :| p in asked && q in asked && SearchCacheKey(p) == SearchCacheKey(q) && !Alike(engine, p, q) {
      var stores :| SearchAt(engine, stores, p) != SearchAt(engine, stores, q);
      var worlds, events := SharedKeyCrosses(engine, stores, p, q, gap);
      assert !HasExplanation(engine, worlds, events, gap, 5);
    } else {
      forall worlds, events | Run(engine, worlds, events, gap) && AsksOnly(events, asked)
        ensures forall i: nat :: i < |events| && Answers(events[i]) ==> HasExplanation(engine, worlds, events, gap, i)
      {
        forall i: nat | i < |events| && Answers(events[i]) ensures HasExplanation(engine, worlds, events, gap, i) {
          var j := KeySafeAnswers(engine, worlds, events, gap, i);
        }
      }
    }
  }

  lemma {:induction false} TopOfOne(store: Store, scored: Scored, limit: nat)
    requires limit > 0
    ensures |Top(store, [scored], limit)| == if scored.id in store then 1 else 0
  {
    assert [scored][1..] == [];
  }

  /** Two organizations that ask the same question outside any workspace share a key, and not their answers. */
  lemma {:induction false} OrganizationsCross(query: string)
    returns (engine: Engine, stores: map<string, Store>, p: Question, q: Question)
    ensures p.workspace == None == q.workspace && p.(organization := q.organization) == q && p.query == query
    ensures SearchCacheKey(p) == SearchCacheKey(q) && SearchAt(engine, stores, p) != SearchAt(engine, stores, q)
  {
    var a, b := Some(Organization(0)), Some(Organization(1));
    var id := PointId(DocId(0), 0);
    var point := Point(id, [], Payload(DocId(0), 0, "", a, None));
    var store: Store := map[id := point];
    engine := Engine(text => [], (points, vector) => [Scored(id, 1.0)]);
    stores := map["ekoa_default" := store];
    p, q := Question(query, "ekoa_default", 5, a, None), Question(query, "ekoa_default", 5, b, None);
    FilterPinsTenant(store, p);
    FilterPinsTenant(store, q);
    assert TenantFiltered(store, p) == store && TenantFiltered(store, q) == map[];
    assert StoreOf(stores, p.collection) == StoreOf(stores, q.collection) == store;
    TopOfOne(store, Scored(id, 1.0), 5);
    TopOfOne(map[], Scored(id, 1.0), 5);
    assert |Search(engine, store, p)| == 1;
    assert |Search(engine, store, q)| == 0;
  }
}
