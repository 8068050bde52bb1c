/** What aborted syncs leave behind, and exactly when a whole history leaves documents and vectors in agreement. */
module SyncAborts {
  import opened Common
  import opened Vectors
  import opened Sync
  import opened SyncSafety
  import opened SyncRuns

  // ---------- stale chunks ----------

  /** Every document has a latest version, and as many chunks as it says. */
  predicate Sized(lib: Library) {
    forall j :: 0 <= j < |lib.documents| ==> SizedAt(lib, j)
  }

  predicate SizedAt(lib: Library, j: nat)
    requires j < |lib.documents|
  {
    var latest := LatestChecksum(lib.versions, lib.documents[j].id);
    latest.Some? && lib.documents[j].chunkCount == |latest.value.content.chunks|
  }

  /** The content of the document's latest version. */
  function Kept(lib: Library, j: nat): Content
    requires j < |lib.documents| && SizedAt(lib, j)
  {
    LatestChecksum(lib.versions, lib.documents[j].id).value.content
  }

  /** The chunks of a document whose points do not hold them. */
  function StaleIn(points: Store, d: Document, kept: Content): set<int> {
    set i | 0 <= i < |kept.chunks| && !PointHolds(points, d, kept, i)
  }

  function Stale(lib: Library, j: nat): set<int>
    requires j < |lib.documents| && SizedAt(lib, j)
  {
    StaleIn(lib.points, lib.documents[j], Kept(lib, j))
  }

  lemma {:induction false} AgreesWithoutStale(lib: Library, j: nat)
    requires j < |lib.documents| && SizedAt(lib, j)
    ensures Agrees(lib, j) <==> Stale(lib, j) == {}
  {
    if !Agrees(lib, j) {
      var i: nat :| i < lib.documents[j].chunkCount && !PointHolds(lib.points, lib.documents[j], Kept(lib, j), i);
      assert i in Stale(lib, j);
    }
  }

  lemma {:induction false} SameStale(a: Library, b: Library, j: nat)
    requires SameDocument(a, b, j) && SizedAt(a, j)
    ensures SizedAt(b, j) && Stale(b, j) == Stale(a, j)
  {
  }

  /** Writing the first chunks of another content repairs those that are equal, and spoils the others. */
  function AfterWrite(stale: set<int>, kept: Content, tried: Content, written: nat): set<int> {
    (set i | i in stale && i >= written)
    + (set i | 0 <= i < |kept.chunks| && i < written && i < |tried.chunks| && tried.chunks[i] != kept.chunks[i])
  }

  lemma {:induction false} WriteStales(points: Store, after: Store, d: Document, kept: Content, tried: Content, n: nat)
    requires n <= |tried.chunks| && SamePoints(Upserted(points, PointsOf(d.id, tried, d.workspace), n), after, d.id)
    ensures StaleIn(after, d, kept) == AfterWrite(StaleIn(points, d, kept), kept, tried, n)
  {
    forall i: int | 0 <= i < |kept.chunks|
      ensures PointHolds(after, d, kept, i)
         <==> if i < n then tried.chunks[i] == kept.chunks[i] else PointHolds(points, d, kept, i)
    {
      UpsertedLookup(points, n, d.id, tried.chunks, tried.vectors, Some(d.workspace.organization), Some(d.workspace),
                     PointId(d.id, i));
    }
  }

  // ---------- sizes ----------

  lemma {:induction false} ProcessedSized(lib: Library, workspace: Workspace, identity: string, content: Content)
    requires Good(lib) && Sized(lib)
    ensures Sized(Processed(lib, workspace, identity, content))
  {
    var after := Processed(lib, workspace, identity, content);
    ProcessedTarget(lib, workspace, identity, content);
    FoundIsFirst(lib.documents, workspace, identity);
    forall j | 0 <= j < |after.documents| ensures SizedAt(after, j) {
      if j != Target(lib, workspace, identity) {
        if Matches(lib.documents[j], workspace, identity) {
          FoundIsUnique(lib.documents, j);
        }
        ProcessedKeeps(lib, workspace, identity, content, j);
        assert SizedAt(lib, j);
      }
    }
  }

  lemma {:induction false} SameRowsSized(a: Library, b: Library)
    requires Sized(a) && b.documents == a.documents && b.versions == a.versions
    ensures Sized(b)
  {
    forall j | 0 <= j < |b.documents| ensures SizedAt(b, j) {
      assert SizedAt(a, j);
    }
  }

  lemma {:induction false} SyncedSized(lib: Library, workspace: Workspace, repo: string, items: seq<Item>)
    requires Good(lib) && Sized(lib)
    ensures Sized(Visible(lib, Synced(lib, workspace, repo, items)))
  {
    if items == [] {
    } else {
      var earlier, last := items[..|items| - 1], items[|items| - 1];
      var before := Synced(lib, workspace, repo, earlier);
      SyncedSized(lib, workspace, repo, earlier);
      SameRowsSized(lib, Visible(lib, Synced(lib, workspace, repo, items))
                           .(documents := lib.documents, versions := lib.versions));
      if before.Going? && Synced(lib, workspace, repo, items).Going? {
        SyncedGood(lib, workspace, repo, earlier);
        FileCases(before.lib, before.report, workspace, repo, last);
        if last.fetch.Fetched? {
          ProcessedSized(before.lib, workspace, Identity(repo, last.path), last.fetch.content);
        }
      }
    }
  }

  // ---------- one turn ----------

  /** The points after a turn or a sync, committed or not. */
  function PointsLeft(progress: Progress): Store {
    match progress
    case Going(lib, _) => lib.points
    case Aborted(_, points) => points
  }

  /** How many chunks the turn of a fetched file writes, judged by the rows. */
  function TurnWrites(lib: Library, workspace: Workspace, repo: string, item: Item): (n: nat)
    requires item.fetch.Fetched?
    ensures n <= |item.fetch.content.chunks|
  {
    var content := item.fetch.content;
    if Current(lib, workspace, Identity(repo, item.path)) == Some(Sha256(content)) || !item.embeds then 0
    else if item.interrupted.None? || item.interrupted.value > |content.chunks| then |content.chunks|
    else item.interrupted.value
  }

  lemma {:induction false} TurnPoints(
      lib: Library, report: Report, workspace: Workspace, repo: string, item: Item, j: nat)
    requires item.fetch.Fetched? && FindLive(lib.documents, workspace, Identity(repo, item.path)) == Some(j)
    requires j < |lib.documents|
    ensures PointsLeft(SyncedFile(lib, report, workspace, repo, item))
         == Upserted(lib.points, PointsOf(lib.documents[j].id, item.fetch.content, workspace),
                     TurnWrites(lib, workspace, repo, item))
  {
  }

  lemma {:induction false} TurnKeepsPoints(
      lib: Library, report: Report, workspace: Workspace, repo: string, item: Item, j: nat)
    requires Good(lib) && j < |lib.documents|
    requires item.fetch.Fetched? ==> !Matches(lib.documents[j], workspace, Identity(repo, item.path))
    ensures SamePoints(lib.points, PointsLeft(SyncedFile(lib, report, workspace, repo, item)), lib.documents[j].id)
  {
    var identity := Identity(repo, item.path);
    FoundIsFirst(lib.documents, workspace, identity);
    if item.fetch.Fetched? {
      var at := Found(lib, workspace, identity);
      var id := if at.None? then DocId(lib.nextId) else lib.documents[at.value].id;
      assert id != lib.documents[j].id;
      WritesKeepOthers(lib.points, TurnWrites(lib, workspace, repo, item), id, item.fetch.content, workspace,
                       lib.documents[j].id);
    }
  }

  lemma {:induction false} SamePointsTwice(a: Store, b: Store, c: Store, id: DocId)
    requires SamePoints(a, b, id) && SamePoints(b, c, id)
    ensures SamePoints(a, c, id)
  {
    forall i: int
      ensures (PointId(id, i) in a <==> PointId(id, i) in c)
              && (PointId(id, i) in a ==> a[PointId(id, i)] == c[PointId(id, i)])
    {
      assert PointId(id, i) in a <==> PointId(id, i) in b;
    }
  }

  // ---------- a whole sync ----------

  /** The turn of this item was reached. */
  predicate Reached(lib: Library, workspace: Workspace, repo: string, items: seq<Item>, m: nat)
    requires m <= |items|
  {
    Synced(lib, workspace, repo, items[..m]).Going?
  }

  /** No fetched file whose turn was reached is the document's. */
  predicate Untouched(lib: Library, workspace: Workspace, repo: string, items: seq<Item>, j: nat)
    requires j < |lib.documents|
  {
    forall m :: 0 <= m < |items| && items[m].fetch.Fetched? && Reached(lib, workspace, repo, items, m) ==>
      !Matches(lib.documents[j], workspace, Identity(repo, items[m].path))
  }

  lemma {:induction false} UntouchedEarlier(lib: Library, workspace: Workspace, repo: string, items: seq<Item>, j: nat)
    requires j < |lib.documents| && items != [] && Untouched(lib, workspace, repo, items, j)
    ensures Untouched(lib, workspace, repo, items[..|items| - 1], j)
  {
    var earlier := items[..|items| - 1];
    forall m | 0 <= m < |earlier| && earlier[m].fetch.Fetched? && Reached(lib, workspace, repo, earlier, m)
      ensures !Matches(lib.documents[j], workspace, Identity(repo, earlier[m].path))
    {
      assert earlier[..m] == items[..m] && earlier[m] == items[m];
      assert Reached(lib, workspace, repo, items, m);
    }
  }

  /** The last turn keeps what the turns before it kept. */
  lemma {:induction false} LastTurnKeeps(lib: Library, workspace: Workspace, repo: string, items: seq<Item>, j: nat)
    requires Good(lib) && j < |lib.documents| && items != [] && Reached(lib, workspace, repo, items, |items| - 1)
    requires items[|items| - 1].fetch.Fetched? ==>
               !Matches(lib.documents[j], workspace, Identity(repo, items[|items| - 1].path))
    requires SamePoints(lib.points, PointsLeft(Synced(lib, workspace, repo, items[..|items| - 1])), lib.documents[j].id)
    ensures SamePoints(lib.points, PointsLeft(Synced(lib, workspace, repo, items)), lib.documents[j].id)
  {
    var earlier, last := items[..|items| - 1], items[|items| - 1];
    var before := Synced(lib, workspace, repo, earlier);
    SyncKeepsRows(lib, workspace, repo, earlier, j);
    SyncedGood(lib, workspace, repo, earlier);
    TurnKeepsPoints(before.lib, before.report, workspace, repo, last, j);
    SamePointsTwice(lib.points, before.lib.points, PointsLeft(Synced(lib, workspace, repo, items)),
      lib.documents[j].id);
  }

  /** A document that stands for none of the files fetched keeps its points, whether the sync commits or aborts. */
  lemma {:induction false} SyncKeepsPoints(lib: Library, workspace: Workspace, repo: string, items: seq<Item>, j: nat)
    requires Good(lib) && j < |lib.documents| && Untouched(lib, workspace, repo, items, j)
    ensures SamePoints(lib.points, PointsLeft(Synced(lib, workspace, repo, items)), lib.documents[j].id)
  {
    if items == [] {
    } else {
      var earlier := items[..|items| - 1];
      UntouchedEarlier(lib, workspace, repo, items, j);
      SyncKeepsPoints(lib, workspace, repo, earlier, j);
      if Synced(lib, workspace, repo, earlier).Going? {
        LastTurnKeeps(lib, workspace, repo, items, j);
      }
    }
  }

  /** While a sync goes on, documents keep their places, ids, files and deletion marks. */
  lemma {:induction false} SyncKeepsRows(lib: Library, workspace: Workspace, repo: string, items: seq<Item>, j: nat)
    requires Synced(lib, workspace, repo, items).Going? && j < |lib.documents|
    ensures var after := Synced(lib, workspace, repo, items).lib;
            j < |after.documents| &&
              after.documents[j] == lib.documents[j].(chunkCount := after.documents[j].chunkCount)
  {
    if items == [] {
    } else {
      var before := Synced(lib, workspace, repo, items[..|items| - 1]);
      SyncKeepsRows(lib, workspace, repo, items[..|items| - 1], j);
      FileCases(before.lib, before.report, workspace, repo, items[|items| - 1]);
    }
  }

  lemma {:induction false} SameWrites(a: Store, b: Store, id: DocId, content: Content, workspace: Workspace, n: nat)
    requires SamePoints(a, b, id) && n <= |content.chunks|
    ensures SamePoints(Upserted(a, PointsOf(id, content, workspace), n),
                       Upserted(b, PointsOf(id, content, workspace), n), id)
  {
    var x, y := Upserted(a, PointsOf(id, content, workspace), n), Upserted(b, PointsOf(id, content, workspace), n);
    forall i: int ensures (PointId(id, i) in x <==> PointId(id, i) in y)
                          && (PointId(id, i) in x ==> x[PointId(id, i)] == y[PointId(id, i)]) {
      UpsertedLookup(a, n, id, content.chunks, content.vectors, Some(workspace.organization), Some(workspace),
        PointId(id, i));
      UpsertedLookup(b, n, id, content.chunks, content.vectors, Some(workspace.organization), Some(workspace),
        PointId(id, i));
      assert PointId(id, i) in a <==> PointId(id, i) in b;
    }
  }

  /** The points a document has after its own file's turn was the last one. */
  lemma {:induction false} LastTurnPoints(lib: Library, workspace: Workspace, repo: string, items: seq<Item>, j: nat)
    requires Good(lib) && Distinct(items) && items != [] && Reached(lib, workspace, repo, items, |items| - 1)
    requires var last := items[|items| - 1];
             last.fetch.Fetched? && FindLive(lib.documents, workspace, Identity(repo, last.path)) == Some(j)
    ensures j < |lib.documents|
    ensures var last, id := items[|items| - 1], lib.documents[j].id;
            SamePoints(Upserted(lib.points, PointsOf(id, last.fetch.content, workspace),
                                TurnWrites(lib, workspace, repo, last)),
                       PointsLeft(Synced(lib, workspace, repo, items)), id)
  {
    var earlier, last := items[..|items| - 1], items[|items| - 1];
    var before := Synced(lib, workspace, repo, earlier);
    FoundIsFirst(lib.documents, workspace, Identity(repo, last.path));
    SyncedSameFile(lib, workspace, repo, earlier, last.path);
    SameFileCurrent(lib, before.lib, workspace, Identity(repo, last.path));
    TurnPoints(before.lib, before.report, workspace, repo, last, j);
    SameWrites(lib.points, before.lib.points, lib.documents[j].id, last.fetch.content, workspace,
               TurnWrites(lib, workspace, repo, last));
  }

  /** The points of a listed file's document after a sync, committed or not: those of before, overwritten by what the
      file's own turn wrote. */
  lemma {:induction false} SyncedPoints(
      lib: Library, workspace: Workspace, repo: string, items: seq<Item>, m: nat, j: nat)
    requires Good(lib) && Distinct(items) && m < |items| && Reached(lib, workspace, repo, items, m)
    requires items[m].fetch.Fetched? && FindLive(lib.documents, workspace, Identity(repo, items[m].path)) == Some(j)
    ensures j < |lib.documents|
    ensures var id := lib.documents[j].id;
            SamePoints(Upserted(lib.points, PointsOf(id, items[m].fetch.content, workspace),
                                TurnWrites(lib, workspace, repo, items[m])),
                       PointsLeft(Synced(lib, workspace, repo, items)), id)
  {
    var n := |items| - 1;
    FoundIsFirst(lib.documents, workspace, Identity(repo, items[m].path));
    if m == n {
      LastTurnPoints(lib, workspace, repo, items, j);
    } else {
      var earlier := items[..n];
      assert earlier[..m] == items[..m];
      SyncedPoints(lib, workspace, repo, earlier, m, j);
      var before := Synced(lib, workspace, repo, earlier);
      if before.Going? {
        SyncKeepsRows(lib, workspace, repo, earlier, j);
        SyncedGood(lib, workspace, repo, earlier);
        if Identity(repo, items[m].path) == Identity(repo, items[n].path) {
          IdentityInjective(repo, items[m].path, items[n].path);
        }
        TurnKeepsPoints(before.lib, before.report, workspace, repo, items[n], j);
        SamePointsTwice(
          Upserted(lib.points, PointsOf(lib.documents[j].id, items[m].fetch.content, workspace),
                   TurnWrites(lib, workspace, repo, items[m])),
          before.lib.points, PointsLeft(Synced(lib, workspace, repo, items)), lib.documents[j].id);
      }
    }
  }

  // ---------- documents a sync has nothing to do with ----------

  /** A sync of one repository, committed or aborted, leaves every document of another repository, of another workspace
      and every deleted one with its row, versions and points. */
  lemma {:induction false} SyncKeepsOthers(
      lib: Library, workspace: Workspace, repo: string, items: seq<Item>, j: nat, other: string, path: string)
    requires Good(lib) && j < |lib.documents| && IsRepo(repo) && IsRepo(other)
    requires lib.documents[j].identity == Identity(other, path)
    requires other != repo || lib.documents[j].workspace != workspace || lib.documents[j].deleted
    ensures SameDocument(lib, Visible(lib, Synced(lib, workspace, repo, items)), j)
  {
    forall m | 0 <= m < |items| ensures !Matches(lib.documents[j], workspace, Identity(repo, items[m].path)) {
      IdentitiesExactly(other, path, repo, items[m].path);
    }
    if Synced(lib, workspace, repo, items).Going? {
      SyncedKeeps(lib, workspace, repo, items, j);
    } else {
      SyncKeepsPoints(lib, workspace, repo, items, j);
    }
  }

  // ---------- aborted syncs ----------

  /** After an aborted sync the stale chunks of a file whose turn was reached are those its writes missed and those
      its writes spoiled. */
  lemma {:induction false} AbortedStale(
      lib: Library, workspace: Workspace, repo: string, items: seq<Item>, m: nat, j: nat)
    requires Good(lib) && Sized(lib) && Distinct(items) && Synced(lib, workspace, repo, items).Aborted?
    requires m < |items| && Reached(lib, workspace, repo, items, m) && items[m].fetch.Fetched?
    requires FindLive(lib.documents, workspace, Identity(repo, items[m].path)) == Some(j)
    ensures j < |lib.documents|
    ensures var after := Visible(lib, Synced(lib, workspace, repo, items));
            && SizedAt(lib, j) && after.documents == lib.documents && SizedAt(after, j)
            && Stale(after, j)
               == AfterWrite(Stale(lib, j), Kept(lib, j), items[m].fetch.content,
                             TurnWrites(lib, workspace, repo, items[m]))
  {
    SyncedPoints(lib, workspace, repo, items, m, j);
    FoundIsFirst(lib.documents, workspace, Identity(repo, items[m].path));
    var after := Visible(lib, Synced(lib, workspace, repo, items));
    assert SizedAt(lib, j) && SizedAt(after, j) && Kept(after, j) == Kept(lib, j);
    WriteStales(lib.points, after.points, lib.documents[j], Kept(lib, j), items[m].fetch.content,
                TurnWrites(lib, workspace, repo, items[m]));
  }

  /** So such a file agrees afterwards if and only if every chunk its writes missed was right before, and every chunk
      they reached was written as it is kept. */
  lemma {:induction false} AbortedAgreesExactly(
      lib: Library, workspace: Workspace, repo: string, items: seq<Item>, m: nat, j: nat)
    requires Good(lib) && Sized(lib) && Distinct(items) && Synced(lib, workspace, repo, items).Aborted?
    requires m < |items| && Reached(lib, workspace, repo, items, m) && items[m].fetch.Fetched?
    requires FindLive(lib.documents, workspace, Identity(repo, items[m].path)) == Some(j)
    ensures j < |lib.documents| && SizedAt(lib, j)
    ensures var kept, tried, n := Kept(lib, j), items[m].fetch.content, TurnWrites(lib, workspace, repo, items[m]);
            FileAgrees(Visible(lib, Synced(lib, workspace, repo, items)), workspace, Identity(repo, items[m].path)) <==>
            (forall i: nat :: i < |kept.chunks| ==>
               if i < n then tried.chunks[i] == kept.chunks[i] else PointHolds(lib.points, lib.documents[j], kept, i))
  {
    AbortedStale(lib, workspace, repo, items, m, j);
    var after := Visible(lib, Synced(lib, workspace, repo, items));
    AgreesWithoutStale(after, j);
    NothingStale(Stale(lib, j), lib, j, items[m].fetch.content, TurnWrites(lib, workspace, repo, items[m]));
  }

  lemma {:induction false} NothingStale(stale: set<int>, lib: Library, j: nat, tried: Content, n: nat)
    requires j < |lib.documents| && SizedAt(lib, j) && stale == Stale(lib, j) && n <= |tried.chunks|
    ensures AfterWrite(stale, Kept(lib, j), tried, n) == {} <==>
            (forall i: nat :: i < |Kept(lib, j).chunks| ==>
               if i < n then tried.chunks[i] == Kept(lib, j).chunks[i]
               else PointHolds(lib.points, lib.documents[j], Kept(lib, j), i))
  {
    var kept, left := Kept(lib, j), AfterWrite(stale, Kept(lib, j), tried, n);
    forall i: nat | i < |kept.chunks|
      ensures i !in left <==> if i < n then tried.chunks[i] == kept.chunks[i]
                              else PointHolds(lib.points, lib.documents[j], kept, i)
    {
    }
    if left != {} {
      var i := NonemptyInts(left);
    }
  }

  // ---------- committed syncs ----------

  lemma {:induction false} OnlyItem(d: Document, workspace: Workspace, repo: string, items: seq<Item>, m: nat)
    requires Distinct(items) && m < |items| && Matches(d, workspace, Identity(repo, items[m].path))
    ensures forall i :: 0 <= i < |items| && i != m ==> !Matches(d, workspace, Identity(repo, items[i].path))
  {
    forall i | 0 <= i < |items| && i != m ensures !Matches(d, workspace, Identity(repo, items[i].path)) {
      if Identity(repo, items[i].path) == Identity(repo, items[m].path) {
        IdentityInjective(repo, items[i].path, items[m].path);
      }
    }
  }

  lemma {:induction false} LastTurnKeepsDocument(
      lib: Library, workspace: Workspace, repo: string, items: seq<Item>, j: nat)
    requires Good(lib) && items != [] && Synced(lib, workspace, repo, items).Going?
    requires SameDocument(lib, Synced(lib, workspace, repo, items[..|items| - 1]).lib, j)
    requires !Matches(lib.documents[j], workspace, Identity(repo, items[|items| - 1].path))
    ensures SameDocument(lib, Synced(lib, workspace, repo, items).lib, j)
  {
    var before := Synced(lib, workspace, repo, items[..|items| - 1]);
    SyncedGood(lib, workspace, repo, items[..|items| - 1]);
    FileKeeps(before.lib, before.report, workspace, repo, items[|items| - 1], j);
    SameTwice(lib, before.lib, Synced(lib, workspace, repo, items).lib, j);
  }

  /** A turn that skips its file, after turns of other files. */
  lemma {:induction false} LastTurnSkips(lib: Library, workspace: Workspace, repo: string, items: seq<Item>, j: nat)
    requires Good(lib) && Distinct(items) && items != [] && Synced(lib, workspace, repo, items).Going?
    requires var last := items[|items| - 1];
             && FindLive(lib.documents, workspace, Identity(repo, last.path)) == Some(j)
             && (last.fetch.Fetched? ==>
                   Current(lib, workspace, Identity(repo, last.path)) == Some(Sha256(last.fetch.content)))
    ensures SameDocument(lib, Synced(lib, workspace, repo, items).lib, j)
  {
    var earlier, last := items[..|items| - 1], items[|items| - 1];
    SyncedSameFile(lib, workspace, repo, earlier, last.path);
    SameFileCurrent(lib, Synced(lib, workspace, repo, earlier).lib, workspace, Identity(repo, last.path));
  }

  lemma {:induction false} SkippedKeeps(
      lib: Library, workspace: Workspace, repo: string, items: seq<Item>, m: nat, j: nat)
    requires Good(lib) && Distinct(items) && Synced(lib, workspace, repo, items).Going? && m < |items|
    requires FindLive(lib.documents, workspace, Identity(repo, items[m].path)) == Some(j)
    requires items[m].fetch.Fetched? ==>
               Current(lib, workspace, Identity(repo, items[m].path)) == Some(Sha256(items[m].fetch.content))
    ensures SameDocument(lib, Synced(lib, workspace, repo, items).lib, j)
  {
    if m == |items| - 1 {
      LastTurnSkips(lib, workspace, repo, items, j);
    } else {
      SkippedKeeps(lib, workspace, repo, items[..|items| - 1], m, j);
      FoundIsFirst(lib.documents, workspace, Identity(repo, items[m].path));
      OnlyItem(lib.documents[j], workspace, repo, items, m);
      LastTurnKeepsDocument(lib, workspace, repo, items, j);
    }
  }

  lemma {:induction false} ChangedAgrees(
      lib: Library, workspace: Workspace, repo: string, items: seq<Item>, m: nat, j: nat)
    requires Good(lib) && Distinct(items) && Synced(lib, workspace, repo, items).Going? && m < |items|
    requires FindLive(lib.documents, workspace, Identity(repo, items[m].path)) == Some(j) && items[m].fetch.Fetched?
    requires Current(lib, workspace, Identity(repo, items[m].path)) != Some(Sha256(items[m].fetch.content))
    ensures j < |Synced(lib, workspace, repo, items).lib.documents| &&
            Agrees(Synced(lib, workspace, repo, items).lib, j)
  {
    var after := Synced(lib, workspace, repo, items).lib;
    FoundIsFirst(lib.documents, workspace, Identity(repo, items[m].path));
    FetchedAgreesExactly(lib, workspace, repo, items, m);
    SyncKeepsRows(lib, workspace, repo, items, j);
    SyncedGood(lib, workspace, repo, items);
    FoundIsUnique(after.documents, j);
  }

  lemma {:induction false} NewAgrees(lib: Library, workspace: Workspace, repo: string, items: seq<Item>, j: nat)
    requires Good(lib) && Synced(lib, workspace, repo, items).Going?
    requires |lib.documents| <= j < |Synced(lib, workspace, repo, items).lib.documents|
    ensures Agrees(Synced(lib, workspace, repo, items).lib, j)
  {
    if items == [] {
    } else {
      var earlier, last := items[..|items| - 1], items[|items| - 1];
      var before := Synced(lib, workspace, repo, earlier);
      SyncedGood(lib, workspace, repo, earlier);
      FileCases(before.lib, before.report, workspace, repo, last);
      if j < |before.lib.documents| {
        NewAgrees(lib, workspace, repo, earlier, j);
      }
      if last.fetch.Fetched? && Synced(lib, workspace, repo, items).lib != before.lib {
        ProcessedNewAgrees(before.lib, workspace, Identity(repo, last.path), last.fetch.content, j);
      }
    }
  }

  lemma {:induction false} ProcessedNewAgrees(
      lib: Library, workspace: Workspace, identity: string, content: Content, j: nat)
    requires Good(lib) && j < |Processed(lib, workspace, identity, content).documents|
    requires j < |lib.documents| ==> Agrees(lib, j)
    ensures Agrees(Processed(lib, workspace, identity, content), j)
  {
    var after := Processed(lib, workspace, identity, content);
    FoundIsFirst(lib.documents, workspace, identity);
    ProcessedTarget(lib, workspace, identity, content);
    if j == Target(lib, workspace, identity) {
      ProcessedAgrees(lib, workspace, identity, content);
    } else {
      if Matches(lib.documents[j], workspace, identity) {
        FoundIsUnique(lib.documents, j);
      }
      ProcessedKeeps(lib, workspace, identity, content, j);
      SameAgrees(lib, after, j);
    }
  }

  // ---------- whole histories ----------

  /** The listed item that stands for the document. */
  function ItemFor(d: Document, workspace: Workspace, repo: string, items: seq<Item>): Option<nat> {
    if items == [] then None
    else if Matches(d, workspace, Identity(repo, items[|items| - 1].path)) then Some(|items| - 1)
    else ItemFor(d, workspace, repo, items[..|items| - 1])
  }

  lemma {:induction false} ItemForIs(d: Document, workspace: Workspace, repo: string, items: seq<Item>)
    ensures match ItemFor(d, workspace, repo, items)
            case Some(m) => m < |items| && Matches(d, workspace, Identity(repo, items[m].path))
            case None => forall m :: 0 <= m < |items| ==> !Matches(d, workspace, Identity(repo, items[m].path))
  {
    if items == [] {
    } else {
      ItemForIs(d, workspace, repo, items[..|items| - 1]);
    }
  }

  /** The stale chunks of a document of before after one sync, reckoned from its stale chunks before, the rows and what
      the sync met, without a look at the points. */
  function StaleAfterSync(
      lib: Library, workspace: Workspace, repo: string, items: seq<Item>, j: nat, stale: set<int>): set<int>
    requires j < |lib.documents| && SizedAt(lib, j)
  {
    var m := ItemFor(lib.documents[j], workspace, repo, items);
    if m.None? || m.value >= |items| || !Reached(lib, workspace, repo, items, m.value) then stale
    else if !items[m.value].fetch.Fetched? then stale
    else
      var item := items[m.value];
      var content := item.fetch.content;
      if Synced(lib, workspace, repo, items).Aborted? then
        AfterWrite(stale, Kept(lib, j), content, TurnWrites(lib, workspace, repo, item))
      else if Current(lib, workspace, Identity(repo, item.path)) == Some(Sha256(content)) then stale
      else {}
  }

  /** An aborted sync leaves the stale chunks that are reckoned. */
  lemma {:induction false} AbortedAsReckoned(lib: Library, workspace: Workspace, repo: string, items: seq<Item>, j: nat)
    requires Good(lib) && Sized(lib) && Distinct(items) && Synced(lib, workspace, repo, items).Aborted?
    requires j < |lib.documents| && !lib.documents[j].deleted && SizedAt(lib, j)
    ensures var after := Visible(lib, Synced(lib, workspace, repo, items));
            SizedAt(after, j) && Stale(after, j) == StaleAfterSync(lib, workspace, repo, items, j, Stale(lib, j))
  {
    var d := lib.documents[j];
    var after := Visible(lib, Synced(lib, workspace, repo, items));
    ItemForIs(d, workspace, repo, items);
    var m := ItemFor(d, workspace, repo, items);
    if m.Some? && Reached(lib, workspace, repo, items, m.value) && items[m.value].fetch.Fetched? {
      FoundIsUnique(lib.documents, j);
      AbortedStale(lib, workspace, repo, items, m.value, j);
    } else {
      if m.Some? {
        OnlyItem(d, workspace, repo, items, m.value);
      }
      SyncKeepsPoints(lib, workspace, repo, items, j);
      SameStale(lib, after, j);
    }
  }

  lemma {:induction false} GoingReaches(lib: Library, workspace: Workspace, repo: string, items: seq<Item>, m: nat)
    requires Synced(lib, workspace, repo, items).Going? && m <= |items|
    ensures Reached(lib, workspace, repo, items, m)
    decreases |items| - m
  {
    if m == |items| {
      assert items[..m] == items;
    } else {
      GoingReaches(lib, workspace, repo, items, m + 1);
      assert items[..m + 1][..m] == items[..m];
    }
  }

  lemma {:induction false} CommittedAsReckoned(
      lib: Library, workspace: Workspace, repo: string, items: seq<Item>, j: nat)
    requires Good(lib) && Sized(lib) && Distinct(items) && Synced(lib, workspace, repo, items).Going?
    requires j < |lib.documents| && !lib.documents[j].deleted && SizedAt(lib, j)
    ensures var after := Synced(lib, workspace, repo, items).lib;
            && j < |after.documents| && SizedAt(after, j)
            && Stale(after, j) == StaleAfterSync(lib, workspace, repo, items, j, Stale(lib, j))
  {
    var d := lib.documents[j];
    var after := Synced(lib, workspace, repo, items).lib;
    ItemForIs(d, workspace, repo, items);
    FoundIsUnique(lib.documents, j);
    var m := ItemFor(d, workspace, repo, items);
    if m.None? {
      SyncedKeeps(lib, workspace, repo, items, j);
      SameStale(lib, after, j);
    } else {
      GoingReaches(lib, workspace, repo, items, m.value);
      var item := items[m.value];
      if item.fetch.Fetched? && Current(lib, workspace, d.identity) != Some(Sha256(item.fetch.content)) {
        ChangedAgrees(lib, workspace, repo, items, m.value, j);
        SyncedSized(lib, workspace, repo, items);
        assert SizedAt(after, j);
        AgreesWithoutStale(after, j);
      } else {
        SkippedKeeps(lib, workspace, repo, items, m.value, j);
        SameStale(lib, after, j);
      }
    }
  }

  /** No sync of the history lists a path twice. */
  predicate Listed(events: seq<Event>) {
    forall i :: 0 <= i < |events| && events[i].Run? ==> Distinct(events[i].items)
  }

  lemma {:induction false} HistorySized(events: seq<Event>)
    ensures Sized(After(events))
  {
    if events == [] {
    } else {
      var before, last := events[..|events| - 1], events[|events| - 1];
      HistorySized(before);
      HistoryGood(before);
      match last {
        case Run(workspace, repo, items) => SyncedSized(After(before), workspace, repo, items);
        case Delete(k) => DeleteSized(After(before), k);
      }
    }
  }

  lemma {:induction false} DeleteSized(lib: Library, k: nat)
    requires Sized(lib)
    ensures Sized(Happened(lib, Delete(k)))
  {
    var after := Happened(lib, Delete(k));
    forall j | 0 <= j < |after.documents| ensures SizedAt(after, j) {
      assert SizedAt(lib, j);
    }
  }

  /** The stale chunks of a document, reckoned from the syncs of the history. A document is new without any. */
  ghost function Reckoned(events: seq<Event>, j: nat): set<int> {
    if events == [] then {}
    else
      var before, last := events[..|events| - 1], events[|events| - 1];
      var lib := After(before);
      HistorySized(before);
      if j >= |lib.documents| then {}
      else
        assert SizedAt(lib, j);
        match last
        case Run(workspace, repo, items) => StaleAfterSync(lib, workspace, repo, items, j, Reckoned(before, j))
        case Delete(_) => Reckoned(before, j)
  }

  lemma {:induction false} RunAsReckoned(lib: Library, workspace: Workspace, repo: string, items: seq<Item>, j: nat)
    requires Good(lib) && Sized(lib) && Distinct(items)
    requires var after := Visible(lib, Synced(lib, workspace, repo, items));
             j < |after.documents| && SizedAt(after, j) && !after.documents[j].deleted
    ensures var after := Visible(lib, Synced(lib, workspace, repo, items));
            Stale(after, j) == if j >= |lib.documents| then {}
                               else assert SizedAt(lib, j);
                                    StaleAfterSync(lib, workspace, repo, items, j, Stale(lib, j))
    ensures j < |lib.documents| ==> !lib.documents[j].deleted
  {
    var progress := Synced(lib, workspace, repo, items);
    var after := Visible(lib, progress);
    if j >= |lib.documents| {
      NewAgrees(lib, workspace, repo, items, j);
      AgreesWithoutStale(after, j);
    } else {
      assert SizedAt(lib, j);
      if progress.Going? {
        SyncKeepsRows(lib, workspace, repo, items, j);
        CommittedAsReckoned(lib, workspace, repo, items, j);
      } else {
        AbortedAsReckoned(lib, workspace, repo, items, j);
      }
    }
  }

  /** Over any history of committed and aborted syncs and deletions, the stale chunks of a live document are exactly
      those reckoned. */
  lemma {:induction false} HistoryAsReckoned(events: seq<Event>, j: nat)
    requires Listed(events) && j < |After(events).documents| && !After(events).documents[j].deleted
    ensures SizedAt(After(events), j) && Stale(After(events), j) == Reckoned(events, j)
  {
    HistorySized(events);
    assert SizedAt(After(events), j);
    if events == [] {
    } else {
      var before, last := events[..|events| - 1], events[|events| - 1];
      var lib := After(before);
      HistoryGood(before);
      HistorySized(before);
      match last {
        case Run(workspace, repo, items) =>
          RunAsReckoned(lib, workspace, repo, items, j);
        case Delete(k) =>
          assert SizedAt(lib, j);
          SameStale(lib, After(events), j);
      }
      if j < |lib.documents| {
        HistoryAsReckoned(before, j);
      }
    }
  }

  /** So a history ends with every live document in agreement with the vector store if and only if none is reckoned to
      have a stale chunk. */
  lemma {:induction false} HistoryAgreesExactly(events: seq<Event>)
    requires Listed(events)
    ensures AllAgree(After(events)) <==>
            (forall j: nat :: j < |After(events).documents| && !After(events).documents[j].deleted ==>
               Reckoned(events, j) == {})
  {
    var lib := After(events);
    HistorySized(events);
    forall j: nat | j < |lib.documents| && !lib.documents[j].deleted
      ensures Agrees(lib, j) <==> Reckoned(events, j) == {}
    {
      assert SizedAt(lib, j);
      HistoryAsReckoned(events, j);
      AgreesWithoutStale(lib, j);
    }
  }
}
