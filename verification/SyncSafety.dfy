/** What syncs keep: dense version numbers, one live document per file, fetched checksums, and vectors that agree. */
module SyncSafety {
  import opened Common
  import opened Vectors
  import opened Sync

  // ---------- the table invariant ----------

  /** Numbered exactly 1..n, with at least one version. */
  predicate Dense(versions: seq<Version>) {
    versions != [] && forall i :: 0 <= i < |versions| ==> versions[i].number == i + 1
  }

  predicate Ids(lib: Library) {
    && (forall i :: 0 <= i < |lib.documents| ==> lib.documents[i].id.n < lib.nextId)
    && (forall i, j :: 0 <= i < j < |lib.documents| ==> lib.documents[i].id != lib.documents[j].id)
  }

  predicate Twins(d: Document, e: Document) {
    !d.deleted && !e.deleted && d.workspace == e.workspace && d.identity == e.identity
  }

  /** No two live documents of a workspace stand for the same file. */
  predicate OneLive(documents: seq<Document>) {
    forall i, j :: 0 <= i < j < |documents| ==> !Twins(documents[i], documents[j])
  }

  predicate Versioned(lib: Library) {
    forall i :: 0 <= i < |lib.documents| ==> Dense(VersionsOf(lib.versions, lib.documents[i].id))
  }

  predicate Good(lib: Library) {
    Ids(lib) && OneLive(lib.documents) && Versioned(lib)
  }

  lemma {:induction false} HighestOfDense(versions: seq<Version>)
    requires Dense(versions)
    ensures Highest(versions) == Some(versions[|versions| - 1])
  {
    if |versions| > 1 {
      HighestOfDense(versions[..|versions| - 1]);
    } else {
      assert Highest(versions[..0]) == None;
    }
  }

  lemma {:induction false} FoundIsFirst(documents: seq<Document>, workspace: Workspace, identity: string)
    ensures match FindLive(documents, workspace, identity)
            case Some(k) => k < |documents| && Matches(documents[k], workspace, identity)
            case None => forall i :: 0 <= i < |documents| ==> !Matches(documents[i], workspace, identity)
  {
    if documents == [] {
    } else {
      FoundIsFirst(documents[..|documents| - 1], workspace, identity);
      var n := |documents| - 1;
      assert forall i :: 0 <= i < n ==> documents[..n][i] == documents[i];
    }
  }

  /** A live document is the one its own workspace and identity find. */
  lemma {:induction false} FoundIsUnique(documents: seq<Document>, k: nat)
    requires OneLive(documents) && k < |documents| && !documents[k].deleted
    ensures FindLive(documents, documents[k].workspace, documents[k].identity) == Some(k)
  {
    FoundIsFirst(documents, documents[k].workspace, documents[k].identity);
  }

  // ---------- one file ----------

  ghost predicate SamePoints(a: Store, b: Store, id: DocId) {
    forall i: int :: (PointId(id, i) in a <==> PointId(id, i) in b)
                     && (PointId(id, i) in a ==> a[PointId(id, i)] == b[PointId(id, i)])
  }

  /** Document `j` has the same row, versions and points in both. */
  ghost predicate SameDocument(a: Library, b: Library, j: nat) {
    && j < |a.documents| && j < |b.documents| && a.documents[j] == b.documents[j]
    && VersionsOf(a.versions, a.documents[j].id) == VersionsOf(b.versions, a.documents[j].id)
    && SamePoints(a.points, b.points, a.documents[j].id)
  }

  lemma {:induction false} WritesKeepOthers(
      points: Store, n: nat, id: DocId, content: Content, workspace: Workspace, other: DocId)
    requires n <= |content.chunks| && other != id
    ensures SamePoints(points, Upserted(points, PointsOf(id, content, workspace), n), other)
  {
    forall i: int ensures var p := PointId(other, i);
                          var after := Upserted(points, PointsOf(id, content, workspace), n);
                     (p in points <==> p in after) && (p in points ==> points[p] == after[p]) {
      UpsertedLookup(points, n, id, content.chunks, content.vectors, Some(workspace.organization), Some(workspace),
        PointId(other, i));
    }
  }

  lemma {:induction false} AddedGood(lib: Library, workspace: Workspace, identity: string, content: Content)
    requires Good(lib) && FindLive(lib.documents, workspace, identity) == None
    ensures Good(Added(lib, workspace, identity, content))
  {
    var after := Added(lib, workspace, identity, content);
    FoundIsFirst(lib.documents, workspace, identity);
    forall i | 0 <= i < |after.documents| ensures Dense(VersionsOf(after.versions, after.documents[i].id)) {
      if i < |lib.documents| {
        assert VersionsOf(after.versions, after.documents[i].id) == VersionsOf(lib.versions, lib.documents[i].id);
      }
    }
  }

  lemma {:induction false} UpdatedGood(lib: Library, k: nat, workspace: Workspace, content: Content)
    requires Good(lib) && k < |lib.documents|
    ensures Good(Updated(lib, k, workspace, content))
  {
    var after := Updated(lib, k, workspace, content);
    forall i | 0 <= i < |after.documents| ensures Dense(VersionsOf(after.versions, after.documents[i].id)) {
      assert Dense(VersionsOf(lib.versions, lib.documents[i].id));
      if i != k {
        assert VersionsOf(after.versions, after.documents[i].id) == VersionsOf(lib.versions, lib.documents[i].id);
      }
    }
  }

  lemma {:induction false} ProcessedGood(lib: Library, workspace: Workspace, identity: string, content: Content)
    requires Good(lib)
    ensures Good(Processed(lib, workspace, identity, content))
  {
    FoundIsFirst(lib.documents, workspace, identity);
    var at := Found(lib, workspace, identity);
    if at.None? {
      AddedGood(lib, workspace, identity, content);
    } else {
      UpdatedGood(lib, at.value, workspace, content);
    }
  }

  /** Processing a file leaves every document that does not stand for it as it was. */
  lemma {:induction false} ProcessedKeeps(
      lib: Library, workspace: Workspace, identity: string, content: Content, j: nat)
    requires Good(lib) && j < |lib.documents| && !Matches(lib.documents[j], workspace, identity)
    ensures SameDocument(lib, Processed(lib, workspace, identity, content), j)
  {
    FoundIsFirst(lib.documents, workspace, identity);
    var at := Found(lib, workspace, identity);
    var id := if at.None? then DocId(lib.nextId) else lib.documents[at.value].id;
    assert id != lib.documents[j].id;
    WritesKeepOthers(lib.points, |content.chunks|, id, content, workspace, lib.documents[j].id);
  }

  // ---------- agreement with the vector store ----------

  predicate PointHolds(points: Store, d: Document, content: Content, i: nat)
    requires i < |content.chunks|
  {
    && PointId(d.id, i) in points
    && points[PointId(d.id, i)].payload
       == Payload(d.id, i, content.chunks[i], Some(d.workspace.organization), Some(d.workspace))
  }

  /** Every chunk of the document's latest version is stored under its own id, with the document's tenant. */
  ghost predicate Agrees(lib: Library, j: nat)
    requires j < |lib.documents|
  {
    var d := lib.documents[j];
    var latest := LatestChecksum(lib.versions, d.id);
    && latest.Some? && d.chunkCount == |latest.value.content.chunks|
    && forall i: nat :: i < d.chunkCount ==> PointHolds(lib.points, d, latest.value.content, i)
  }

  lemma {:induction false} SameAgrees(a: Library, b: Library, j: nat)
    requires SameDocument(a, b, j)
    ensures Agrees(a, j) <==> Agrees(b, j)
  {
    SameAgreesOneWay(a, b, j);
    SameAgreesOneWay(b, a, j);
  }

  lemma {:induction false} SameAgreesOneWay(a: Library, b: Library, j: nat)
    requires SameDocument(a, b, j)
    ensures Agrees(a, j) ==> Agrees(b, j)
  {
    if Agrees(a, j) {
      var d := a.documents[j];
      var content := LatestChecksum(a.versions, d.id).value.content;
      forall i: nat | i < d.chunkCount ensures PointHolds(b.points, d, content, i) {
        assert PointHolds(a.points, d, content, i);
      }
    }
  }

  /** Where the document of a processed file is found. */
  function Target(lib: Library, workspace: Workspace, identity: string): nat {
    var at := Found(lib, workspace, identity);
    if at.None? then |lib.documents| else at.value
  }

  lemma {:induction false} ProcessedTarget(lib: Library, workspace: Workspace, identity: string, content: Content)
    requires Good(lib)
    ensures var after, j := Processed(lib, workspace, identity, content), Target(lib, workspace, identity);
            && j < |after.documents| && Matches(after.documents[j], workspace, identity)
            && LatestChecksum(after.versions, after.documents[j].id) == Some(Sha256(content))
            && after.documents[j].chunkCount == |content.chunks|
            && after.points == Indexed(lib.points, after.documents[j].id, content, workspace)
  {
    FoundIsFirst(lib.documents, workspace, identity);
    ProcessedGood(lib, workspace, identity, content);
    var after, j := Processed(lib, workspace, identity, content), Target(lib, workspace, identity);
    HighestOfDense(VersionsOf(after.versions, after.documents[j].id));
  }

  /** Processing a file makes its document agree, whatever the vector store held before. */
  lemma {:induction false} ProcessedAgrees(lib: Library, workspace: Workspace, identity: string, content: Content)
    requires Good(lib)
    ensures Target(lib, workspace, identity) < |Processed(lib, workspace, identity, content).documents|
    ensures Agrees(Processed(lib, workspace, identity, content), Target(lib, workspace, identity))
  {
    ProcessedTarget(lib, workspace, identity, content);
    var after, j := Processed(lib, workspace, identity, content), Target(lib, workspace, identity);
    var d := after.documents[j];
    forall i: nat | i < d.chunkCount ensures PointHolds(after.points, d, content, i) {
      UpsertedLookup(lib.points, |content.chunks|, d.id, content.chunks, content.vectors,
                     Some(workspace.organization), Some(workspace), PointId(d.id, i));
    }
  }
}
