/** Incremental sync of a repository: documents, their versions, and the vector store that a rollback does not touch. */
module Sync {
  import opened Common
  import opened Vectors

  // ---------- rows ----------

  /** A file's bytes with what cutting and embedding its text makes of them, one vector per chunk. */
  datatype RawContent = Content(bytes: seq<int>, chunks: seq<string>, vectors: seq<Vector>)
  type Content = c: RawContent | |c.chunks| == |c.vectors| witness Content([], [], [])

  /** SHA-256, taken as injective. */
  datatype Checksum = Sha256(content: Content)

  datatype Document = Document(id: DocId, identity: string, workspace: Workspace, deleted: bool, chunkCount: nat)
  datatype Version = Version(number: nat, checksum: Checksum)

  /** Connector documents in order of insertion, the version rows of each, the next unused document id, and the
      points. Document ids are random in the source; here they are counted, and never used again. */
  datatype Library = Library(documents: seq<Document>, versions: map<DocId, seq<Version>>, nextId: nat, points: Store)

  function VersionsOf(versions: map<DocId, seq<Version>>, id: DocId): seq<Version> {
    if id in versions then versions[id] else []
  }

  /** The version with the highest number. */
  function Highest(versions: seq<Version>): Option<Version> {
    if versions == [] then None
    else
      var best, last := Highest(versions[..|versions| - 1]), versions[|versions| - 1];
      if best.Some? && best.value.number >= last.number then best else Some(last)
  }

  predicate Matches(d: Document, workspace: Workspace, identity: string) {
    d.workspace == workspace && d.identity == identity && !d.deleted
  }

  /** The first live document of the workspace with this identity. */
  function FindLive(documents: seq<Document>, workspace: Workspace, identity: string): Option<nat> {
    if documents == [] then None
    else
      var n := |documents| - 1;
      var earlier := FindLive(documents[..n], workspace, identity);
      if earlier.Some? then earlier else if Matches(documents[n], workspace, identity) then Some(n) else None
  }

  function LatestChecksum(versions: map<DocId, seq<Version>>, id: DocId): Option<Checksum> {
    var latest := Highest(VersionsOf(versions, id));
    if latest.Some? then Some(latest.value.checksum) else None
  }

  function Current(lib: Library, workspace: Workspace, identity: string): Option<Checksum> {
    var at := FindLive(lib.documents, workspace, identity);
    if at.Some? && at.value < |lib.documents| then LatestChecksum(lib.versions, lib.documents[at.value].id) else None
  }

  // ---------- one file ----------

  /** A fetch may yield the file, be refused (recorded and passed over), or break in a way nothing catches. */
  datatype Fetch = Fetched(content: Content) | Refused | Broken

  /** `embeds`: the embedding model and the collection answer. `interrupted`: after how many points the upsert failed,
      if it did. */
  datatype Item = Item(path: string, fetch: Fetch, embeds: bool, interrupted: Option<nat>)
  datatype Report = Report(processed: nat, created: nat, skipped: nat, failed: nat, chunks: nat)
  datatype Progress = Going(lib: Library, report: Report) | Aborted(nextId: nat, points: Store)

  function Identity(repo: string, path: string): string {
    "github://" + repo + "/" + path
  }

  function PointsOf(id: DocId, content: Content, workspace: Workspace): seq<Point> {
    Batch(id, content.chunks, content.vectors, Some(workspace.organization), Some(workspace))
  }

  function Indexed(points: Store, id: DocId, content: Content, workspace: Workspace): Store {
    Upserted(points, PointsOf(id, content, workspace), |content.chunks|)
  }

  /** A file not seen before: a document with its first version. */
  function Added(lib: Library, workspace: Workspace, identity: string, content: Content): Library {
    var id := DocId(lib.nextId);
    Library(lib.documents + [Document(id, identity, workspace, false, |content.chunks|)],
            lib.versions[id := [Version(1, Sha256(content))]],
            lib.nextId + 1,
            Indexed(lib.points, id, content, workspace))
  }

  /** A changed file: one more version of its document. */
  function Updated(lib: Library, k: nat, workspace: Workspace, content: Content): Library
    requires k < |lib.documents|
  {
    var id := lib.documents[k].id;
    var versions := VersionsOf(lib.versions, id);
    lib.(documents := lib.documents[k := lib.documents[k].(chunkCount := |content.chunks|)],
         versions := lib.versions[id := versions + [Version(|versions| + 1, Sha256(content))]],
         points := Indexed(lib.points, id, content, workspace))
  }

  function Found(lib: Library, workspace: Workspace, identity: string): (at: Option<nat>)
    ensures at.Some? ==> at.value < |lib.documents|
  {
    var at := FindLive(lib.documents, workspace, identity);
    if at.Some? && at.value < |lib.documents| then at else None
  }

  function Processed(lib: Library, workspace: Workspace, identity: string, content: Content): Library {
    var at := Found(lib, workspace, identity);
    if at.None? then Added(lib, workspace, identity, content) else Updated(lib, at.value, workspace, content)
  }

  /** What is left when the write fails: the points written so far, and an id spent on a new document. */
  function Interrupted(lib: Library, workspace: Workspace, identity: string, content: Content, written: nat): Progress {
    var at := Found(lib, workspace, identity);
    var id := if at.None? then DocId(lib.nextId) else lib.documents[at.value].id;
    var batch := PointsOf(id, content, workspace);
    Aborted(if at.None? then lib.nextId + 1 else lib.nextId,
            Upserted(lib.points, batch, Written(batch, Some(written))))
  }

  function Counted(report: Report, created: bool, content: Content): Report {
    report.(processed := report.processed + 1, created := report.created + (if created then 1 else 0),
            chunks := report.chunks + |content.chunks|)
  }

  function SyncedFile(lib: Library, report: Report, workspace: Workspace, repo: string, item: Item): Progress {
    var identity := Identity(repo, item.path);
    match item.fetch
    case Refused => Going(lib, report.(failed := report.failed + 1))
    case Broken => Aborted(lib.nextId, lib.points)
    case Fetched(content) =>
      if Current(lib, workspace, identity) == Some(Sha256(content)) then
        Going(lib, report.(skipped := report.skipped + 1))
      else if !item.embeds then Aborted(lib.nextId, lib.points)
      else if content.chunks != [] && item.interrupted.Some? then
        Interrupted(lib, workspace, identity, content, item.interrupted.value)
      else Going(Processed(lib, workspace, identity, content),
                 Counted(report, Found(lib, workspace, identity).None?, content))
  }

  // ---------- a whole sync ----------

  const NOTHING_YET := Report(0, 0, 0, 0, 0)

  function Synced(lib: Library, workspace: Workspace, repo: string, items: seq<Item>): Progress {
    if items == [] then Going(lib, NOTHING_YET)
    else
      match Synced(lib, workspace, repo, items[..|items| - 1])
      case Aborted(nextId, points) => Aborted(nextId, points)
      case Going(so, report) => SyncedFile(so, report, workspace, repo, items[|items| - 1])
  }

  /** What other sessions see afterwards: everything after a commit, the points alone after a rollback. */
  function Visible(lib: Library, progress: Progress): Library {
    match progress
    case Going(after, _) => after
    case Aborted(nextId, points) => lib.(nextId := nextId, points := points)
  }

  lemma {:induction false} AbortsEarly(lib: Library, workspace: Workspace, repo: string, items: seq<Item>, n: nat)
    requires n <= |items| && Synced(lib, workspace, repo, items[..n]).Aborted?
    ensures Synced(lib, workspace, repo, items) == Synced(lib, workspace, repo, items[..n])
    decreases |items| - n
  {
    if n < |items| {
      assert items[..n + 1][..n] == items[..n];
      AbortsEarly(lib, workspace, repo, items, n + 1);
    } else {
      assert items[..n] == items;
    }
  }

  class SyncSession {
    var documents: seq<Document>
    var versions: map<DocId, seq<Version>>
    var nextId: nat
    const store: VectorStore

    constructor (store: VectorStore)
      ensures documents == [] && versions == map[] && nextId == 0 && this.store == store
    {
      documents, versions, nextId := [], map[], 0;
      this.store := store;
    }

    function View(): Library
      reads this, store
    {
      Library(documents, versions, nextId, store.points)
    }

    /** The first live document with this identity, found by looking through the table. */
    method Lookup(workspace: Workspace, identity: string) returns (at: Option<nat>)
      ensures at == Found(View(), workspace, identity)
    {
      for i := 0 to |documents|
        invariant FindLive(documents[..i], workspace, identity) == None
      {
        assert documents[..i + 1][..i] == documents[..i];
        if Matches(documents[i], workspace, identity) {
          FoundEarly(documents, workspace, identity, i + 1);
          return Some(i);
        }
      }
      assert documents[..|documents|] == documents;
      at := None;
    }

    /** One turn of the loop for a fetched file that is neither refused nor up to date. */
    method Process(workspace: Workspace, identity: string, content: Content, at: Option<nat>, interrupted: Option<nat>)
      returns (ok: bool)
      requires at == Found(View(), workspace, identity)
      modifies this, store
      ensures ok <==> content.chunks == [] || interrupted.None?
      ensures ok ==> View() == Processed(old(View()), workspace, identity, content)
      ensures !ok ==> Aborted(nextId, store.points)
                      == Interrupted(old(View()), workspace, identity, content, interrupted.value)
    {
      var id: DocId, number: nat;
      if at.None? {
        id, number := DocId(nextId), 1;
        documents := documents + [Document(id, identity, workspace, false, |content.chunks|)];
        nextId := nextId + 1;
      } else {
        id := documents[at.value].id;
        number := |VersionsOf(versions, id)| + 1;
      }
      var count := Some(0);
      if content.chunks != [] {
        count := store.IndexChunks(id, content.chunks, content.vectors, Some(workspace.organization),
          Some(workspace), interrupted);
      }
      if count.None? {
        return false;
      }
      var added := Version(number, Sha256(content));
      versions := versions[id := if at.None? then [added] else VersionsOf(versions, id) + [added]];
      if at.Some? {
        documents := documents[at.value := documents[at.value].(chunkCount := count.value)];
      }
      ok := true;
      assert |PointsOf(id, content, workspace)| == |content.chunks|;
      assert store.points == Indexed(old(View()).points, id, content, workspace);
      if at.None? {
        assert View() == Added(old(View()), workspace, identity, content);
      } else {
        assert View() == Updated(old(View()), at.value, workspace, content);
      }
    }

    /** One turn of the loop; `goes` is false when an error ends it. */
    method SyncFile(workspace: Workspace, repo: string, item: Item, report: Report) returns (goes: bool, after: Report)
      modifies this, store
      ensures goes ==> SyncedFile(old(View()), report, workspace, repo, item) == Going(View(), after)
      ensures !goes ==> SyncedFile(old(View()), report, workspace, repo, item) == Aborted(nextId, store.points)
    {
      var identity := Identity(repo, item.path);
      match item.fetch {
        case Refused => return true, report.(failed := report.failed + 1);
        case Broken => return false, report;
        case Fetched(content) =>
          var at := Lookup(workspace, identity);
          if at.Some? && LatestChecksum(versions, documents[at.value].id) == Some(Sha256(content)) {
            return true, report.(skipped := report.skipped + 1);
          }
          if !item.embeds {
            return false, report;
          }
          goes := Process(workspace, identity, content, at, item.interrupted);
          after := if goes then Counted(report, at.None?, content) else report;
      }
    }

    /** The loop over the listed paths, ending in a commit or a rollback. */
    method Sync(workspace: Workspace, repo: string, items: seq<Item>) returns (result: Option<Report>)
      modifies this, store
      ensures var progress := Synced(old(View()), workspace, repo, items);
              && View() == Visible(old(View()), progress)
              && result == if progress.Going? then Some(progress.report) else None
    {
      ghost var lib := View();
      var documentsBefore, versionsBefore := documents, versions;
      var report := NOTHING_YET;
      for i := 0 to |items|
        invariant Synced(lib, workspace, repo, items[..i]) == Going(View(), report)
      {
        assert items[..i + 1][..i] == items[..i];
        var goes;
        goes, report := SyncFile(workspace, repo, items[i], report);
        if !goes {
          AbortsEarly(lib, workspace, repo, items, i + 1);
          documents, versions := documentsBefore, versionsBefore;
          return None;
        }
      }
      assert items[..|items|] == items;
      result := Some(report);
    }
  }

  lemma {:induction false} FoundEarly(documents: seq<Document>, workspace: Workspace, identity: string, n: nat)
    requires n <= |documents| && FindLive(documents[..n], workspace, identity).Some?
    ensures FindLive(documents, workspace, identity) == FindLive(documents[..n], workspace, identity)
    decreases |documents| - n
  {
    if n < |documents| {
      assert documents[..n + 1][..n] == documents[..n];
      FoundEarly(documents, workspace, identity, n + 1);
    } else {
      assert documents[..n] == documents;
    }
  }
}
