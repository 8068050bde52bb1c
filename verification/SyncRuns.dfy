/** Whole syncs, repeated syncs, and histories in which some syncs abort. */
module SyncRuns {
  import opened Common
  import opened Vectors
  import opened Sync
  import opened SyncSafety
  import opened RepoTree

  // ---------- one turn of the loop ----------

  /** A turn that goes on either leaves the library alone or processes the fetched file. */
  lemma {:induction false} FileCases(lib: Library, report: Report, workspace: Workspace, repo: string, item: Item)
    ensures match SyncedFile(lib, report, workspace, repo, item)
            case Going(after, _) =>
              after == lib || (item.fetch.Fetched? &&
                after == Processed(lib, workspace, Identity(repo, item.path), item.fetch.content))
            case Aborted(nextId, _) => nextId >= lib.nextId
  {
  }

  lemma {:induction false} FileGood(lib: Library, report: Report, workspace: Workspace, repo: string, item: Item)
    requires Good(lib) && SyncedFile(lib, report, workspace, repo, item).Going?
    ensures Good(SyncedFile(lib, report, workspace, repo, item).lib)
  {
    FileCases(lib, report, workspace, repo, item);
    if item.fetch.Fetched? {
      ProcessedGood(lib, workspace, Identity(repo, item.path), item.fetch.content);
    }
  }

  lemma {:induction false} SameTwice(a: Library, b: Library, c: Library, j: nat)
    requires SameDocument(a, b, j) && SameDocument(b, c, j)
    ensures SameDocument(a, c, j)
  {
    var id := a.documents[j].id;
    forall i: int ensures (PointId(id, i) in a.points <==> PointId(id, i) in c.points)
                          && (PointId(id, i) in a.points ==> a.points[PointId(id, i)] == c.points[PointId(id, i)]) {
      assert PointId(id, i) in a.points <==> PointId(id, i) in b.points;
    }
  }

  lemma {:induction false} FileKeeps(
      lib: Library, report: Report, workspace: Workspace, repo: string, item: Item, j: nat)
    requires Good(lib) && SyncedFile(lib, report, workspace, repo, item).Going?
    requires j < |lib.documents| && !Matches(lib.documents[j], workspace, Identity(repo, item.path))
    ensures SameDocument(lib, SyncedFile(lib, report, workspace, repo, item).lib, j)
  {
    FileCases(lib, report, workspace, repo, item);
    if item.fetch.Fetched? {
      ProcessedKeeps(lib, workspace, Identity(repo, item.path), item.fetch.content, j);
    }
  }

  /** Files other than the one processed are found where they were, or not at all as before. */
  lemma {:induction false} ProcessedFindsOthers(
      lib: Library, workspace: Workspace, identity: string, content: Content, other: string)
    requires Good(lib) && other != identity
    ensures FindLive(Processed(lib, workspace, identity, content).documents, workspace, other)
         == FindLive(lib.documents, workspace, other)
  {
    var after := Processed(lib, workspace, identity, content);
    ProcessedGood(lib, workspace, identity, content);
    FoundIsFirst(lib.documents, workspace, other);
    FoundIsFirst(lib.documents, workspace, identity);
    FoundIsFirst(after.documents, workspace, other);
    var at := FindLive(lib.documents, workspace, other);
    if at.Some? {
      FoundIsUnique(after.documents, at.value);
    }
  }

  lemma {:induction false} FileFindsOthers(
      lib: Library, report: Report, workspace: Workspace, repo: string, item: Item, other: string)
    requires Good(lib) && SyncedFile(lib, report, workspace, repo, item).Going? && other != Identity(repo, item.path)
    ensures FindLive(SyncedFile(lib, report, workspace, repo, item).lib.documents, workspace, other)
         == FindLive(lib.documents, workspace, other)
  {
    FileCases(lib, report, workspace, repo, item);
    if item.fetch.Fetched? {
      ProcessedFindsOthers(lib, workspace, Identity(repo, item.path), item.fetch.content, other);
    }
  }

  // ---------- whole syncs ----------

  lemma {:induction false} SyncedGood(lib: Library, workspace: Workspace, repo: string, items: seq<Item>)
    requires Good(lib)
    ensures Good(Visible(lib, Synced(lib, workspace, repo, items)))
    ensures Visible(lib, Synced(lib, workspace, repo, items)).nextId >= lib.nextId
  {
    if items == [] {
    } else {
      SyncedGood(lib, workspace, repo, items[..|items| - 1]);
      var before := Synced(lib, workspace, repo, items[..|items| - 1]);
      if before.Going? {
        var item := items[|items| - 1];
        FileCases(before.lib, before.report, workspace, repo, item);
        if SyncedFile(before.lib, before.report, workspace, repo, item).Going? {
          FileGood(before.lib, before.report, workspace, repo, item);
        }
      }
    }
  }

  /** Every listed path is counted once, and every created document is a new row. */
  lemma {:induction false} Counters(lib: Library, workspace: Workspace, repo: string, items: seq<Item>)
    requires Synced(lib, workspace, repo, items).Going?
    ensures var r := Synced(lib, workspace, repo, items).report;
            && r.processed + r.skipped + r.failed == |items| && r.created <= r.processed
            && |Synced(lib, workspace, repo, items).lib.documents| == |lib.documents| + r.created
  {
    if items == [] {
    } else {
      Counters(lib, workspace, repo, items[..|items| - 1]);
    }
  }

  /** A document that stands for none of the listed files keeps its row, versions and points. */
  lemma {:induction false} SyncedKeeps(lib: Library, workspace: Workspace, repo: string, items: seq<Item>, j: nat)
    requires Good(lib) && Synced(lib, workspace, repo, items).Going? && j < |lib.documents|
    requires forall i :: 0 <= i < |items| ==> !Matches(lib.documents[j], workspace, Identity(repo, items[i].path))
    ensures SameDocument(lib, Synced(lib, workspace, repo, items).lib, j)
  {
    if items == [] {
    } else {
      var before := Synced(lib, workspace, repo, items[..|items| - 1]);
      SyncedKeeps(lib, workspace, repo, items[..|items| - 1], j);
      SyncedGood(lib, workspace, repo, items[..|items| - 1]);
      FileKeeps(before.lib, before.report, workspace, repo, items[|items| - 1], j);
      SameTwice(lib, before.lib, Synced(lib, workspace, repo, items).lib, j);
    }
  }

  lemma {:induction false} SyncedFindsOthers(
      lib: Library, workspace: Workspace, repo: string, items: seq<Item>, other: string)
    requires Good(lib) && Synced(lib, workspace, repo, items).Going?
    requires forall i :: 0 <= i < |items| ==> other != Identity(repo, items[i].path)
    ensures FindLive(Synced(lib, workspace, repo, items).lib.documents, workspace, other)
            == FindLive(lib.documents, workspace, other)
  {
    if items == [] {
    } else {
      var before := Synced(lib, workspace, repo, items[..|items| - 1]);
      SyncedFindsOthers(lib, workspace, repo, items[..|items| - 1], other);
      SyncedGood(lib, workspace, repo, items[..|items| - 1]);
      FileFindsOthers(before.lib, before.report, workspace, repo, items[|items| - 1], other);
    }
  }

  // ---------- what a committed sync promises for each path ----------

  predicate Distinct(items: seq<Item>) {
    forall i, j :: 0 <= i < j < |items| ==> items[i].path != items[j].path
  }

  /** The paths a sync lists are distinct. */
  lemma {:induction false} ListedIsDistinct(items: seq<Item>, paths: seq<string>)
    requires Ordered(paths) && |items| == |paths| && forall i :: 0 <= i < |items| ==> items[i].path == paths[i]
    ensures Distinct(items)
  {
    OrderedIsDistinct(paths);
  }

  /** The form owner/name: one slash. */
  predicate IsRepo(repo: string) {
    exists k :: 0 <= k < |repo| && repo[k] == '/' && '/' !in repo[..k] && '/' !in repo[k + 1..]
  }

  lemma {:induction false} RepoParts(repo: string) returns (owner: string, name: string)
    requires IsRepo(repo)
    ensures repo == owner + ['/'] + name && '/' !in owner && '/' !in name
  {
    var k :| 0 <= k < |repo| && repo[k] == '/' && '/' !in repo[..k] && '/' !in repo[k + 1..];
    owner, name := repo[..k], repo[k + 1..];
  }

  lemma {:induction false} IdentityParts(owner: string, name: string, path: string)
    ensures Identity(owner + ['/'] + name, path)[|"github://"|..] == owner + ['/'] + (name + ['/'] + path)
  {
  }

  /** Identities tell repositories and paths apart. */
  lemma {:induction false} IdentitiesExactly(r: string, p: string, s: string, q: string)
    requires IsRepo(r) && IsRepo(s)
    ensures Identity(r, p) == Identity(s, q) <==> r == s && p == q
  {
    if Identity(r, p) == Identity(s, q) {
      var a, m := RepoParts(r);
      var b, n := RepoParts(s);
      IdentityParts(a, m, p);
      IdentityParts(b, n, q);
      CutOnce(a, m + ['/'] + p, b, n + ['/'] + q, '/');
      CutOnce(m, p, n, q, '/');
    }
  }

  lemma {:induction false} IdentityInjective(repo: string, p: string, q: string)
    requires Identity(repo, p) == Identity(repo, q)
    ensures p == q
  {
    var n := |Identity(repo, p)| - |p|;
    assert |Identity(repo, p)| - |p| == |Identity(repo, q)| - |q|;
    assert Identity(repo, p)[n..] == p && Identity(repo, q)[n..] == q;
  }

  lemma {:induction false} OtherIdentities(repo: string, items: seq<Item>, path: string)
    requires forall i :: 0 <= i < |items| ==> items[i].path != path
    ensures forall i :: 0 <= i < |items| ==> Identity(repo, path) != Identity(repo, items[i].path)
  {
    forall i | 0 <= i < |items| ensures Identity(repo, path) != Identity(repo, items[i].path) {
      if Identity(repo, path) == Identity(repo, items[i].path) {
        IdentityInjective(repo, path, items[i].path);
      }
    }
  }

  /** The file is found in both at the same place, with the same row, versions and points. */
  ghost predicate SameFile(a: Library, b: Library, workspace: Workspace, identity: string) {
    && FindLive(a.documents, workspace, identity) == FindLive(b.documents, workspace, identity)
    && (FindLive(a.documents, workspace, identity).Some? ==>
          SameDocument(a, b, FindLive(a.documents, workspace, identity).value))
  }

  lemma {:induction false} SameFileCurrent(a: Library, b: Library, workspace: Workspace, identity: string)
    requires SameFile(a, b, workspace, identity)
    ensures Current(a, workspace, identity) == Current(b, workspace, identity)
  {
    FoundIsFirst(a.documents, workspace, identity);
  }

  lemma {:induction false} SyncedSameFile(
      lib: Library, workspace: Workspace, repo: string, items: seq<Item>, path: string)
    requires Good(lib) && Synced(lib, workspace, repo, items).Going?
    requires forall i :: 0 <= i < |items| ==> items[i].path != path
    ensures SameFile(lib, Synced(lib, workspace, repo, items).lib, workspace, Identity(repo, path))
  {
    OtherIdentities(repo, items, path);
    FoundIsFirst(lib.documents, workspace, Identity(repo, path));
    SyncedFindsOthers(lib, workspace, repo, items, Identity(repo, path));
    var at := FindLive(lib.documents, workspace, Identity(repo, path));
    if at.Some? {
      SyncedKeeps(lib, workspace, repo, items, at.value);
    }
  }

  lemma {:induction false} FileSameFile(
      lib: Library, report: Report, workspace: Workspace, repo: string, item: Item, path: string)
    requires Good(lib) && SyncedFile(lib, report, workspace, repo, item).Going? && path != item.path
    ensures SameFile(lib, SyncedFile(lib, report, workspace, repo, item).lib, workspace, Identity(repo, path))
  {
    OtherIdentities(repo, [item], path);
    assert [item][0] == item;
    FoundIsFirst(lib.documents, workspace, Identity(repo, path));
    FileFindsOthers(lib, report, workspace, repo, item, Identity(repo, path));
    var at := FindLive(lib.documents, workspace, Identity(repo, path));
    if at.Some? {
      FileKeeps(lib, report, workspace, repo, item, at.value);
    }
  }

  /** After its own turn a fetched file is current. */
  lemma {:induction false} FileCurrent(lib: Library, report: Report, workspace: Workspace, repo: string, item: Item)
    requires Good(lib) && item.fetch.Fetched? && SyncedFile(lib, report, workspace, repo, item).Going?
    ensures Current(SyncedFile(lib, report, workspace, repo, item).lib, workspace, Identity(repo, item.path))
         == Some(Sha256(item.fetch.content))
  {
    var identity := Identity(repo, item.path);
    if Current(lib, workspace, identity) != Some(Sha256(item.fetch.content)) {
      var after := Processed(lib, workspace, identity, item.fetch.content);
      ProcessedGood(lib, workspace, identity, item.fetch.content);
      ProcessedTarget(lib, workspace, identity, item.fetch.content);
      FoundIsUnique(after.documents, Target(lib, workspace, identity));
    }
  }

  lemma {:induction false} FetchedIsCurrent(lib: Library, workspace: Workspace, repo: string, items: seq<Item>, i: nat)
    requires Good(lib) && Distinct(items) && Synced(lib, workspace, repo, items).Going?
    requires i < |items| && items[i].fetch.Fetched?
    ensures Current(Synced(lib, workspace, repo, items).lib, workspace, Identity(repo, items[i].path))
         == Some(Sha256(items[i].fetch.content))
  {
    var earlier, last := items[..|items| - 1], items[|items| - 1];
    var before := Synced(lib, workspace, repo, earlier);
    SyncedGood(lib, workspace, repo, earlier);
    if i == |items| - 1 {
      FileCurrent(before.lib, before.report, workspace, repo, last);
    } else {
      FetchedIsCurrent(lib, workspace, repo, earlier, i);
      FileSameFile(before.lib, before.report, workspace, repo, last, items[i].path);
      SameFileCurrent(before.lib, Synced(lib, workspace, repo, items).lib, workspace, Identity(repo, items[i].path));
    }
  }

  /** The live documents that stand for a file. */
  function Standing(lib: Library, workspace: Workspace, identity: string): set<int> {
    set k | 0 <= k < |lib.documents| && !lib.documents[k].deleted
            && lib.documents[k].workspace == workspace && lib.documents[k].identity == identity
  }

  /** After a committed sync every fetched path has exactly one live document, and its highest version, which is its
      last, carries the fetched checksum. */
  lemma {:induction false} FetchedHasOneDocument(
      lib: Library, workspace: Workspace, repo: string, items: seq<Item>, i: nat)
    returns (k: nat)
    requires Good(lib) && Distinct(items) && Synced(lib, workspace, repo, items).Going?
    requires i < |items| && items[i].fetch.Fetched?
    ensures var after := Synced(lib, workspace, repo, items).lib;
            && k < |after.documents| && Standing(after, workspace, Identity(repo, items[i].path)) == {k}
            && var versions := VersionsOf(after.versions, after.documents[k].id);
               Dense(versions) && versions[|versions| - 1].checksum == Sha256(items[i].fetch.content)
  {
    var after := Synced(lib, workspace, repo, items).lib;
    var identity := Identity(repo, items[i].path);
    SyncedGood(lib, workspace, repo, items);
    FetchedIsCurrent(lib, workspace, repo, items, i);
    FoundIsFirst(after.documents, workspace, identity);
    k := FindLive(after.documents, workspace, identity).value;
    HighestOfDense(VersionsOf(after.versions, after.documents[k].id));
    forall j | j in Standing(after, workspace, identity) ensures j == k {
      FoundIsUnique(after.documents, j);
    }
  }

  // ---------- what a report says ----------

  /** What one path adds to the report, judged by the library as it was before the sync. */
  function Share(lib: Library, workspace: Workspace, repo: string, item: Item): Report {
    var identity := Identity(repo, item.path);
    match item.fetch
    case Refused => NOTHING_YET.(failed := 1)
    case Broken => NOTHING_YET
    case Fetched(content) =>
      if Current(lib, workspace, identity) == Some(Sha256(content)) then NOTHING_YET.(skipped := 1)
      else Report(1, if FindLive(lib.documents, workspace, identity).None? then 1 else 0, 0, 0, |content.chunks|)
  }

  function Plus(a: Report, b: Report): Report {
    Report(a.processed + b.processed, a.created + b.created, a.skipped + b.skipped, a.failed + b.failed,
      a.chunks + b.chunks)
  }

  function Shares(lib: Library, workspace: Workspace, repo: string, items: seq<Item>): Report {
    if items == [] then NOTHING_YET
    else Plus(Shares(lib, workspace, repo, items[..|items| - 1]), Share(lib, workspace, repo, items[|items| - 1]))
  }

  lemma {:induction false} FileAddsShare(lib: Library, report: Report, workspace: Workspace, repo: string, item: Item)
    requires SyncedFile(lib, report, workspace, repo, item).Going?
    ensures SyncedFile(lib, report, workspace, repo, item).report == Plus(report, Share(lib, workspace, repo, item))
  {
    FoundIsFirst(lib.documents, workspace, Identity(repo, item.path));
  }

  /** A committed sync reports, path by path, how the file stood before it: refused, unchanged, changed or new. */
  lemma {:induction false} ReportIsShares(lib: Library, workspace: Workspace, repo: string, items: seq<Item>)
    requires Good(lib) && Distinct(items) && Synced(lib, workspace, repo, items).Going?
    ensures Synced(lib, workspace, repo, items).report == Shares(lib, workspace, repo, items)
  {
    if items == [] {
    } else {
      var earlier, last := items[..|items| - 1], items[|items| - 1];
      var before := Synced(lib, workspace, repo, earlier);
      ReportIsShares(lib, workspace, repo, earlier);
      SyncedSameFile(lib, workspace, repo, earlier, last.path);
      SameFileCurrent(lib, before.lib, workspace, Identity(repo, last.path));
      FileAddsShare(before.lib, before.report, workspace, repo, last);
    }
  }

  // ---------- repeating a sync ----------

  predicate UpToDate(lib: Library, workspace: Workspace, repo: string, item: Item) {
    match item.fetch
    case Refused => true
    case Broken => false
    case Fetched(content) => Current(lib, workspace, Identity(repo, item.path)) == Some(Sha256(content))
  }

  lemma {:induction false} NothingToDo(lib: Library, workspace: Workspace, repo: string, items: seq<Item>)
    requires forall i :: 0 <= i < |items| ==> UpToDate(lib, workspace, repo, items[i])
    ensures var progress := Synced(lib, workspace, repo, items);
            && progress.Going? && progress.lib == lib
            && progress.report.processed == 0 && progress.report.created == 0 && progress.report.chunks == 0
  {
    if items == [] {
    } else {
      NothingToDo(lib, workspace, repo, items[..|items| - 1]);
      assert UpToDate(lib, workspace, repo, items[|items| - 1]);
    }
  }

  /** A second sync of a remote that answers as before changes nothing, whatever the vector store and the embedding
      model are doing by then. */
  lemma {:induction false} RepeatChangesNothing(
      lib: Library, workspace: Workspace, repo: string, items: seq<Item>, again: seq<Item>)
    requires Good(lib) && Distinct(items) && Synced(lib, workspace, repo, items).Going?
    requires |again| == |items|
    requires forall i :: 0 <= i < |items| ==> again[i].path == items[i].path && again[i].fetch == items[i].fetch
    ensures var after := Synced(lib, workspace, repo, items).lib;
            var progress := Synced(after, workspace, repo, again);
            && progress.Going? && progress.lib == after
            && progress.report.processed == 0 && progress.report.created == 0
            && progress.report.skipped + progress.report.failed == |items|
  {
    var after := Synced(lib, workspace, repo, items).lib;
    forall i | 0 <= i < |again| ensures UpToDate(after, workspace, repo, again[i]) {
      NeverBroken(lib, workspace, repo, items, i);
      if items[i].fetch.Fetched? {
        FetchedIsCurrent(lib, workspace, repo, items, i);
      }
    }
    NothingToDo(after, workspace, repo, again);
    Counters(after, workspace, repo, again);
  }

  lemma {:induction false} NeverBroken(lib: Library, workspace: Workspace, repo: string, items: seq<Item>, i: nat)
    requires Synced(lib, workspace, repo, items).Going? && i < |items|
    ensures !items[i].fetch.Broken?
  {
    if i < |items| - 1 {
      NeverBroken(lib, workspace, repo, items[..|items| - 1], i);
    }
  }

  // ---------- agreement with the vector store ----------

  ghost predicate AllAgree(lib: Library) {
    forall j: nat :: j < |lib.documents| && !lib.documents[j].deleted ==> Agrees(lib, j)
  }

  lemma {:induction false} ProcessedAllAgree(lib: Library, workspace: Workspace, identity: string, content: Content)
    requires Good(lib) && AllAgree(lib)
    ensures AllAgree(Processed(lib, workspace, identity, content))
  {
    var after := Processed(lib, workspace, identity, content);
    ProcessedTarget(lib, workspace, identity, content);
    FoundIsFirst(lib.documents, workspace, identity);
    forall j: nat | j < |after.documents| && !after.documents[j].deleted ensures Agrees(after, j) {
      if j == Target(lib, workspace, identity) {
        ProcessedAgrees(lib, workspace, identity, content);
      } else {
        if Matches(lib.documents[j], workspace, identity) {
          FoundIsUnique(lib.documents, j);
        }
        ProcessedKeeps(lib, workspace, identity, content, j);
        SameAgrees(lib, after, j);
      }
    }
  }

  lemma {:induction false} CommittedAllAgree(lib: Library, workspace: Workspace, repo: string, items: seq<Item>)
    requires Good(lib) && AllAgree(lib) && Synced(lib, workspace, repo, items).Going?
    ensures AllAgree(Synced(lib, workspace, repo, items).lib)
  {
    if items == [] {
    } else {
      var before := Synced(lib, workspace, repo, items[..|items| - 1]);
      var last := items[|items| - 1];
      CommittedAllAgree(lib, workspace, repo, items[..|items| - 1]);
      SyncedGood(lib, workspace, repo, items[..|items| - 1]);
      FileCases(before.lib, before.report, workspace, repo, last);
      if last.fetch.Fetched? {
        ProcessedAllAgree(before.lib, workspace, Identity(repo, last.path), last.fetch.content);
      }
    }
  }

  /** The file's live document agrees with the vector store. */
  ghost predicate FileAgrees(lib: Library, workspace: Workspace, identity: string) {
    var at := Found(lib, workspace, identity);
    at.Some? && Agrees(lib, at.value)
  }

  lemma {:induction false} SameFileAgrees(a: Library, b: Library, workspace: Workspace, identity: string)
    requires SameFile(a, b, workspace, identity)
    ensures FileAgrees(a, workspace, identity) <==> FileAgrees(b, workspace, identity)
  {
    FoundIsFirst(a.documents, workspace, identity);
    var at := FindLive(a.documents, workspace, identity);
    if at.Some? {
      SameAgrees(a, b, at.value);
    }
  }

  lemma {:induction false} ProcessedFileAgrees(lib: Library, workspace: Workspace, identity: string, content: Content)
    requires Good(lib)
    ensures FileAgrees(Processed(lib, workspace, identity, content), workspace, identity)
  {
    var after := Processed(lib, workspace, identity, content);
    ProcessedGood(lib, workspace, identity, content);
    ProcessedTarget(lib, workspace, identity, content);
    ProcessedAgrees(lib, workspace, identity, content);
    FoundIsUnique(after.documents, Target(lib, workspace, identity));
  }

  /** The turn of a fetched file: it agrees afterwards exactly if it was not up to date, or agreed already. */
  lemma {:induction false} FileTurnAgrees(lib: Library, report: Report, workspace: Workspace, repo: string, item: Item)
    requires Good(lib) && item.fetch.Fetched? && SyncedFile(lib, report, workspace, repo, item).Going?
    ensures var identity := Identity(repo, item.path);
            FileAgrees(SyncedFile(lib, report, workspace, repo, item).lib, workspace, identity) <==>
            (Current(lib, workspace, identity) != Some(Sha256(item.fetch.content)) ||
             FileAgrees(lib, workspace, identity))
  {
    if Current(lib, workspace, Identity(repo, item.path)) != Some(Sha256(item.fetch.content)) {
      ProcessedFileAgrees(lib, workspace, Identity(repo, item.path), item.fetch.content);
    }
  }

  /** After any history, aborted syncs included, a committed sync leaves a fetched path in agreement if and only if the
      sync found it changed, or it agreed before. */
  lemma {:induction false} FetchedAgreesExactly(
      lib: Library, workspace: Workspace, repo: string, items: seq<Item>, i: nat)
    requires Good(lib) && Distinct(items) && Synced(lib, workspace, repo, items).Going?
    requires i < |items| && items[i].fetch.Fetched?
    ensures var identity := Identity(repo, items[i].path);
            FileAgrees(Synced(lib, workspace, repo, items).lib, workspace, identity) <==>
            (Current(lib, workspace, identity) != Some(Sha256(items[i].fetch.content)) ||
             FileAgrees(lib, workspace, identity))
  {
    var earlier, last := items[..|items| - 1], items[|items| - 1];
    var identity := Identity(repo, items[i].path);
    var before := Synced(lib, workspace, repo, earlier);
    SyncedGood(lib, workspace, repo, earlier);
    if i == |items| - 1 {
      SyncedSameFile(lib, workspace, repo, earlier, last.path);
      SameFileCurrent(lib, before.lib, workspace, identity);
      SameFileAgrees(lib, before.lib, workspace, identity);
      FileTurnAgrees(before.lib, before.report, workspace, repo, last);
    } else {
      FetchedAgreesExactly(lib, workspace, repo, earlier, i);
      FileSameFile(before.lib, before.report, workspace, repo, last, items[i].path);
      SameFileAgrees(before.lib, Synced(lib, workspace, repo, items).lib, workspace, identity);
    }
  }

  lemma {:induction false} OneFile(lib: Library, workspace: Workspace, repo: string, item: Item)
    ensures Synced(lib, workspace, repo, [item]) == SyncedFile(lib, NOTHING_YET, workspace, repo, item)
  {
    var none := [item][..|[item]| - 1];
    assert none == [];
    assert Synced(lib, workspace, repo, none) == Going(lib, NOTHING_YET);
  }

  /** How a path comes to disagree: a sync of changed content is interrupted after its first point is written, the
      change is undone at the remote, and the next sync skips the file. */
  lemma {:induction false} AbortThenRevert(
      lib: Library, workspace: Workspace, repo: string, path: string, kept: Content, tried: Content, written: nat)
    requires Good(lib) && Current(lib, workspace, Identity(repo, path)) == Some(Sha256(kept))
    requires kept.chunks != [] && tried.chunks != [] && kept.chunks[0] != tried.chunks[0] && written > 0
    ensures var interrupted := Item(path, Fetched(tried), true, Some(written));
            var aborted := Visible(lib, Synced(lib, workspace, repo, [interrupted]));
            && aborted.documents == lib.documents && aborted.versions == lib.versions
            && Synced(aborted, workspace, repo, [Item(path, Fetched(kept), true, None)])
               == Going(aborted, NOTHING_YET.(skipped := 1))
            && !FileAgrees(aborted, workspace, Identity(repo, path))
  {
    var identity := Identity(repo, path);
    var first, second := Item(path, Fetched(tried), true, Some(written)), Item(path, Fetched(kept), true, None);
    OneFile(lib, workspace, repo, first);
    var aborted := Visible(lib, Synced(lib, workspace, repo, [first]));
    OneFile(aborted, workspace, repo, second);
    var d := lib.documents[Found(lib, workspace, identity).value];
    FoundIsFirst(lib.documents, workspace, identity);
    var n := Written(PointsOf(d.id, tried, workspace), Some(written));
    UpsertedLookup(lib.points, n, d.id, tried.chunks, tried.vectors, Some(workspace.organization), Some(workspace),
      PointId(d.id, 0));
    assert !PointHolds(aborted.points, d, kept, 0);
  }

  // ---------- histories ----------

  datatype Event = Run(workspace: Workspace, repo: string, items: seq<Item>) | Delete(k: nat)

  function Happened(lib: Library, e: Event): Library {
    match e
    case Run(workspace, repo, items) => Visible(lib, Synced(lib, workspace, repo, items))
    case Delete(k) =>
      if k < |lib.documents| then lib.(documents := lib.documents[k := lib.documents[k].(deleted := true)]) else lib
  }

  function After(events: seq<Event>): Library {
    if events == [] then Library([], map[], 0, map[])
    else Happened(After(events[..|events| - 1]), events[|events| - 1])
  }

  /** Every sync of the history committed. */
  predicate AllCommitted(events: seq<Event>) {
    events == [] ||
    var before, last := events[..|events| - 1], events[|events| - 1];
    AllCommitted(before) && (last.Run? ==> Synced(After(before), last.workspace, last.repo, last.items).Going?)
  }

  lemma {:induction false} DeleteGood(lib: Library, k: nat)
    requires Good(lib)
    ensures Good(Happened(lib, Delete(k)))
    ensures AllAgree(lib) ==> AllAgree(Happened(lib, Delete(k)))
  {
    var after := Happened(lib, Delete(k));
    if AllAgree(lib) {
      forall j: nat | j < |after.documents| && !after.documents[j].deleted ensures Agrees(after, j) {
        SameAgrees(lib, after, j);
      }
    }
  }

  /** In any history, of committed and aborted syncs and deletions, version numbers stay dense and no file has two live
      documents; while every sync commits, every live document agrees with the vector store. */
  lemma {:induction false} HistoryGood(events: seq<Event>)
    ensures Good(After(events))
    ensures AllCommitted(events) ==> AllAgree(After(events))
  {
    if events == [] {
    } else {
      var before, last := events[..|events| - 1], events[|events| - 1];
      HistoryGood(before);
      match last {
        case Run(workspace, repo, items) =>
          SyncedGood(After(before), workspace, repo, items);
          if AllCommitted(events) {
            CommittedAllAgree(After(before), workspace, repo, items);
          }
        case Delete(k) => DeleteGood(After(before), k);
      }
    }
  }
}
