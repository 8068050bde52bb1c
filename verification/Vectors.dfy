/** The vector store: deterministic point ids, upserts, tenant payloads. */
module Vectors {
  import opened Common

  datatype DocId = DocId(n: nat)
  datatype Organization = Organization(id: nat)
  datatype Workspace = Workspace(id: string, organization: Organization)
  type Vector = seq<real>

  /** uuid5 of the document's id and the chunk's index, which is injective in both. */
  datatype PointId = PointId(document: DocId, index: int)
  datatype Payload = Payload(document: DocId, index: nat, text: string,
                             organization: Option<Organization>, workspace: Option<Workspace>)
  datatype Point = Point(id: PointId, vector: Vector, payload: Payload)
  type Store = map<PointId, Point>

  function ChunkPoint(document: DocId, i: nat, text: string, vector: Vector,
                      organization: Option<Organization>, workspace: Option<Workspace>): Point {
    Point(PointId(document, i), vector, Payload(document, i, text, organization, workspace))
  }

  /** How many points zipping the chunks with their vectors yields. */
  function Zipped(chunks: seq<string>, vectors: seq<Vector>): nat {
    if |chunks| <= |vectors| then |chunks| else |vectors|
  }

  /** The first `n` points of the list, written in order. */
  function Upserted(store: Store, points: seq<Point>, n: nat): Store
    requires n <= |points|
  {
    if n == 0 then store else Upserted(store, points, n - 1)[points[n - 1].id := points[n - 1]]
  }

  /** The points of one document's chunks, in order. */
  function Batch(document: DocId, chunks: seq<string>, vectors: seq<Vector>,
                 organization: Option<Organization>, workspace: Option<Workspace>): seq<Point>
  {
    seq(Zipped(chunks, vectors), i requires 0 <= i < Zipped(chunks, vectors) =>
      ChunkPoint(document, i, chunks[i], vectors[i], organization, workspace))
  }

  /** Writing them puts each chunk and its vector under its own id and touches nothing else: no other document, and no
      chunk of this document past the ones written. */
  lemma {:induction false} UpsertedLookup(
      store: Store, n: nat, document: DocId, chunks: seq<string>, vectors: seq<Vector>,
      organization: Option<Organization>, workspace: Option<Workspace>, id: PointId)
    requires n <= Zipped(chunks, vectors)
    ensures var after := Upserted(store, Batch(document, chunks, vectors, organization, workspace), n);
            if id.document == document && 0 <= id.index < n then
              && id in after && after[id].id == id && after[id].vector == vectors[id.index]
              && after[id].payload == Payload(document, id.index, chunks[id.index], organization, workspace)
            else
              (id in after <==> id in store) && (id in store ==> after[id] == store[id])
  {
    if n == 0 {
    } else {
      UpsertedLookup(store, n - 1, document, chunks, vectors, organization, workspace, id);
    }
  }

  /** An upsert may be cut short by a failure after some of its points were written. */
  class VectorStore {
    var points: Store

    constructor ()
      ensures points == map[]
    {
      points := map[];
    }

    method Upsert(batch: seq<Point>, written: nat)
      requires written <= |batch|
      modifies this
      ensures points == Upserted(old(points), batch, written)
    {
      for n := 0 to written
        invariant points == Upserted(old(points), batch, n)
      {
        points := points[batch[n].id := batch[n]];
      }
    }

    /** Builds the whole list first, then upserts it. `interrupted` says after how many points the write failed, if
        it did. */
    method IndexChunks(document: DocId, chunks: seq<string>, vectors: seq<Vector>,
                       organization: Option<Organization>, workspace: Option<Workspace>, interrupted: Option<nat>)
      returns (count: Option<nat>)
      modifies this
      ensures count == if interrupted.None? then Some(Zipped(chunks, vectors)) else None
      ensures var batch := Batch(document, chunks, vectors, organization, workspace);
              points == Upserted(old(points), batch, Written(batch, interrupted))
    {
      var list: seq<Point> := [];
      for i := 0 to Zipped(chunks, vectors)
        invariant |list| == i
        invariant forall j :: 0 <= j < i ==>
            list[j] == ChunkPoint(document, j, chunks[j], vectors[j], organization, workspace)
      {
        list := list + [ChunkPoint(document, i, chunks[i], vectors[i], organization, workspace)];
      }
      assert list == Batch(document, chunks, vectors, organization, workspace);
      Upsert(list, Written(list, interrupted));
      count := if interrupted.None? then Some(|list|) else None;
    }
  }

  function Written(batch: seq<Point>, interrupted: Option<nat>): (n: nat)
    ensures n <= |batch|
  {
    if interrupted.None? || interrupted.value > |batch| then |batch| else interrupted.value
  }
}
