/** Walking a listing by cursors, and by page numbers. */
module Pages {
  import opened Common
  import opened Cursor

  /** How cursors are made and read. */
  datatype Cursors = Cursors(encode: nat -> string, decode: Option<string> -> Option<nat>)

  const TOOL_CURSORS := Cursors(EncodeCursor, DecodeCursor)

  /** No cursor means the start, and reading a cursor that was made gives back its offset. */
  ghost predicate Inverse(c: Cursors) {
    c.decode(None) == Some(0) && forall n: nat :: c.decode(Some(c.encode(n))) == Some(n)
  }

  lemma {:induction false} ToolCursorsInverse()
    ensures Inverse(TOOL_CURSORS)
  {
    forall n: nat ensures TOOL_CURSORS.decode(Some(TOOL_CURSORS.encode(n))) == Some(n) {
      CursorRoundTrip(n);
    }
  }

  const MAX_TOOL_RESULTS := 100

  datatype Page<T> = Page(items: seq<T>, total: nat, offset: nat, limit: nat, next: Option<string>)

  function Bounded(limit: int): (bounded: nat)
    ensures 1 <= bounded <= MAX_TOOL_RESULTS
  {
    var most := if limit < MAX_TOOL_RESULTS then limit else MAX_TOOL_RESULTS;
    if most < 1 then 1 else most
  }

  /** A limit from 1 to 100 is taken as it is, a smaller one as 1 and a larger one as 100. */
  lemma {:induction false} BoundedExactly(limit: int)
    ensures 1 <= limit <= 100 ==> Bounded(limit) == limit
    ensures limit < 1 ==> Bounded(limit) == 1
    ensures limit > 100 ==> Bounded(limit) == 100
  {
  }

  /** The rows an OFFSET and a LIMIT select. */
  function Slice<T>(listing: seq<T>, offset: nat, limit: nat): seq<T> {
    if offset >= |listing| then []
    else if offset + limit >= |listing| then listing[offset..]
    else listing[offset..offset + limit]
  }

  function ListDocuments<T>(c: Cursors, listing: seq<T>, cursor: Option<string>, limit: int): Option<Page<T>> {
    var offset := c.decode(cursor);
    if offset.None? then None else Some(PageAt(c, listing, offset.value, limit))
  }

  function PageAt<T>(c: Cursors, listing: seq<T>, offset: nat, limit: int): Page<T> {
    var items := Slice(listing, offset, Bounded(limit));
    var next := offset + |items|;
    Page(items, |listing|, offset, Bounded(limit), if next < |listing| then Some(c.encode(next)) else None)
  }

  lemma {:induction false} NextPage<T>(c: Cursors, listing: seq<T>, offset: nat, limit: int)
    requires Inverse(c) && PageAt(c, listing, offset, limit).next.Some?
    ensures ListDocuments(c, listing, PageAt(c, listing, offset, limit).next, limit)
         == Some(PageAt(c, listing, offset + Bounded(limit), limit))
  {
    assert c.decode(Some(c.encode(offset + Bounded(limit)))) == Some(offset + Bounded(limit));
  }

  /** The page-number scheme: how many pages there are, and the rows of one. */
  function PageCount(total: nat, pageSize: nat): nat
    requires pageSize >= 1
  {
    if total == 0 then 0 else (total + pageSize - 1) / pageSize
  }

  function NumberedPage<T>(listing: seq<T>, page: nat, pageSize: nat): seq<T>
    requires page >= 1
  {
    Slice(listing, (page - 1) * pageSize, pageSize)
  }

  /** Following next cursors from the start, over a listing that does not change. */
  ghost predicate IsWalk<T>(c: Cursors, pages: seq<Page<T>>, listing: seq<T>, limit: int) {
    && pages != [] && ListDocuments(c, listing, None, limit) == Some(pages[0])
    && forall i :: 0 <= i < |pages| - 1 ==>
         pages[i].next.Some? && ListDocuments(c, listing, pages[i].next, limit) == Some(pages[i + 1])
  }

  function ItemsOf<T>(pages: seq<Page<T>>): seq<T> {
    if pages == [] then [] else ItemsOf(pages[..|pages| - 1]) + pages[|pages| - 1].items
  }

  function NumberedItems<T>(listing: seq<T>, pages: nat, pageSize: nat): seq<T> {
    if pages == 0 then [] else NumberedItems(listing, pages - 1, pageSize) + NumberedPage(listing, pages, pageSize)
  }

  /** i times the limit, step by step. */
  function PageStart(i: nat, size: nat): nat {
    if i == 0 then 0 else PageStart(i - 1, size) + size
  }

  lemma {:induction false} PageStartIs(i: nat, size: nat)
    ensures PageStart(i, size) == i * size
  {
    if i == 0 {
    } else {
      PageStartIs(i - 1, size);
      assert i * size == (i - 1) * size + size;
    }
  }

  lemma {:induction false} NumberedAt<T>(listing: seq<T>, i: nat, size: nat)
    ensures NumberedPage(listing, i + 1, size) == Slice(listing, PageStart(i, size), size)
  {
    PageStartIs(i, size);
  }

  /** The i-th page of a walk starts at i times the limit. */
  lemma {:induction false} WalkAt<T>(c: Cursors, pages: seq<Page<T>>, listing: seq<T>, limit: int, i: nat)
    requires Inverse(c) && IsWalk(c, pages, listing, limit) && i < |pages|
    ensures pages[i] == PageAt(c, listing, PageStart(i, Bounded(limit)), limit)
    ensures i > 0 ==> PageStart(i, Bounded(limit)) < |listing|
  {
    if i == 0 {
    } else {
      WalkAt(c, pages, listing, limit, i - 1);
      NextPage(c, listing, PageStart(i - 1, Bounded(limit)), limit);
    }
  }

  /** What a page says of itself. */
  lemma {:induction false} PageSays<T>(c: Cursors, pages: seq<Page<T>>, listing: seq<T>, limit: int, i: nat)
    requires Inverse(c) && IsWalk(c, pages, listing, limit) && i < |pages|
    ensures pages[i].total == |listing| && pages[i].limit == Bounded(limit) && pages[i].offset == i * Bounded(limit)
  {
    WalkAt(c, pages, listing, limit, i);
    PageStartIs(i, Bounded(limit));
  }

  lemma {:induction false} ItemsAreNumbered<T>(c: Cursors, pages: seq<Page<T>>, listing: seq<T>, limit: int, n: nat)
    requires Inverse(c) && IsWalk(c, pages, listing, limit) && n <= |pages|
    ensures ItemsOf(pages[..n]) == NumberedItems(listing, n, Bounded(limit))
  {
    if n == 0 {
    } else {
      ItemsAreNumbered(c, pages, listing, limit, n - 1);
      WalkAt(c, pages, listing, limit, n - 1);
      NumberedAt(listing, n - 1, Bounded(limit));
      assert pages[..n][..n - 1] == pages[..n - 1];
    }
  }

  lemma {:induction false} SliceExtends<T>(listing: seq<T>, offset: nat, size: nat)
    ensures (if offset <= |listing| then listing[..offset] else listing) + Slice(listing, offset, size)
         == if offset + size <= |listing| then listing[..offset + size] else listing
  {
  }

  lemma {:induction false} NumberedIsPrefix<T>(listing: seq<T>, n: nat, size: nat)
    requires size >= 1
    ensures NumberedItems(listing, n, size)
            == if PageStart(n, size) <= |listing| then listing[..PageStart(n, size)] else listing
  {
    if n == 0 {
    } else {
      NumberedIsPrefix(listing, n - 1, size);
      NumberedAt(listing, n - 1, size);
      SliceExtends(listing, PageStart(n - 1, size), size);
    }
  }

  lemma {:induction false} CeilingExact(total: nat, size: nat, n: nat)
    requires size >= 1 && n >= 1 && PageStart(n - 1, size) < total <= PageStart(n, size)
    ensures PageCount(total, size) == n
  {
    PageStartIs(n, size);
    QuotientIs(total + size - 1, size, n);
  }

  lemma {:induction false} Difference(x: int, y: int, b: int)
    ensures (x - y) * b == x * b - y * b
  {
  }

  lemma {:induction false} QuotientIs(a: nat, b: nat, n: nat)
    requires b >= 1 && n * b <= a < n * b + b
    ensures a / b == n
  {
    var q := a / b;
    assert a == q * b + a % b;
    Difference(n, q, b);
    Difference(q, n, b);
    AtLeastOnce(if q < n then n - q else q - n, b);
  }

  lemma {:induction false} AtLeastOnce(d: nat, b: nat)
    ensures d == 0 || d * b >= b
  {
    if d > 0 {
      Difference(d, 1, b);
      assert (d - 1) * b >= 0;
    }
  }

  lemma {:induction false} FinishedWalkWith<T>(c: Cursors, pages: seq<Page<T>>, listing: seq<T>, limit: int)
    requires Inverse(c) && IsWalk(c, pages, listing, limit) && pages[|pages| - 1].next == None
    ensures |pages| == if listing == [] then 1 else PageCount(|listing|, Bounded(limit))
    ensures ItemsOf(pages) == listing
    ensures NumberedItems(listing, PageCount(|listing|, Bounded(limit)), Bounded(limit)) == listing
  {
    var n, b := |pages|, Bounded(limit);
    WalkAt(c, pages, listing, limit, n - 1);
    ItemsAreNumbered(c, pages, listing, limit, n);
    assert pages[..n] == pages;
    NumberedIsPrefix(listing, n, b);
    if listing != [] {
      CeilingExact(|listing|, b, n);
    }
  }

  lemma {:induction false} WalkExtends<T>(c: Cursors, pages: seq<Page<T>>, listing: seq<T>, limit: int)
    returns (further: seq<Page<T>>)
    requires Inverse(c) && IsWalk(c, pages, listing, limit) && pages[|pages| - 1].next.Some?
    ensures IsWalk(c, further, listing, limit) && |further| == |pages| + 1 && pages <= further
    ensures PageStart(|pages|, Bounded(limit)) < |listing|
  {
    var n, b := |pages|, Bounded(limit);
    WalkAt(c, pages, listing, limit, n - 1);
    NextPage(c, listing, PageStart(n - 1, b), limit);
    further := pages + [PageAt(c, listing, PageStart(n, b), limit)];
    forall i | 0 <= i < |further| - 1
      ensures further[i].next.Some? && ListDocuments(c, listing, further[i].next, limit) == Some(further[i + 1])
    {
      assert further[i] == pages[i];
      if i < n - 1 {
        assert further[i + 1] == pages[i + 1];
      }
    }
  }

  lemma {:induction false} WalkFinishesWith<T>(c: Cursors, pages: seq<Page<T>>, listing: seq<T>, limit: int)
    returns (all: seq<Page<T>>)
    requires Inverse(c) && IsWalk(c, pages, listing, limit)
    ensures IsWalk(c, all, listing, limit) && all[|all| - 1].next == None && pages <= all
    decreases |listing| - PageStart(|pages|, Bounded(limit))
  {
    if pages[|pages| - 1].next == None {
      all := pages;
    } else {
      var further := WalkExtends(c, pages, listing, limit);
      all := WalkFinishesWith(c, further, listing, limit);
    }
  }

  // ---------- the tool's own cursors ----------

  /** A walk by the tool's cursors that has come to its end took max(1, ceil(total / limit)) calls, and saw the whole
      listing once, in order, just as the numbered pages do. */
  lemma {:induction false} FinishedWalk<T>(pages: seq<Page<T>>, listing: seq<T>, limit: int)
    requires IsWalk(TOOL_CURSORS, pages, listing, limit) && pages[|pages| - 1].next == None
    ensures |pages| == if listing == [] then 1 else PageCount(|listing|, Bounded(limit))
    ensures ItemsOf(pages) == listing
    ensures NumberedItems(listing, PageCount(|listing|, Bounded(limit)), Bounded(limit)) == listing
  {
    ToolCursorsInverse();
    FinishedWalkWith(TOOL_CURSORS, pages, listing, limit);
  }

  /** Following the tool's cursors always comes to an end. */
  lemma {:induction false} WalkFinishes<T>(pages: seq<Page<T>>, listing: seq<T>, limit: int)
    returns (all: seq<Page<T>>)
    requires IsWalk(TOOL_CURSORS, pages, listing, limit)
    ensures IsWalk(TOOL_CURSORS, all, listing, limit) && all[|all| - 1].next == None && pages <= all
  {
    ToolCursorsInverse();
    all := WalkFinishesWith(TOOL_CURSORS, pages, listing, limit);
  }

  /** There is a walk from the start. */
  lemma {:induction false} WalkStarts<T>(listing: seq<T>, limit: int)
    ensures IsWalk(TOOL_CURSORS, [PageAt(TOOL_CURSORS, listing, 0, limit)], listing, limit)
  {
    ToolCursorsInverse();
  }
}
