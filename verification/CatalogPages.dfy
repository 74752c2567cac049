/** Reading a whole collection from the administration API, at most 100 pages of it. */
module CatalogPages {
  import opened Prelude
  import opened PagedServer

  /** `nextCursor`: nothing follows, a text, or anything else. */
  datatype Next = End | Goes(cursor: string) | Strange

  /** The answer to one GET. */
  datatype Response<+T> = Failed(status: nat) | NoItems | Answer(items: seq<T>, next: Next)

  const MAX_PAGES := 100

  /** Why a collection could not be read. */
  datatype Failure = HTTP(status: nat) | RESPONSE_INVALID | CURSOR_INVALID | PAGINATION_LIMIT

  /** The answers in the order in which they came. */
  datatype Trail<+T> = Start | Then(earlier: Trail<T>, items: seq<T>, next: Next)

  function Concatenated<T>(trail: Trail<T>): seq<T> {
    if trail.Start? then [] else Concatenated(trail.earlier) + trail.items
  }

  function Answers<T>(trail: Trail<T>): nat {
    if trail.Start? then 0 else Answers(trail.earlier) + 1
  }

  /** The cursor that the next page is asked for with. */
  function CursorAfter<T>(trail: Trail<T>): Option<string> {
    if trail.Then? && trail.next.Goes? then Some(trail.next.cursor) else None
  }

  predicate GoesOn<T>(trail: Trail<T>) {
    trail.Then? ==> trail.next.Goes? && trail.next.cursor != ""
  }

  /** Each answer is to the cursor of the one before. */
  predicate Followed<T(==)>(get: Option<string> -> Response<T>, trail: Trail<T>) {
    trail.Then? ==>
      && Followed(get, trail.earlier) && GoesOn(trail.earlier)
      && get(CursorAfter(trail.earlier)) == Answer(trail.items, trail.next)
  }

  /** The server hands out these pages, and no cursor is empty. */
  ghost predicate Hands<T(!new)>(get: Option<string> -> Response<T>, p: Pages<T>) {
    && "" !in Cursors(p)
    && forall cursor | Serve(p, cursor).Some? ::
         var page := Serve(p, cursor).value;
         get(cursor) == Answer(page.items, if page.Last? then End else Goes(page.cursor))
  }

  /** What is still to come is at this cursor, and with it the collection is whole. */
  ghost predicate Ahead<T(!new)>(p: Pages<T>, cursor: Option<string>, items: seq<T>, read: nat) {
    && Serve(p, cursor).Some?
    && items + Flatten(Serve(p, cursor).value) == Flatten(p)
    && read + Length(Serve(p, cursor).value) == Length(p)
  }

  lemma NextAhead<T(!new)>(p: Pages<T>, cursor: Option<string>, items: seq<T>, read: nat)
    requires Honest(p) && Ahead(p, cursor, items, read) && Serve(p, cursor).value.More?
    ensures var page := Serve(p, cursor).value; Ahead(p, Some(page.cursor), items + page.items, read + 1)
    ensures Serve(p, cursor).value.cursor in Cursors(p)
  {
    var page := Serve(p, cursor).value;
    if cursor.Some? {
      LookupNext(p, cursor.value);
      LookupInCursors(p, page.cursor);
    }
    assert items + (page.items + Flatten(page.rest)) == items + page.items + Flatten(page.rest);
  }

  /** `readPage`; `p` stands for whatever pages the server may hand out. */
  method ReadPages<T(!new,==)>(get: Option<string> -> Response<T>, ghost p: Pages<T>)
    returns (r: Option<seq<T>>, failure: Option<Failure>, ghost trail: Trail<T>)
    ensures r.Some? <==> failure.None?
    ensures r.Some? ==> Followed(get, trail) && trail.Then? && trail.next.End? && Answers(trail) <= 100
    ensures r.Some? ==> r.value == Concatenated(trail)
    ensures failure == Some(PAGINATION_LIMIT) ==> Followed(get, trail) && GoesOn(trail) && Answers(trail) == 100
    ensures Honest(p) && Hands(get, p) ==>
              if Length(p) <= MAX_PAGES then r == Some(Flatten(p)) else failure == Some(PAGINATION_LIMIT)
  {
    var items: seq<T> := [];
    var cursor: Option<string> := None;
    trail := Start;
    ghost var honest := Honest(p) && Hands(get, p);
    for page := 0 to MAX_PAGES
      invariant Followed(get, trail) && GoesOn(trail) && Answers(trail) == page
      invariant items == Concatenated(trail) && cursor == CursorAfter(trail)
      invariant honest ==> Ahead(p, cursor, items, page)
    {
      var response := get(cursor);
      if response.Failed? {
        return None, Some(HTTP(response.status)), trail;
      }
      if response.NoItems? {
        return None, Some(RESPONSE_INVALID), trail;
      }
      if honest && Serve(p, cursor).value.More? {
        NextAhead(p, cursor, items, page);
      }
      items := items + response.items;
      trail := Then(trail, response.items, response.next);
      if response.next.End? {
        return Some(items), None, trail;
      }
      if response.next.Strange? || response.next.cursor == "" {
        return None, Some(CURSOR_INVALID), trail;
      }
      cursor := Some(response.next.cursor);
    }
    return None, Some(PAGINATION_LIMIT), trail;
  }

  /** The items are the whole of a collection, read page by page to its end. */
  ghost predicate ReadWhole<T(!new)>(get: Option<string> -> Response<T>, items: seq<T>) {
    exists trail :: Followed(get, trail) && trail.Then? && trail.next.End? && Concatenated(trail) == items
  }

  /** The server hands out the whole collection in pages that may be followed to the end. */
  ghost predicate Serves<T(!new)>(get: Option<string> -> Response<T>, items: seq<T>) {
    exists p :: Honest(p) && Hands(get, p) && Length(p) <= MAX_PAGES && Flatten(p) == items
  }

  /** What comes of asking for a collection: the whole of it, or nothing, but not while it is served. */
  ghost predicate Got<T(!new)>(get: Option<string> -> Response<T>, part: Option<seq<T>>) {
    if part.Some? then ReadWhole(get, part.value) else forall items :: !Serves(get, items)
  }

  /** A collection that is served is what one gets. */
  lemma GotWhatIsServed<T(!new)>(get: Option<string> -> Response<T>, part: Option<seq<T>>, items: seq<T>)
    requires Got(get, part) && Serves(get, items)
    ensures part == Some(items)
  {
    var p :| Honest(p) && Hands(get, p) && Length(p) <= MAX_PAGES && Flatten(p) == items;
    if part.Some? {
      WholeIsFlat(get, p, part.value);
    }
  }

  lemma {:induction false} TrailIsAhead<T(!new)>(get: Option<string> -> Response<T>, p: Pages<T>, trail: Trail<T>)
    requires Honest(p) && Hands(get, p) && Followed(get, trail) && GoesOn(trail)
    ensures Ahead(p, CursorAfter(trail), Concatenated(trail), Answers(trail))
  {
    if trail.Then? {
      TrailIsAhead(get, p, trail.earlier);
      NextAhead(p, CursorAfter(trail.earlier), Concatenated(trail.earlier), Answers(trail.earlier));
    }
  }

  /** Whoever follows the cursors of an honest server to the end has read exactly its collection. */
  lemma WholeIsFlat<T(!new)>(get: Option<string> -> Response<T>, p: Pages<T>, items: seq<T>)
    requires Honest(p) && Hands(get, p) && ReadWhole(get, items)
    ensures items == Flatten(p)
  {
    var trail :| Followed(get, trail) && trail.Then? && trail.next.End? && Concatenated(trail) == items;
    TrailIsAhead(get, p, trail.earlier);
  }
}
