/** Collections that a server hands out page by page. */
module PagedServer {
  import opened Prelude
  import opened Store1Types

  datatype Pages<+T> = Last(items: seq<T>) | More(items: seq<T>, cursor: string, rest: Pages<T>)

  function Flatten<T>(p: Pages<T>): seq<T> {
    match p
    case Last(items) => items
    case More(items, _, rest) => items + Flatten(rest)
  }

  function Length<T>(p: Pages<T>): (n: nat)
    ensures n > 0
  {
    match p
    case Last(_) => 1
    case More(_, _, rest) => 1 + Length(rest)
  }

  function Cursors<T>(p: Pages<T>): set<string> {
    match p
    case Last(_) => {}
    case More(_, cursor, rest) => {cursor} + Cursors(rest)
  }

  /** Every cursor leads to one page only. */
  predicate Honest<T>(p: Pages<T>) {
    match p
    case Last(_) => true
    case More(_, cursor, rest) => cursor !in Cursors(rest) && Honest(rest)
  }

  /** The pages from a cursor on. */
  function Lookup<T>(p: Pages<T>, cursor: string): Option<Pages<T>> {
    match p
    case Last(_) => None
    case More(_, c, rest) => if c == cursor then Some(rest) else Lookup(rest, cursor)
  }

  function Serve<T>(p: Pages<T>, cursor: Option<string>): Option<Pages<T>> {
    if cursor.None? then Some(p) else Lookup(p, cursor.value)
  }

  /** What has been read is a beginning of the collection, up to the page that the cursor names. */
  predicate Progress<T(==)>(field: Collection<T>, p: Pages<T>) {
    match field
    case Unread => true
    case Page(items, None) => false
    case Page(items, Some(None)) => items == Flatten(p)
    case Page(items, Some(Some(c))) =>
      Lookup(p, c).Some? && items + Flatten(Lookup(p, c).value) == Flatten(p)
  }

  /** The number of pages still to read. */
  function Left<T(==)>(field: Collection<T>, p: Pages<T>): nat
    requires Progress(field, p)
  {
    match field
    case Unread => Length(p)
    case Page(_, Some(None)) => 0
    case Page(_, Some(Some(c))) => Length(Lookup(p, c).value)
  }

  /** The cursor of the next page to ask for. */
  function NextCursor<T>(field: Collection<T>): Option<string>
    requires field.Page? ==> field.nextCursor.Some?
  {
    if field.Unread? then None else field.nextCursor.value
  }

  /** `[...(field ?? []), ...items]` with the cursor of the page. */
  function Extend<T>(field: Collection<T>, page: Pages<T>): Collection<T> {
    Page((if field.Unread? then [] else field.items) + page.items,
         Some(if page.Last? then None else Some(page.cursor)))
  }

  lemma CompleteIsWhole<T>(field: Collection<T>, p: Pages<T>)
    requires Progress(field, p)
    ensures Left(field, p) == 0 <==> field.Page? && field.nextCursor == Some(None)
    ensures Left(field, p) == 0 ==> field == Whole(Flatten(p))
  {
  }

  lemma {:induction false} LookupInCursors<T>(p: Pages<T>, cursor: string)
    ensures Lookup(p, cursor).Some? <==> cursor in Cursors(p)
    ensures Lookup(p, cursor).Some? ==> Cursors(Lookup(p, cursor).value) <= Cursors(p)
  {
    if p.More? {
      LookupInCursors(p.rest, cursor);
    }
  }

  /** Going on from a later page finds the same pages. */
  lemma {:induction false} LookupNext<T>(p: Pages<T>, cursor: string)
    requires Honest(p) && Lookup(p, cursor).Some? && Lookup(p, cursor).value.More?
    ensures Lookup(p, Lookup(p, cursor).value.cursor) == Some(Lookup(p, cursor).value.rest)
  {
    if p.cursor != cursor {
      LookupNext(p.rest, cursor);
      LookupInCursors(p.rest, cursor);
      LookupInCursors(p.rest, Lookup(p, cursor).value.cursor);
    } else {
      LookupInCursors(p.rest, p.rest.cursor);
    }
  }

  /** One read appends exactly the next page. */
  lemma ReadStep<T>(field: Collection<T>, p: Pages<T>)
    requires Honest(p) && Progress(field, p) && Left(field, p) > 0
    ensures Serve(p, NextCursor(field)).Some?
    ensures var after := Extend(field, Serve(p, NextCursor(field)).value);
            Progress(after, p) && Left(after, p) == Left(field, p) - 1
  {
    var page := Serve(p, NextCursor(field)).value;
    if field.Page? {
      var c := field.nextCursor.value.value;
      if page.More? {
        LookupNext(p, c);
        assert field.items + (page.items + Flatten(page.rest)) == field.items + page.items + Flatten(page.rest);
      }
    } else if page.More? {
      assert [] + page.items == page.items;
      assert Lookup(p, page.cursor) == Some(page.rest);
    }
  }
}
