/** Searching the recorded access operations page by page, newest first, each page starting after the last row of the
    page before. Instants are milliseconds and identifiers numbers in the order of their lower-case text. */
module KeysetSearch {
  import opened Wrappers

  const LIMIT: nat := 31
  const SLOTS: nat := 4

  datatype Action = Granted | Revoked | Unrelated

  datatype Row = Row(id: nat, actor: string, action: Action, occurredAt: int)

  datatype Filters = Filters(actor: Option<string>, action: Option<Action>, from: int, until: int)

  datatype Position = Position(occurredAt: int, id: nat)

  datatype Error = Denied | Unavailable

  function At(r: Row): Position { Position(r.occurredAt, r.id) }

  /** The first position comes after the second one in the listing, which runs from new to old. */
  predicate Below(p: Position, q: Position) {
    p.occurredAt < q.occurredAt || (p.occurredAt == q.occurredAt && p.id < q.id)
  }

  predicate Matches(f: Filters, r: Row) {
    && !r.action.Unrelated?
    && f.from <= r.occurredAt < f.until
    && (f.action.Some? ==> r.action == f.action.value)
    && (f.actor.Some? ==> r.actor == f.actor.value)
  }

  predicate Follows(r: Row, after: Option<Position>) { after.Some? ==> Below(At(r), after.value) }

  // ---------- the query ----------

  function InsertRow(r: Row, rows: seq<Row>): seq<Row> {
    if rows == [] || Below(At(rows[0]), At(r)) then [r] + rows else [rows[0]] + InsertRow(r, rows[1..])
  }

  /** The matching rows after a position, newest first. */
  function Listing(table: seq<Row>, f: Filters, after: Option<Position>): seq<Row> {
    if table == [] then []
    else
      var rest := Listing(table[1..], f, after);
      if Matches(f, table[0]) && Follows(table[0], after) then InsertRow(table[0], rest) else rest
  }

  function Query(table: seq<Row>, f: Filters, after: Option<Position>): seq<Row> {
    var all := Listing(table, f, after);
    if |all| <= LIMIT then all else all[..LIMIT]
  }

  ghost predicate Descending(rows: seq<Row>) {
    forall i, j :: 0 <= i < j < |rows| ==> Below(At(rows[j]), At(rows[i]))
  }

  /** Identifiers are unique. */
  ghost predicate Keyed(table: seq<Row>) {
    forall i, j :: 0 <= i < j < |table| ==> table[i].id != table[j].id
  }

  lemma {:induction false} InsertMembers(r: Row, rows: seq<Row>, x: Row)
    ensures x in InsertRow(r, rows) <==> x == r || x in rows
  {
    if rows != [] && !Below(At(rows[0]), At(r)) {
      InsertMembers(r, rows[1..], x);
    }
  }

  lemma {:induction false} InsertDescending(r: Row, rows: seq<Row>)
    requires Descending(rows) && forall x :: x in rows ==> x.id != r.id
    ensures Descending(InsertRow(r, rows))
  {
    if rows != [] {
      if Below(At(rows[0]), At(r)) {
        assert forall j :: 0 <= j < |rows| ==> Below(At(rows[j]), At(r));
      } else {
        InsertDescending(r, rows[1..]);
        var tail := InsertRow(r, rows[1..]);
        forall j | 0 <= j < |tail|
          ensures Below(At(tail[j]), At(rows[0]))
        {
          InsertMembers(r, rows[1..], tail[j]);
        }
      }
    }
  }

  lemma {:induction false} ListingIs(table: seq<Row>, f: Filters, after: Option<Position>)
    requires Keyed(table)
    ensures forall x :: x in Listing(table, f, after) <==> x in table && Matches(f, x) && Follows(x, after)
    ensures Descending(Listing(table, f, after))
  {
    if table != [] {
      var rest := Listing(table[1..], f, after);
      ListingIs(table[1..], f, after);
      assert forall x :: x in table <==> x == table[0] || x in table[1..];
      if Matches(f, table[0]) && Follows(table[0], after) {
        InsertDescending(table[0], rest);
        forall x: Row
          ensures x in InsertRow(table[0], rest) <==> x == table[0] || x in rest
        {
          InsertMembers(table[0], rest, x);
        }
      }
    }
  }

  // ---------- the search ----------

  /** Tries the four slots in turn. */
  method AcquireSlot(free: seq<bool>) returns (granted: bool)
    requires |free| == SLOTS
    ensures granted <==> exists s :: 0 <= s < SLOTS && free[s]
  {
    granted := false;
    var slot := 0;
    while slot < SLOTS
      invariant slot <= SLOTS && !granted && forall s :: 0 <= s < slot ==> !free[s]
    {
      if free[slot] { return true; }
      slot := slot + 1;
    }
  }

  /** What a page must be to be let out. */
  ghost predicate Proper(rows: seq<Row>, f: Filters, after: Option<Position>) {
    && Descending(rows) && Keyed(rows)
    && (forall r :: r in rows ==> Follows(r, after) && f.from <= r.occurredAt < f.until)
    && (forall r :: r in rows ==> (f.actor.Some? ==> r.actor == f.actor.value) && (f.action.Some? ==> r.action == f.action.value))
  }

  /** Checks the rows one by one against the filters, the rows seen and the row before; passes exactly proper pages. */
  method Recheck(rows: seq<Row>, f: Filters, after: Option<Position>) returns (ok: bool)
    ensures ok <==> Proper(rows, f, after)
  {
    var seen: set<nat> := {};
    var previous := after;
    var i := 0;
    while i < |rows|
      invariant i <= |rows| && Proper(rows[..i], f, after)
      invariant forall id :: id in seen <==> exists k :: 0 <= k < i && rows[k].id == id
      invariant previous == if i == 0 then after else Some(At(rows[i - 1]))
    {
      var row := rows[i];
      if (f.actor.Some? && row.actor != f.actor.value) || (f.action.Some? && row.action != f.action.value)
         || row.occurredAt < f.from || row.occurredAt >= f.until || row.id in seen
         || (previous.Some? && !Below(At(row), previous.value))
      {
        NotProper(rows, f, after, i);
        return false;
      }
      ProperMore(rows, f, after, i);
      seen := seen + {row.id};
      previous := Some(At(row));
      i := i + 1;
    }
    assert rows[..i] == rows;
    ok := true;
  }

  lemma NotProper(rows: seq<Row>, f: Filters, after: Option<Position>, i: nat)
    requires i < |rows|
    requires || (f.actor.Some? && rows[i].actor != f.actor.value) || (f.action.Some? && rows[i].action != f.action.value)
             || rows[i].occurredAt < f.from || rows[i].occurredAt >= f.until
             || (exists k :: 0 <= k < i && rows[k].id == rows[i].id)
             || (i == 0 && !Follows(rows[0], after))
             || (i > 0 && !Below(At(rows[i]), At(rows[i - 1])))
    ensures !Proper(rows, f, after)
  {
    assert rows[i] in rows;
  }

  lemma ProperMore(rows: seq<Row>, f: Filters, after: Option<Position>, i: nat)
    requires i < |rows| && Proper(rows[..i], f, after)
    requires f.actor.Some? ==> rows[i].actor == f.actor.value
    requires f.action.Some? ==> rows[i].action == f.action.value
    requires f.from <= rows[i].occurredAt < f.until
    requires forall k :: 0 <= k < i ==> rows[k].id != rows[i].id
    requires if i == 0 then Follows(rows[0], after) else Below(At(rows[i]), At(rows[i - 1]))
    ensures Proper(rows[..i + 1], f, after)
  {
    var before, now := rows[..i], rows[..i + 1];
    assert now == before + [rows[i]];
    if i > 0 {
      assert before[i - 1] in before && Follows(before[i - 1], after);
    }
    forall a, b | 0 <= a < b < |now|
      ensures Below(At(now[b]), At(now[a]))
    {
      if b == i && a < i - 1 {
        assert Below(At(before[i - 1]), At(before[a]));
      }
    }
  }

  /** The whole search over what the database returned. */
  method Search(admin: bool, f: Filters, after: Option<Position>, leased: bool, tenantFree: bool, slots: seq<bool>,
                returned: seq<Row>)
    returns (r: Result<seq<Row>, Error>)
    requires |slots| == SLOTS
    ensures r.Err? && r.error == Denied <==> !admin
    ensures r.Ok? <==>
              && admin && leased && tenantFree && (exists s :: 0 <= s < SLOTS && slots[s])
              && (after.Some? ==> f.from <= after.value.occurredAt < f.until)
              && |returned| <= LIMIT && Proper(returned, f, after)
    ensures r.Ok? ==> r.value == returned
  {
    if !admin { return Err(Denied); }
    if after.Some? && (after.value.occurredAt < f.from || after.value.occurredAt >= f.until) { return Err(Unavailable); }
    if !leased || !tenantFree { return Err(Unavailable); }
    var granted := AcquireSlot(slots);
    if !granted || |returned| > LIMIT { return Err(Unavailable); }
    var ok := Recheck(returned, f, after);
    if !ok { return Err(Unavailable); }
    r := Ok(returned);
  }

  lemma ListingKeyed(table: seq<Row>, f: Filters, after: Option<Position>)
    requires Keyed(table)
    ensures Keyed(Listing(table, f, after))
  {
    ListingIs(table, f, after);
    var rows := Listing(table, f, after);
    forall i, j | 0 <= i < j < |rows|
      ensures rows[i].id != rows[j].id
    {
      assert rows[i] in table && rows[j] in table;
      assert rows[i] != rows[j];
    }
  }

  /** The check never rejects what the query returns. */
  lemma QueryIsProper(table: seq<Row>, f: Filters, after: Option<Position>)
    requires Keyed(table)
    ensures |Query(table, f, after)| <= LIMIT && Proper(Query(table, f, after), f, after)
  {
    ListingIs(table, f, after);
    ListingKeyed(table, f, after);
    var all, page := Listing(table, f, after), Query(table, f, after);
    forall r | r in page
      ensures r in all
    {
      var i :| 0 <= i < |page| && page[i] == r;
      assert all[i] == r;
    }
  }

  // ---------- going through all pages ----------

  /** A reader who keeps fewer rows than a page may have goes on if there is one to spare; a reader who keeps whole
      pages goes on after a full one. */
  predicate GoesOn(rows: seq<Row>, keep: nat) { |rows| > keep || |rows| == keep == LIMIT }

  /** What a reader shows who keeps the first `keep` rows of every page and starts the next page after the last of them,
      as long as the reader goes on; the table may have grown before each page. */
  function Shown(tables: seq<seq<Row>>, f: Filters, after: Option<Position>, keep: nat): seq<Row> {
    if tables == [] then []
    else
      var rows := Query(tables[0], f, after);
      if !GoesOn(rows, keep) || keep == 0 then rows
      else rows[..keep] + Shown(tables[1..], f, Some(At(rows[keep - 1])), keep)
  }

  /** Enough pages are read. */
  predicate Finished(tables: seq<seq<Row>>, f: Filters, after: Option<Position>, keep: nat) {
    && tables != [] && keep != 0
    && var rows := Query(tables[0], f, after);
       !GoesOn(rows, keep) || Finished(tables[1..], f, Some(At(rows[keep - 1])), keep)
  }

  /** Rows are only ever appended, and never two with one identifier. */
  ghost predicate Grows(base: seq<Row>, tables: seq<seq<Row>>) {
    && Keyed(base)
    && forall t :: t in tables ==> Keyed(t) && forall r :: r in base ==> r in t
  }

  /** After the rows shown of a page come exactly the later rows, in the listing of any part of the table. */
  lemma PageSplits(table: seq<Row>, f: Filters, after: Option<Position>, keep: nat, x: Row)
    requires Keyed(table) && 0 < keep <= |Query(table, f, after)|
    requires x in table && Matches(f, x)
    ensures var rows := Query(table, f, after);
      && (x in rows[..keep] ==> Follows(x, after) && !Follows(x, Some(At(rows[keep - 1]))))
      && (x !in rows[..keep] && Follows(x, after) ==> Follows(x, Some(At(rows[keep - 1]))))
      && (Follows(x, Some(At(rows[keep - 1]))) ==> Follows(x, after))
  {
    ListingIs(table, f, after);
    var all, rows := Listing(table, f, after), Query(table, f, after);
    assert rows[..keep] == all[..keep] && rows[keep - 1] == all[keep - 1];
    assert all[keep - 1] in all;
    if Follows(x, after) {
      var i :| 0 <= i < |all| && all[i] == x;
      if i < keep {
        assert rows[..keep][i] == x;
      }
    }
    if x in rows[..keep] {
      var i :| 0 <= i < keep && all[..keep][i] == x;
      assert all[i] == x && x in all;
    }
  }

  /** A row of the base is shown exactly if it matches and comes after the start. */
  lemma {:induction false} ShownMembers(base: seq<Row>, tables: seq<seq<Row>>, f: Filters, after: Option<Position>, keep: nat, x: Row)
    requires Grows(base, tables) && 0 < keep <= LIMIT && Finished(tables, f, after, keep) && x in base
    ensures x in Shown(tables, f, after, keep) <==> Matches(f, x) && Follows(x, after)
  {
    var rows := Query(tables[0], f, after);
    assert tables[0] in tables;
    ListingIs(tables[0], f, after);
    if GoesOn(rows, keep) {
      var last := Some(At(rows[keep - 1]));
      ShownMembers(base, tables[1..], f, last, keep, x);
      if Matches(f, x) {
        PageSplits(tables[0], f, after, keep, x);
      } else {
        assert rows[..keep] == Listing(tables[0], f, after)[..keep];
        assert forall y :: y in rows[..keep] ==> y in Listing(tables[0], f, after);
      }
    }
  }

  lemma {:induction false} ShownDescending(base: seq<Row>, tables: seq<seq<Row>>, f: Filters, after: Option<Position>, keep: nat)
    requires Grows(base, tables) && 0 < keep <= LIMIT
    ensures Descending(Shown(tables, f, after, keep))
    ensures forall x :: x in Shown(tables, f, after, keep) ==> Follows(x, after)
  {
    if tables != [] {
      assert tables[0] in tables;
      QueryIsProper(tables[0], f, after);
      var rows := Query(tables[0], f, after);
      if GoesOn(rows, keep) {
        var last := Some(At(rows[keep - 1]));
        ShownDescending(base, tables[1..], f, last, keep);
        var page, rest := rows[..keep], Shown(tables[1..], f, last, keep);
        Joined(page, rest, after);
      }
    }
  }

  lemma Joined(page: seq<Row>, rest: seq<Row>, after: Option<Position>)
    requires page != [] && Descending(page) && Descending(rest)
    requires forall x :: x in page ==> Follows(x, after)
    requires forall x :: x in rest ==> Below(At(x), At(page[|page| - 1]))
    ensures Descending(page + rest) && forall x :: x in page + rest ==> Follows(x, after)
  {
    var all, last := page + rest, page[|page| - 1];
    assert last in page;
    forall i, j | 0 <= i < j < |all|
      ensures Below(At(all[j]), At(all[i]))
    {
      if i < |page| <= j {
        assert rest[j - |page|] in rest;
        assert i < |page| - 1 ==> Below(At(last), At(page[i]));
      }
    }
  }

  lemma SomeRow(rows: seq<Row>)
    ensures rows == [] || exists x :: x in rows
  {
    if rows != [] {
      assert rows[0] in rows;
    }
  }

  /** Two descending lists with the same rows are the same list. */
  lemma {:induction false} SameListing(a: seq<Row>, b: seq<Row>)
    requires Descending(a) && Descending(b) && forall x :: x in a <==> x in b
    ensures a == b
  {
    if a == [] {
      SomeRow(b);
    } else {
      assert a[0] in b && b != [] && b[0] in a;
      assert a[0] == b[0];
      forall x: Row
        ensures x in a[1..] <==> x in b[1..]
      {
        assert x in a <==> x == a[0] || x in a[1..];
        assert x in b <==> x == b[0] || x in b[1..];
        assert a[0] !in a[1..] && b[0] !in b[1..];
      }
      SameListing(a[1..], b[1..]);
      assert a == [a[0]] + a[1..] && b == [b[0]] + b[1..];
    }
  }

  lemma {:induction false} FilterDescending(keep: Row -> bool, rows: seq<Row>)
    requires Descending(rows)
    ensures Descending(Filter(keep, rows))
  {
    if rows != [] {
      FilterDescending(keep, rows[1..]);
      var rest := Filter(keep, rows[1..]);
      forall j | 0 <= j < |rest|
        ensures Below(At(rest[j]), At(rows[0]))
      {
        assert rest[j] in rows[1..];
      }
    }
  }

  /** Reading every page, whole or in part, shows, of the rows present at the start, exactly the matching ones, newest
      first, each once, whatever is appended meanwhile. */
  lemma EveryRowOnce(base: seq<Row>, tables: seq<seq<Row>>, f: Filters, keep: nat)
    requires Grows(base, tables) && 0 < keep <= LIMIT && Finished(tables, f, None, keep)
    ensures Descending(Shown(tables, f, None, keep))
    ensures Filter((r: Row) => r in base, Shown(tables, f, None, keep)) == Listing(base, f, None)
  {
    var all := Shown(tables, f, None, keep);
    var mine := Filter((r: Row) => r in base, all);
    ShownDescending(base, tables, f, None, keep);
    FilterDescending((r: Row) => r in base, all);
    ListingIs(base, f, None);
    forall x: Row
      ensures x in mine <==> x in Listing(base, f, None)
    {
      if x in base {
        ShownMembers(base, tables, f, None, keep, x);
      }
    }
    SameListing(mine, Listing(base, f, None));
  }

  // ---------- reading ends ----------

  function Copies(table: seq<Row>, n: nat): seq<seq<Row>> {
    if n == 0 then [] else [table] + Copies(table, n - 1)
  }

  lemma {:induction false} InsertLength(r: Row, rows: seq<Row>)
    ensures |InsertRow(r, rows)| == |rows| + 1
  {
    if rows != [] && !Below(At(rows[0]), At(r)) {
      InsertLength(r, rows[1..]);
    }
  }

  lemma {:induction false} ListingLength(table: seq<Row>, f: Filters, after: Option<Position>)
    ensures |Listing(table, f, after)| == |Filter((r: Row) => Matches(f, r) && Follows(r, after), table)|
  {
    if table != [] {
      ListingLength(table[1..], f, after);
      InsertLength(table[0], Listing(table[1..], f, after));
    }
  }

  /** Fewer rows come after a row that has been shown. */
  lemma ShorterListing(table: seq<Row>, f: Filters, after: Option<Position>, r: Row)
    requires r in table && Matches(f, r) && Follows(r, after)
    ensures |Listing(table, f, Some(At(r)))| < |Listing(table, f, after)|
  {
    var strict, loose := (x: Row) => Matches(f, x) && Follows(x, Some(At(r))), (x: Row) => Matches(f, x) && Follows(x, after);
    FilterStricter(strict, loose, table);
    ListingLength(table, f, after);
    ListingLength(table, f, Some(At(r)));
    assert loose(r) && !strict(r);
  }

  /** On a table that stays as it is, reading ends after at most one page more than there are rows to show. */
  lemma {:induction false} ReadingEnds(table: seq<Row>, f: Filters, after: Option<Position>, keep: nat, n: nat)
    requires Keyed(table) && 0 < keep && n > |Listing(table, f, after)|
    ensures Finished(Copies(table, n), f, after, keep)
    decreases n
  {
    var rows, copies := Query(table, f, after), Copies(table, n);
    assert copies[0] == table && copies[1..] == Copies(table, n - 1);
    if GoesOn(rows, keep) {
      ListingIs(table, f, after);
      var all := Listing(table, f, after);
      assert rows[keep - 1] == all[keep - 1] && all[keep - 1] in all;
      ShorterListing(table, f, after, rows[keep - 1]);
      ReadingEnds(table, f, Some(At(rows[keep - 1])), keep, n - 1);
    }
  }
}
