/** Reading one page of the preview: which pages are accepted, and what is kept of them. */
module PreviewDecoder {
  import opened Wrappers

  const PAGE: nat := 20

  /** Identifiers and instants, as numbers in the order of their texts. */
  datatype Item = Item(id: nat, createdAt: int)

  /** A row as it comes; fits says that its fields are those of an open request of this project, assigned to this subject. */
  datatype RawRow = RawRow(item: Item, fits: bool)

  datatype Page = Page(items: seq<Item>, more: bool, next: Option<Item>, advanced: bool)

  predicate Above(a: Item, b: Item) {
    b.createdAt < a.createdAt || (a.createdAt == b.createdAt && b.id < a.id)
  }

  function Items(rows: seq<RawRow>): seq<Item> {
    if rows == [] then [] else Items(rows[..|rows| - 1]) + [rows[|rows| - 1].item]
  }

  /** Every row fits, identifiers do not repeat, and the items ascend, from after the position of the page on. */
  ghost predicate Proper(rows: seq<RawRow>, after: Option<Item>) {
    && (forall i :: 0 <= i < |rows| ==> rows[i].fits && (after.Some? ==> Above(rows[i].item, after.value)))
    && (forall i, j :: 0 <= i < j < |rows| ==> Above(rows[j].item, rows[i].item) && rows[i].item.id != rows[j].item.id)
  }

  method Decode(live: bool, rows: seq<RawRow>, next: Option<Item>, after: Option<Item>) returns (r: Option<Page>)
    ensures r.Some? <==>
              && live && |rows| <= PAGE && Proper(rows, after)
              && (next.Some? ==> |rows| == PAGE && next.value == rows[PAGE - 1].item)
    ensures r.Some? ==> r.value == Page(Items(rows), next.Some?, next, after.Some?)
  {
    if !live || |rows| > PAGE { return None; }
    var seen: set<nat> := {};
    var items: seq<Item> := [];
    var k := 0;
    while k < |rows|
      invariant k <= |rows| && items == Items(rows[..k]) && |items| == k
      invariant k > 0 ==> items[k - 1] == rows[k - 1].item
      invariant forall id :: id in seen <==> exists i :: 0 <= i < k && rows[i].item.id == id
      invariant Proper(rows[..k], after)
    {
      var row := rows[k];
      if !row.fits || row.item.id in seen || (k > 0 && !Above(row.item, items[k - 1]))
         || (after.Some? && !Above(row.item, after.value))
      {
        return None;
      }
      assert rows[..k + 1][..k] == rows[..k];
      ProperMore(rows, after, k);
      seen := seen + {row.item.id};
      items := items + [row.item];
      k := k + 1;
    }
    assert rows[..k] == rows;
    if next.Some? && (|items| != PAGE || next.value != items[PAGE - 1]) { return None; }
    r := Some(Page(items, next.Some?, next, after.Some?));
  }

  lemma ProperMore(rows: seq<RawRow>, after: Option<Item>, k: nat)
    requires k < |rows| && Proper(rows[..k], after) && rows[k].fits
    requires after.Some? ==> Above(rows[k].item, after.value)
    requires forall i :: 0 <= i < k ==> rows[i].item.id != rows[k].item.id
    requires k > 0 ==> Above(rows[k].item, rows[k - 1].item)
    ensures Proper(rows[..k + 1], after)
  {
    var before, now := rows[..k], rows[..k + 1];
    forall i, j | 0 <= i < j < |now|
      ensures Above(now[j].item, now[i].item) && now[i].item.id != now[j].item.id
    {
      if j == k {
        assert i < k - 1 ==> Above(before[k - 1].item, before[i].item);
      } else {
        assert before[i] == now[i] && before[j] == now[j];
      }
    }
    forall i | 0 <= i < |now|
      ensures now[i].fits && (after.Some? ==> Above(now[i].item, after.value))
    {
      if i < k { assert before[i] == now[i]; }
    }
  }
}
