/** The `items` table as a sequence of rows in insertion order: lookup by
    id, the purchase price a buyer pays, the download counter, and the
    listing filtered by item type. */
module Catalog {
  import opened Rows

  /** `SELECT ... FROM items WHERE id = ?`: the position of the first row
      with that id, or `None` when there is none. */
  function FindItem(rows: seq<ItemRow>, id: int): (r: Option<nat>)
    ensures r.Some? ==> r.value < |rows| && rows[r.value].id == id
    ensures r.Some? ==> forall j :: 0 <= j < r.value ==> rows[j].id != id
    ensures r.None? <==> forall j :: 0 <= j < |rows| ==> rows[j].id != id
  {
    if rows == [] then None
    else if rows[0].id == id then Some(0)
    else match FindItem(rows[1..], id)
      case None => None
      case Some(k) => Some(k + 1)
  }

  /** With distinct ids, the row found is the only one with its id. */
  lemma FindItemUnique(rows: seq<ItemRow>, id: int, k: nat)
    requires forall i, j :: 0 <= i < j < |rows| ==> rows[i].id < rows[j].id
    requires k < |rows| && rows[k].id == id
    ensures FindItem(rows, id) == Some(k)
  {
  }

  /** A row appended under an id no earlier row carries is found at the end. */
  lemma FindAppended(rows: seq<ItemRow>, row: ItemRow)
    requires forall j :: 0 <= j < |rows| ==> rows[j].id < row.id
    ensures FindItem(rows + [row], row.id) == Some(|rows|)
  {
    assert (rows + [row])[|rows|] == row;
  }

  /** Authors download their own items for free. */
  function PriceFor(item: Item, buyer: UserId): (p: int)
    ensures item.author == buyer ==> p == 0
    ensures item.author != buyer ==> p == item.price
  {
    if item.author == buyer then 0 else item.price
  }

  /** `download_count = download_count + 1` on one row. */
  function Downloaded(row: ItemRow): (r: ItemRow)
    ensures r.id == row.id && r.item.downloadCount == row.item.downloadCount + 1
    ensures r.item == row.item.(downloadCount := row.item.downloadCount + 1)
  {
    row.(item := row.item.(downloadCount := row.item.downloadCount + 1))
  }

  /** Counting a download does not move any row: every lookup by id
      answers as before. */
  lemma {:induction false} DownloadedKeepsLookup(rows: seq<ItemRow>, k: nat, id: int)
    requires k < |rows|
    ensures FindItem(rows[k := Downloaded(rows[k])], id) == FindItem(rows, id)
  {
    var after := rows[k := Downloaded(rows[k])];
    if rows[0].id != id && k > 0 {
      assert after[1..] == rows[1..][k - 1 := Downloaded(rows[1..][k - 1])];
      DownloadedKeepsLookup(rows[1..], k - 1, id);
    } else if rows[0].id != id {
      assert after[1..] == rows[1..];
    }
  }

  function Summarize(row: ItemRow): Summary {
    Summary(row.id, row.item.itemType, row.item.name, row.item.author,
            row.item.description, row.item.price, row.item.downloadCount,
            row.item.createdAt)
  }

  /** `SELECT ... FROM items WHERE item_type = t`, as table order. */
  function Listing(rows: seq<ItemRow>, t: string): (r: seq<Summary>)
    ensures |r| <= |rows|
  {
    if rows == [] then []
    else
      var last := rows[|rows| - 1];
      Listing(rows[..|rows| - 1], t) + (if last.item.itemType == t then [Summarize(last)] else [])
  }

  /** The listing holds exactly the summaries of the rows of type `t`. */
  lemma {:induction false} ListingExact(rows: seq<ItemRow>, t: string, s: Summary)
    ensures s in Listing(rows, t) <==>
      exists k :: 0 <= k < |rows| && rows[k].item.itemType == t && Summarize(rows[k]) == s
  {
    if rows != [] {
      var init := rows[..|rows| - 1];
      ListingExact(init, t, s);
      assert forall k :: 0 <= k < |init| ==> init[k] == rows[k];
      if exists k :: 0 <= k < |rows| && rows[k].item.itemType == t && Summarize(rows[k]) == s {
        var k :| 0 <= k < |rows| && rows[k].item.itemType == t && Summarize(rows[k]) == s;
        if k < |init| {
          assert init[k].item.itemType == t && Summarize(init[k]) == s;
        }
      }
    }
  }

  /** Every listed summary has the requested type. */
  lemma {:induction false} ListingTyped(rows: seq<ItemRow>, t: string)
    ensures forall i :: 0 <= i < |Listing(rows, t)| ==> Listing(rows, t)[i].itemType == t
  {
    if rows != [] {
      ListingTyped(rows[..|rows| - 1], t);
    }
  }
}
