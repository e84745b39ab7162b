/** The page listing every idea: the table rows it shows and its purchased toggle. */
module IdeasPage {
  import opened Wrappers
  import opened Records
  import opened IdeaLists

  /** A row of the ideas table. `None` stands for `undefined`. */
  datatype TableRow = TableRow(
    id: string,
    name: string,
    giftee: Option<string>,
    gifteeId: Option<string>,
    purchased: Option<string>,
    purchasedAt: Option<Timestamp>)

  /**
   * The "purchased" column: `−` while not purchased, `✓` when purchased for nobody in
   * particular (`""`), otherwise whom it was purchased for, which may be `undefined`.
   */
  function PurchasedColumn(i: Idea): (r: Option<string>)
    ensures i.purchasedAt.None? ==> r == Some("−")
    ensures i.purchasedAt.Some? && i.purchasedFor == Some("") ==> r == Some("✓")
    ensures r.None? <==> i.purchasedAt.Some? && i.purchasedFor.None?
    ensures i.purchasedAt.Some? && i.purchasedFor != Some("") ==> r == i.purchasedFor
  {
    if i.purchasedAt.None? then Some("−")
    else if i.purchasedFor == Some("") then Some("✓")
    else i.purchasedFor
  }

  function RowOf(i: Idea): TableRow {
    TableRow(
      i.id, i.name,
      if i.giftee.Some? then Some(i.giftee.value.name) else None,
      if i.giftee.Some? then Some(i.giftee.value.id) else None,
      PurchasedColumn(i),
      i.purchasedAt)
  }

  /** `getData`: one row per idea, in the same order. */
  function GetData(items: seq<Idea>): (rows: seq<TableRow>)
    ensures |rows| == |items|
    ensures forall k | 0 <= k < |rows| :: rows[k] == RowOf(items[k])
  {
    if items == [] then [] else [RowOf(items[0])] + GetData(items[1..])
  }

  /**
   * Each row copies the idea's id, name and `purchased_at`, and takes the giftee's
   * name and id from the nested giftee (undefined when it is missing).
   */
  lemma GetDataCopies(items: seq<Idea>, k: int)
    requires 0 <= k < |items|
    ensures var row := GetData(items)[k];
      && row.id == items[k].id && row.name == items[k].name
      && row.purchasedAt == items[k].purchasedAt
      && (row.giftee.Some? <==> items[k].giftee.Some?)
      && (row.gifteeId.Some? <==> items[k].giftee.Some?)
      && (items[k].giftee.Some? ==>
            row.giftee.value == items[k].giftee.value.name && row.gifteeId == Some(items[k].giftee.value.id))
  {
  }

  /** The projection works row by row, so it keeps the order of any split of the list. */
  lemma {:induction false} GetDataAppend(a: seq<Idea>, b: seq<Idea>)
    ensures GetData(a + b) == GetData(a) + GetData(b)
  {
    if a == [] {
      assert a + b == b;
    } else {
      assert (a + b)[1..] == a[1..] + b;
      GetDataAppend(a[1..], b);
    }
  }

  class Page {
    var ideas: seq<Idea>

    constructor ()
      ensures ideas == []
    {
      ideas := [];
    }

    /** The initial load: the fetched rows, or still none when the call fails. */
    method Load(fetched: Option<seq<Idea>>)
      modifies this
      ensures ideas == if fetched.Some? then fetched.value else old(ideas)
    {
      if fetched.Some? {
        ideas := fetched.value;
      }
    }

    /**
     * `handleToggleChosen`: sends the toggled `purchased_at`, then replaces the matching
     * entry with the returned row.
     */
    method HandleToggleChosen(ideaId: string, current: Option<Timestamp>, now: Timestamp, updated: Option<Idea>)
      returns (patch: IdeaPatch)
      modifies this
      ensures patch == SetPurchasedAt(Toggled(current, now))
      ensures ideas == if updated.Some? then ReplaceById(old(ideas), ideaId, updated.value) else old(ideas)
    {
      patch := SetPurchasedAt(Toggled(current, now));
      if updated.Some? {
        ideas := ReplaceById(ideas, ideaId, updated.value);
      }
    }
  }
}
