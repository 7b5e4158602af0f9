/** `fetch_inventory` over the `inv_new` table, and the two helpers of the
    generated-SQL path: `format_query_result` and `parse_final_answer`. The
    table is a value (`None` when the database cannot be reached) and the
    JSON decoder is a parameter. */
module DataOperations {
  import opened Wrappers
  import opened Seqs
  import opened Text
  import opened Tables

  // ----- Inventory -----

  const ValidLocations: seq<string> := ["Indiana", "Pennsylvania", "Los Angeles", "Tacoma 3PL", "Santa Clara 3PL"]
  /** The words that let a "wood" query without a location list everything. */
  const WholeListWords: seq<string> := ["full", "all", "complete"]
  /** The words that select the whole table when no material is named. */
  const BreadthWords: seq<string> := ["complete", "full", "all", "los angeles", "indiana", "pennsylvania"]

  /** A `qty_available` value: a number, or text such as the placeholder's
      message. A JSON `null` is `Note("None")`: Python renders it as "None"
      and the total counts it as 0, exactly as it does that note. */
  datatype Qty = Amount(n: int) | Note(text: string)

  /** One value of the decoded `warehouses` object: its `warehouse` name and
      its `qty_available`, each `None` when the key is absent. */
  datatype WarehouseJson = WarehouseJson(name: Option<string>, qty: Option<Qty>)

  /** `{"sku", "warehouse", "qty_available"}`. */
  datatype InvItem = InvItem(sku: string, warehouse: string, qty: Qty)

  /** The single row answered when nothing applies. */
  const Unavailable: InvItem := InvItem("N/A", "No info available", Note("The product you are looking for is not available"))

  /** What `json.loads` and the walk over its result make of one
      `inventory_json`:
      - `Warehouses`: the values of the `warehouses` object, in map order
        (empty when the key is absent);
      - `NotJson`: the text is not JSON, a `JSONDecodeError` that the loop
        catches, so the row is skipped;
      - `WrongShape`: valid JSON that the walk cannot read. The top level or
        `warehouses` is not an object, or a warehouse is not an object, or a
        `warehouse` name is not a string (`null`, say). Then `.get`,
        `.items` or `.strip` raises an `AttributeError`, which nothing in
        `fetch_inventory` catches. */
  datatype Decoded = Warehouses(ws: seq<WarehouseJson>) | NotJson | WrongShape

  type InventoryDecoder = string -> Decoded

  function WarehouseName(w: WarehouseJson): string {
    Strip(w.name.GetOr(""))
  }

  function QtyOf(w: WarehouseJson): Qty {
    w.qty.GetOr(Amount(0))
  }

  /** The items one row contributes. With a location only warehouses whose
      stripped name is exactly that location, tagged with it; without one,
      every warehouse under its stripped name. */
  function WarehouseItems(sku: string, ws: seq<WarehouseJson>, location: Option<string>): (r: seq<InvItem>)
    ensures |r| <= |ws|
    ensures forall it :: it in r ==> it.sku == sku
    ensures location.Some? ==> forall it :: it in r ==> it.warehouse == location.value
    ensures location.None? ==> |r| == |ws|
  {
    if ws == [] then []
    else
      var rest := WarehouseItems(sku, ws[1..], location);
      var w := ws[0];
      if location.None? || WarehouseName(w) == location.value then
        [InvItem(sku, WarehouseName(w), QtyOf(w))] + rest
      else rest
  }

  /** The items of a row that does not raise; a row that is not JSON gives none. */
  function RowItems(row: InvRow, decode: InventoryDecoder, location: Option<string>): seq<InvItem> {
    match decode(row.json)
    case Warehouses(ws) => WarehouseItems(row.sku, ws, location)
    case _ => []
  }

  /** A row whose JSON the walk cannot read. */
  predicate RowRaises(row: InvRow, decode: InventoryDecoder) {
    decode(row.json).WrongShape?
  }

  /** The items of all rows, in row order and then warehouse order; `None`
      when the loop raises. Both branches of every loop evaluate the stripped
      name of every warehouse, so a row raises whatever the location. */
  function Emit(rows: seq<InvRow>, decode: InventoryDecoder, location: Option<string>): (r: Option<seq<InvItem>>)
    ensures r.None? <==> exists row :: row in rows && RowRaises(row, decode)
    ensures r.Some? ==> r.value == FlatMap(rows, (row: InvRow) => RowItems(row, decode, location))
  {
    if rows == [] then Some([])
    else if RowRaises(rows[0], decode) then None
    else
      assert forall row :: row in rows ==> row == rows[0] || row in rows[1..];
      match Emit(rows[1..], decode, location)
      case None => None
      case Some(rest) => Some(RowItems(rows[0], decode, location) + rest)
  }

  /** With a location every item sits there, and every item names the sku of
      some row. */
  lemma EmitItems(rows: seq<InvRow>, decode: InventoryDecoder, location: Option<string>, it: InvItem)
    requires Emit(rows, decode, location).Some? && it in Emit(rows, decode, location).value
    ensures location.Some? ==> it.warehouse == location.value
    ensures exists row :: row in rows && row.sku == it.sku
  {
    FlatMapMember(rows, (row: InvRow) => RowItems(row, decode, location), it);
  }

  /** A row whose text is not JSON contributes nothing, wherever it stands,
      and the rows after it are still processed. */
  lemma MalformedRowSkipped(a: seq<InvRow>, bad: InvRow, b: seq<InvRow>, decode: InventoryDecoder, location: Option<string>)
    requires decode(bad.json).NotJson?
    ensures Emit(a + [bad] + b, decode, location) == Emit(a + b, decode, location)
  {
    var with, without := a + [bad] + b, a + b;
    assert forall row :: row in with && RowRaises(row, decode) ==> row in without;
    assert forall row :: row in without ==> row in with;
    FlatMapSkip(a, bad, b, (row: InvRow) => RowItems(row, decode, location));
  }

  /** A row whose JSON the walk cannot read aborts the whole listing,
      wherever it stands and whatever the other rows hold. */
  lemma WrongShapeRowRaises(a: seq<InvRow>, bad: InvRow, b: seq<InvRow>, decode: InventoryDecoder, location: Option<string>)
    requires decode(bad.json).WrongShape?
    ensures Emit(a + [bad] + b, decode, location) == None
  {
    assert bad in a + [bad] + b;
  }

  lemma {:induction false} WarehouseItemsAt(sku: string, ws: seq<WarehouseJson>, location: string)
    ensures WarehouseItems(sku, ws, Some(location)) == Filter(WarehouseItems(sku, ws, None), (it: InvItem) => it.warehouse == location)
  {
    if ws != [] {
      WarehouseItemsAt(sku, ws[1..], location);
    }
  }

  /** Listing one location raises exactly when the whole listing does, and
      otherwise gives exactly the entries of the whole listing that sit at
      that location, in the same order. */
  lemma EmitAtLocation(rows: seq<InvRow>, decode: InventoryDecoder, location: string)
    ensures Emit(rows, decode, Some(location)).None? <==> Emit(rows, decode, None).None?
    ensures Emit(rows, decode, Some(location)).Some? ==>
      Emit(rows, decode, Some(location)).value == Filter(Emit(rows, decode, None).value, (it: InvItem) => it.warehouse == location)
  {
    forall row | row in rows
      ensures RowItems(row, decode, Some(location)) == Filter(RowItems(row, decode, None), (it: InvItem) => it.warehouse == location)
    {
      match decode(row.json)
      case Warehouses(ws) => WarehouseItemsAt(row.sku, ws, location);
      case _ =>
    }
    FlatMapFilter(rows, (row: InvRow) => RowItems(row, decode, None), (row: InvRow) => RowItems(row, decode, Some(location)),
                  (it: InvItem) => it.warehouse == location);
  }

  /** Rows of one `categories` value. */
  function CategoryRows(rows: seq<InvRow>, category: string): seq<InvRow> {
    Filter(rows, (r: InvRow) => r.category == category)
  }

  /** The first valid location the lower-cased query names. */
  function LocationIn(q: string): (loc: Option<string>)
    ensures loc.Some? <==> exists k :: 0 <= k < |ValidLocations| && Contains(q, Lower(ValidLocations[k]))
    ensures loc.Some? ==> exists k :: 0 <= k < |ValidLocations| && loc.value == ValidLocations[k]
                            && Contains(q, Lower(ValidLocations[k]))
                            && forall m :: 0 <= m < k ==> !Contains(q, Lower(ValidLocations[m]))
  {
    match FirstMentioned(ValidLocations, q)
    case None => None
    case Some(k) => Some(ValidLocations[k])
  }

  /** The keyword branches of `fetch_inventory`, tested in this order. */
  datatype InvBranch = WoodOnly | MetalOnly | WholeTable | NoInventoryMatch

  /** What the lower-cased query mentions. */
  datatype InvMentions = InvMentions(wood: bool, metal: bool, wholeList: bool, breadth: bool, location: Option<string>)

  function InvMentionsOf(q: string): InvMentions {
    InvMentions(Contains(q, "wood"), Contains(q, "metal"), ContainsAny(q, WholeListWords),
                ContainsAny(q, BreadthWords), LocationIn(q))
  }

  function InvBranchOf(m: InvMentions): (b: InvBranch)
    ensures b == WoodOnly <==> m.wood
    ensures b == MetalOnly <==> !m.wood && m.metal
    ensures b == WholeTable <==> !m.wood && !m.metal && m.breadth
    ensures b == NoInventoryMatch <==> !m.wood && !m.metal && !m.breadth
  {
    if m.wood then WoodOnly else if m.metal then MetalOnly else if m.breadth then WholeTable else NoInventoryMatch
  }

  /** The inventory answer for what the query mentions; `None` when the
      row loop raises. */
  function InventoryFor(m: InvMentions, table: Option<seq<InvRow>>, decode: InventoryDecoder): (r: Option<seq<InvItem>>)
    ensures InvBranchOf(m) == NoInventoryMatch ==> r == Some([Unavailable])
    ensures InvBranchOf(m) != NoInventoryMatch && table.None? ==> r == Some([])
    ensures InvBranchOf(m) == WoodOnly && table.Some? ==>
      if m.location.Some? || m.wholeList then r == Emit(CategoryRows(table.value, "Wood"), decode, m.location)
      else r == Some([Unavailable])
    ensures InvBranchOf(m) == MetalOnly && table.Some? ==> r == Emit(CategoryRows(table.value, "Metal"), decode, m.location)
    ensures InvBranchOf(m) == WholeTable && table.Some? ==> r == Emit(table.value, decode, m.location)
  {
    if m.wood then
      match table
      case None => Some([])
      case Some(t) =>
        if m.location.Some? || m.wholeList then Emit(CategoryRows(t, "Wood"), decode, m.location)
        else Some([Unavailable])
    else if m.metal then
      match table
      case None => Some([])
      case Some(t) => Emit(CategoryRows(t, "Metal"), decode, m.location)
    else if m.breadth then
      match table
      case None => Some([])
      case Some(t) => Emit(t, decode, m.location)
    else Some([Unavailable])
  }

  /** The listing raises only over a reachable table that holds a row whose
      JSON the walk cannot read. */
  lemma InventoryRaisesOnlyOnBadRow(m: InvMentions, table: Option<seq<InvRow>>, decode: InventoryDecoder)
    requires InventoryFor(m, table, decode).None?
    ensures table.Some? && exists row :: row in table.value && RowRaises(row, decode)
  {
    var rows := if m.wood then CategoryRows(table.value, "Wood")
                else if m.metal then CategoryRows(table.value, "Metal")
                else table.value;
    var row :| row in rows && RowRaises(row, decode);
    assert row in table.value;
  }

  /** `fetch_inventory(user_query)`; `None` when it raises. */
  function FetchInventory(query: string, table: Option<seq<InvRow>>, decode: InventoryDecoder): (r: Option<seq<InvItem>>)
    ensures var q := Lower(query);
      !Contains(q, "wood") && !Contains(q, "metal") && !ContainsAny(q, BreadthWords) ==> r == Some([Unavailable])
  {
    InventoryFor(InvMentionsOf(Lower(query)), table, decode)
  }

  // ----- Generated-SQL helpers -----

  function ResultLines<V>(rows: seq<seq<V>>, showRow: seq<V> -> string): (lines: seq<string>)
    ensures |lines| == |rows|
    ensures forall k :: 0 <= k < |rows| ==> lines[k] == showRow(rows[k])
  {
    seq(|rows|, k requires 0 <= k < |rows| => showRow(rows[k]))
  }

  /** `format_query_result(result)`. `show` is `str` of one value and
      `showRow` is `str` of one row tuple. */
  function FormatQueryResult<V>(rows: seq<seq<V>>, show: V -> string, showRow: seq<V> -> string): (r: string)
    ensures rows == [] ==> r == "No data found."
    ensures |rows| == 1 && |rows[0]| == 1 ==> r == show(rows[0][0])
  {
    if rows == [] then "No data found."
    else if |rows| == 1 && |rows[0]| == 1 then show(rows[0][0])
    else Join(ResultLines(rows, showRow), "\n")
  }

  /** Any other result is one line per row, in row order, as long as no row's
      text holds a line break. */
  lemma FormatQueryResultLines<V>(rows: seq<seq<V>>, show: V -> string, showRow: seq<V> -> string)
    requires |rows| > 0 && !(|rows| == 1 && |rows[0]| == 1)
    requires forall k :: 0 <= k < |rows| ==> '\n' !in showRow(rows[k])
    ensures Split(FormatQueryResult(rows, show, showRow), '\n') == ResultLines(rows, showRow)
  {
    SplitJoin(ResultLines(rows, showRow), '\n');
  }

  const SqlOpen: string := "```sql\n"
  const SqlClose: string := "\n```"

  /** The first occurrence of `pat` in `s` at or after `k`. */
  function FindFrom(s: string, pat: string, k: nat): (r: Option<nat>)
    ensures r.Some? ==> k <= r.value && OccursAt(s, pat, r.value)
    ensures r.Some? ==> forall m :: k <= m < r.value ==> !OccursAt(s, pat, m)
    ensures r.None? ==> forall m :: k <= m ==> !OccursAt(s, pat, m)
    decreases |s| - k
  {
    if k + |pat| > |s| then None
    else if s[k..k + |pat|] == pat then Some(k)
    else FindFrom(s, pat, k + 1)
  }

  /** `s` holds an opening fence at `i` and a closing fence at `j` after it. */
  predicate SqlBlockAt(s: string, i: int, j: int) {
    OccursAt(s, SqlOpen, i) && i + |SqlOpen| <= j && OccursAt(s, SqlClose, j)
  }

  /** `parse_final_answer`: the stripped body of the first `sql` fenced
      block, the body being as short as possible and free to span lines. */
  function ParseFinalAnswer(output: string): (r: Result<string, string>)
    ensures r.Success? <==> exists i, j :: SqlBlockAt(output, i, j)
    ensures r.Failure? ==> r.error == "SQL query not found in the response."
    ensures r.Success? ==> exists i, j :: SqlBlockAt(output, i, j) && r.value == Strip(output[i + |SqlOpen|..j])
                                && (forall m :: 0 <= m < i ==> !OccursAt(output, SqlOpen, m))
                                && (forall m :: i + |SqlOpen| <= m < j ==> !OccursAt(output, SqlClose, m))
  {
    match FindFrom(output, SqlOpen, 0)
    case None => Failure("SQL query not found in the response.")
    case Some(i) =>
      match FindFrom(output, SqlClose, i + |SqlOpen|)
      case None =>
        Failure("SQL query not found in the response.")
      case Some(j) =>
        assert SqlBlockAt(output, i, j);
        Success(Strip(output[i + |SqlOpen|..j]))
  }

  /** A reply that is exactly one fenced block gives back its body, provided
      the body holds no closing fence and has no surrounding whitespace. */
  lemma ParseFencedBody(body: string)
    requires !Contains(body, SqlClose)
    requires body == [] || (!IsSpace(body[0]) && !IsSpace(body[|body| - 1]))
    ensures ParseFinalAnswer(SqlOpen + body + SqlClose) == Success(body)
  {
    var s := SqlOpen + body + SqlClose;
    var n := |SqlOpen|;
    assert OccursAt(s, SqlOpen, 0);
    assert OccursAt(s, SqlClose, n + |body|) by { assert s[n + |body|..] == SqlClose; }
    forall m | n <= m < n + |body| ensures !OccursAt(s, SqlClose, m) {
      NoCloseInBody(body, m);
    }
    assert FindFrom(s, SqlClose, n) == Some(n + |body|);
    assert s[n..n + |body|] == body;
    StripOfNoSpace(body);
  }

  /** Inside the body of a fenced block no closing fence starts. */
  lemma NoCloseInBody(body: string, m: nat)
    requires !Contains(body, SqlClose)
    requires |SqlOpen| <= m < |SqlOpen| + |body|
    ensures !OccursAt(SqlOpen + body + SqlClose, SqlClose, m)
  {
    var s, n := SqlOpen + body + SqlClose, |SqlOpen|;
    if m + |SqlClose| <= n + |body| {
      assert s[m..m + |SqlClose|] == body[m - n..m - n + |SqlClose|];
      assert !OccursAt(body, SqlClose, m - n);
    } else {
      var p := n + |body| - m;
      assert s[m + p] == '\n' && SqlClose[p] == '`';
      assert m + |SqlClose| > |s| || s[m..m + |SqlClose|][p] != SqlClose[p];
    }
  }
}
