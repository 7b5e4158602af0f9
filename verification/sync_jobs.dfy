/** The bodies of the four sync jobs of `database_services.py`, each a
    transformer from the table before the run to the table it commits. A table
    is a sequence of rows; the feed a job fetches is an input. A lookup by key
    (`filter_by(...).first()`) sees the rows written earlier in the same run. */
module SyncJobs {
  import opened Wrappers
  import opened Seqs
  import opened Tables
  import opened Text
  import opened Utils

  // ---------------------------------------------------------------------
  // Upsert by key

  /** The table after one upsert: the first row `p` selects becomes `u` of
      itself; when `p` selects none, `added` is appended. */
  function Upsert<T>(t: seq<T>, p: T -> bool, u: T -> T, added: T): (r: seq<T>)
    ensures |t| <= |r| <= |t| + 1
    ensures |r| == |t| + 1 <==> forall j :: 0 <= j < |t| ==> !p(t[j])
    ensures |r| == |t| + 1 ==> r == t + [added]
  {
    if t == [] then [added]
    else if p(t[0]) then [u(t[0])] + t[1..]
    else
      var rest := Upsert(t[1..], p, u, added);
      assert forall j :: 1 <= j < |t| ==> t[1..][j - 1] == t[j];
      [t[0]] + rest
  }

  /** Positionally: the upsert updates the row at the first index `p`
      selects and leaves every other row where it was. */
  lemma {:induction false} UpsertAt<T>(t: seq<T>, p: T -> bool, u: T -> T, added: T, i: nat)
    requires i < |t| && p(t[i])
    requires forall j :: 0 <= j < i ==> !p(t[j])
    ensures Upsert(t, p, u, added) == t[i := u(t[i])]
  {
    if i > 0 {
      UpsertAt(t[1..], p, u, added, i - 1);
      assert t[1..][i - 1 := u(t[i])] == t[i := u(t[i])][1..];
    }
  }

  /** The rows `p` selects after an upsert: the first of them updated, or the
      added row when there was none. */
  lemma {:induction false} UpsertSelected<T>(t: seq<T>, p: T -> bool, u: T -> T, added: T)
    requires forall x :: p(x) ==> p(u(x))
    requires p(added)
    ensures var before := Filter(t, p);
      Filter(Upsert(t, p, u, added), p) == if before == [] then [added] else [u(before[0])] + before[1..]
  {
    if t == [] {
      assert Filter([added], p) == [added] + Filter([added][1..], p);
    } else if p(t[0]) {
      var r := [u(t[0])] + t[1..];
      assert r[0] == u(t[0]) && r[1..] == t[1..];
      assert Filter(r, p) == [u(t[0])] + Filter(t[1..], p);
      assert Filter(t, p) == [t[0]] + Filter(t[1..], p);
    } else {
      var rest := Upsert(t[1..], p, u, added);
      UpsertSelected(t[1..], p, u, added);
      var r := [t[0]] + rest;
      assert r[0] == t[0] && r[1..] == rest;
      assert Filter(r, p) == Filter(rest, p);
      assert Filter(t, p) == Filter(t[1..], p);
    }
  }

  /** The rows a selector disjoint from the upserted key picks are the same
      before and after. */
  lemma {:induction false} UpsertOthers<T>(t: seq<T>, p: T -> bool, u: T -> T, added: T, q: T -> bool)
    requires forall x :: p(x) ==> !q(x) && !q(u(x))
    requires !q(added)
    ensures Filter(Upsert(t, p, u, added), q) == Filter(t, q)
  {
    if t == [] {
      assert Filter([added], q) == [] + Filter([added][1..], q);
    } else if p(t[0]) {
      var r := [u(t[0])] + t[1..];
      assert r[1..] == t[1..];
    } else {
      UpsertOthers(t[1..], p, u, added, q);
      var r := [t[0]] + Upsert(t[1..], p, u, added);
      assert r[1..] == Upsert(t[1..], p, u, added);
    }
  }

  /** Upserting the same record twice is upserting it once, when writing a
      row's new values twice is writing them once. */
  lemma {:induction false} UpsertIdempotent<T>(t: seq<T>, p: T -> bool, u: T -> T, added: T)
    requires forall x :: p(x) ==> p(u(x)) && u(u(x)) == u(x)
    requires p(added) && u(added) == added
    ensures Upsert(Upsert(t, p, u, added), p, u, added) == Upsert(t, p, u, added)
  {
    if t != [] && !p(t[0]) {
      UpsertIdempotent(t[1..], p, u, added);
      var r := [t[0]] + Upsert(t[1..], p, u, added);
      assert r[1..] == Upsert(t[1..], p, u, added);
    } else if t != [] {
      var r := [u(t[0])] + t[1..];
      assert r[1..] == t[1..];
    }
  }

  /** An upsert keyed by `key(added)` adds that key and no other. */
  lemma {:induction false} UpsertKeys<T, K>(t: seq<T>, p: T -> bool, u: T -> T, added: T, key: T -> K)
    requires forall x :: p(x) ==> key(x) == key(added) && key(u(x)) == key(x)
    ensures Keys(Upsert(t, p, u, added), key) == Keys(t, key) + {key(added)}
  {
    if t == [] {
      assert Keys([added], key) == {key(added)} + Keys([added][1..], key);
    } else if p(t[0]) {
      var r := [u(t[0])] + t[1..];
      assert r[1..] == t[1..];
    } else {
      UpsertKeys(t[1..], p, u, added, key);
      var r := [t[0]] + Upsert(t[1..], p, u, added);
      assert r[1..] == Upsert(t[1..], p, u, added);
    }
  }

  /** An upsert keeps the keys of a table distinct when updates keep a row's
      key and the added row's key is new whenever it is added. */
  lemma UpsertKeepsDistinct<T, K>(t: seq<T>, p: T -> bool, u: T -> T, added: T, key: T -> K)
    requires DistinctKeys(t, key)
    requires forall x :: key(u(x)) == key(x)
    requires (forall j :: 0 <= j < |t| ==> !p(t[j])) ==> forall j :: 0 <= j < |t| ==> key(t[j]) != key(added)
    ensures DistinctKeys(Upsert(t, p, u, added), key)
  {
    if forall j :: 0 <= j < |t| ==> !p(t[j]) {
      AppendNewKeepsDistinct(t, added, key);
    } else {
      var i :| 0 <= i < |t| && p(t[i]);
      var first := FirstSelected(t, p, i);
      UpsertAt(t, p, u, added, first);
      UpdateKeepsDistinct(t, first, u(t[first]), key);
    }
  }

  /** Appending a row whose key is new keeps keys distinct. */
  lemma AppendNewKeepsDistinct<T, K>(t: seq<T>, added: T, key: T -> K)
    requires DistinctKeys(t, key)
    requires forall j :: 0 <= j < |t| ==> key(t[j]) != key(added)
    ensures DistinctKeys(t + [added], key)
  {
    var r := t + [added];
    forall i, j | 0 <= i < j < |r|
      ensures key(r[i]) != key(r[j])
    {
      assert r[i] == t[i];
      if j < |t| { assert r[j] == t[j]; } else { assert r[j] == added; }
    }
  }

  /** Replacing a row by one with the same key keeps keys distinct. */
  lemma UpdateKeepsDistinct<T, K>(t: seq<T>, i: nat, v: T, key: T -> K)
    requires DistinctKeys(t, key)
    requires i < |t| && key(v) == key(t[i])
    ensures DistinctKeys(t[i := v], key)
  {
    var r := t[i := v];
    forall a, b | 0 <= a < b < |r|
      ensures key(r[a]) != key(r[b])
    {
      assert key(r[a]) == key(t[a]) && key(r[b]) == key(t[b]);
    }
  }

  /** The first index `p` selects, given that index `i` is selected. */
  function FirstSelected<T>(t: seq<T>, p: T -> bool, i: nat): (f: nat)
    requires i < |t| && p(t[i])
    ensures f <= i && p(t[f]) && forall j :: 0 <= j < f ==> !p(t[j])
  {
    if i == 0 || forall j :: 0 <= j < i ==> !p(t[j]) then i
    else
      var j :| 0 <= j < i && p(t[j]);
      FirstSelected(t, p, j)
  }

  // ---------------------------------------------------------------------
  // remove_duplicate_inventory

  function SkuOf(x: InvRow): string {
    x.sku
  }

  /** The primary key of `inv_new`. */
  function RowKey(x: InvRow): (string, string) {
    (x.id, x.sku)
  }

  /** No two rows share both id and sku, as the table's primary key demands. */
  predicate KeyUnique(t: seq<InvRow>) {
    DistinctKeys(t, RowKey)
  }

  /** No row of `x`'s sku has a smaller id: `x` is the first of its sku when
      the rows of that sku are ordered by id. */
  predicate FirstOfSku(t: seq<InvRow>, x: InvRow) {
    forall y :: y in t && y.sku == x.sku ==> !StrLess(y.id, x.id)
  }

  function IsFirstOfSku(t: seq<InvRow>): InvRow -> bool {
    (x: InvRow) => FirstOfSku(t, x)
  }

  /** A row of the least id among `s`. */
  function MinId(s: seq<InvRow>): (m: InvRow)
    requires s != []
    ensures m in s
    ensures forall y :: y in s ==> !StrLess(y.id, m.id)
  {
    if |s| == 1 then
      StrLessIrreflexive(s[0].id);
      s[0]
    else
      var rest := MinId(s[1..]);
      assert s == [s[0]] + s[1..];
      if StrLess(s[0].id, rest.id) then
        assert forall y :: y in s[1..] ==> !StrLess(y.id, s[0].id) by {
          forall y | y in s[1..] ensures !StrLess(y.id, s[0].id) {
            if StrLess(y.id, s[0].id) {
              StrLessTransitive(y.id, s[0].id, rest.id);
            }
          }
        }
        StrLessIrreflexive(s[0].id);
        s[0]
      else rest
  }

  /** `remove_duplicate_inventory`: of the rows sharing a sku, only the one
      of least id remains; the table order of the remaining rows is kept. */
  function RemoveDuplicateInventory(t: seq<InvRow>): (r: seq<InvRow>)
    ensures forall x :: x in r <==> x in t && FirstOfSku(t, x)
    ensures KeyUnique(t) ==> KeyUnique(r) && DistinctKeys(r, SkuOf)
  {
    var r := Filter(t, IsFirstOfSku(t));
    if KeyUnique(t) then
      FilterKeepsDistinctKeys(t, IsFirstOfSku(t), RowKey);
      SurvivorsDistinct(t, r);
      r
    else r
  }

  /** Two surviving rows of one sku would have equal ids, so with a unique
      primary key the survivors have distinct skus. */
  lemma SurvivorsDistinct(t: seq<InvRow>, r: seq<InvRow>)
    requires KeyUnique(r)
    requires forall x :: x in r ==> x in t && FirstOfSku(t, x)
    ensures DistinctKeys(r, SkuOf)
  {
    forall i, j | 0 <= i < j < |r| ensures SkuOf(r[i]) != SkuOf(r[j]) {
      if r[i].sku == r[j].sku {
        assert r[i] in r && r[j] in r;
        assert RowKey(r[i]) != RowKey(r[j]);
        StrLessTotal(r[i].id, r[j].id);
      }
    }
  }

  /** The clean-up keeps every sku of the table. */
  lemma RemoveDuplicateInventoryKeepsSkus(t: seq<InvRow>)
    ensures Keys(RemoveDuplicateInventory(t), SkuOf) == Keys(t, SkuOf)
  {
    var r := RemoveDuplicateInventory(t);
    forall k | k in Keys(t, SkuOf) ensures k in Keys(r, SkuOf) {
      var i :| 0 <= i < |t| && SkuOf(t[i]) == k;
      var m := Survivor(t, t[i]);
      var n :| 0 <= n < |r| && r[n] == m;
    }
    forall k | k in Keys(r, SkuOf) ensures k in Keys(t, SkuOf) {
      var n :| 0 <= n < |r| && SkuOf(r[n]) == k;
      assert r[n] in r;
      assert r[n] in t;
    }
  }

  /** The row of `x`'s sku that the clean-up keeps. */
  function Survivor(t: seq<InvRow>, x: InvRow): (m: InvRow)
    requires x in t
    ensures m in RemoveDuplicateInventory(t) && m.sku == x.sku
  {
    var rows := Filter(t, SkuIs(x.sku));
    var m := MinId(rows);
    assert FirstOfSku(t, m) by {
      forall y | y in t && y.sku == m.sku ensures !StrLess(y.id, m.id) {
        assert y in rows;
      }
    }
    m
  }

  /** A table whose skus are already distinct is left as it is. */
  lemma RemoveDuplicateInventoryOfClean(t: seq<InvRow>)
    requires DistinctKeys(t, SkuOf)
    ensures RemoveDuplicateInventory(t) == t
  {
    forall k | 0 <= k < |t| ensures IsFirstOfSku(t)(t[k]) {
      forall y | y in t && y.sku == t[k].sku ensures !StrLess(y.id, t[k].id) {
        var j :| 0 <= j < |t| && t[j] == y;
        assert SkuOf(t[j]) == SkuOf(t[k]);
        StrLessIrreflexive(y.id);
      }
    }
    FilterAll(t, IsFirstOfSku(t));
  }

  // ---------------------------------------------------------------------
  // extensive_inv_data

  /** An inventory record of the feed: its sku and its `json.dumps` text. */
  datatype InvRecord = InvRecord(sku: string, dumped: string)

  function RecSku(rec: InvRecord): string {
    rec.sku
  }

  function SkuIs(k: string): InvRow -> bool {
    (x: InvRow) => x.sku == k
  }

  /** The rows of sku `k`, in table order. */
  function RowsFor(t: seq<InvRow>, k: string): seq<InvRow> {
    Filter(t, SkuIs(k))
  }

  /** `categories.get(sku, "Unknown")`. */
  function CategoryFor(categories: map<string, string>, sku: string): string {
    if sku in categories then categories[sku] else "Unknown"
  }

  function SetInventoryJson(text: string): InvRow -> InvRow {
    (x: InvRow) => x.(json := text)
  }

  /** The row inserted for a sku the table lacks; `id` is the identifier the
      table's default assigns it. */
  function NewInvRow(rec: InvRecord, categories: map<string, string>, id: string): InvRow {
    InvRow(id, rec.sku, CategoryFor(categories, rec.sku), JsonToText(rec.dumped))
  }

  /** One pass of the loop of `extensive_inv_data`: an existing sku gets the
      record's text as its `inventory_json` and nothing else; a new sku is
      inserted with its category from the map, or "Unknown". */
  function UpsertInventory(t: seq<InvRow>, rec: InvRecord, categories: map<string, string>, id: string): (r: seq<InvRow>)
    ensures var before := RowsFor(t, rec.sku);
      RowsFor(r, rec.sku) == if before == [] then [NewInvRow(rec, categories, id)]
                             else [before[0].(json := JsonToText(rec.dumped))] + before[1..]
    ensures Keys(r, SkuOf) == Keys(t, SkuOf) + {rec.sku}
    ensures DistinctKeys(t, SkuOf) ==> DistinctKeys(r, SkuOf)
    ensures KeyUnique(t) ==> KeyUnique(r)
  {
    var p, u, added := SkuIs(rec.sku), SetInventoryJson(JsonToText(rec.dumped)), NewInvRow(rec, categories, id);
    UpsertSelected(t, p, u, added);
    UpsertKeys(t, p, u, added, SkuOf);
    if DistinctKeys(t, SkuOf) then
      UpsertKeepsDistinct(t, p, u, added, SkuOf);
      UpsertKeepsDistinct(t, p, u, added, RowKey);
      Upsert(t, p, u, added)
    else if KeyUnique(t) then
      UpsertKeepsDistinct(t, p, u, added, RowKey);
      Upsert(t, p, u, added)
    else Upsert(t, p, u, added)
  }

  /** The rows of every other sku are untouched by an inventory upsert. */
  lemma UpsertInventoryLeavesOthers(t: seq<InvRow>, rec: InvRecord, categories: map<string, string>, id: string, k: string)
    requires k != rec.sku
    ensures RowsFor(UpsertInventory(t, rec, categories, id), k) == RowsFor(t, k)
  {
    UpsertOthers(t, SkuIs(rec.sku), SetInventoryJson(JsonToText(rec.dumped)), NewInvRow(rec, categories, id), SkuIs(k));
  }

  /** Running the same record twice leaves the table as running it once. */
  lemma UpsertInventoryIdempotent(t: seq<InvRow>, rec: InvRecord, categories: map<string, string>, id: string)
    ensures UpsertInventory(UpsertInventory(t, rec, categories, id), rec, categories, id)
         == UpsertInventory(t, rec, categories, id)
  {
    UpsertIdempotent(t, SkuIs(rec.sku), SetInventoryJson(JsonToText(rec.dumped)), NewInvRow(rec, categories, id));
  }

  /** The loop of `extensive_inv_data` over the feed from position `pos` on;
      `freshId(n)` is the id a row inserted for the feed's `n`-th record gets. */
  function ApplyInventory(t: seq<InvRow>, feed: seq<InvRecord>, categories: map<string, string>, freshId: nat -> string, pos: nat): (r: seq<InvRow>)
    ensures Keys(r, SkuOf) == Keys(t, SkuOf) + Keys(feed, RecSku)
    decreases |feed|
  {
    if feed == [] then t
    else
      var next := UpsertInventory(t, feed[0], categories, freshId(pos));
      ApplyInventory(next, feed[1..], categories, freshId, pos + 1)
  }

  /** The loop keeps skus pairwise distinct. */
  lemma {:induction false} ApplyInventoryKeepsDistinct(t: seq<InvRow>, feed: seq<InvRecord>, categories: map<string, string>, freshId: nat -> string, pos: nat)
    requires DistinctKeys(t, SkuOf)
    ensures DistinctKeys(ApplyInventory(t, feed, categories, freshId, pos), SkuOf)
    decreases |feed|
  {
    if feed != [] {
      ApplyInventoryKeepsDistinct(UpsertInventory(t, feed[0], categories, freshId(pos)), feed[1..], categories, freshId, pos + 1);
    }
  }

  /** The loop keeps the primary key unique. */
  lemma {:induction false} ApplyInventoryKeepsKeyUnique(t: seq<InvRow>, feed: seq<InvRecord>, categories: map<string, string>, freshId: nat -> string, pos: nat)
    requires KeyUnique(t)
    ensures KeyUnique(ApplyInventory(t, feed, categories, freshId, pos))
    decreases |feed|
  {
    if feed != [] {
      ApplyInventoryKeepsKeyUnique(UpsertInventory(t, feed[0], categories, freshId(pos)), feed[1..], categories, freshId, pos + 1);
    }
  }

  /** The last record of the feed for sku `k`. */
  function LastFor(feed: seq<InvRecord>, k: string): (rec: InvRecord)
    requires k in Keys(feed, RecSku)
    ensures rec in feed && rec.sku == k
  {
    if feed[0].sku == k && k !in Keys(feed[1..], RecSku) then feed[0] else LastFor(feed[1..], k)
  }

  /** A sku the feed does not mention keeps its rows. */
  lemma {:induction false} ApplyInventoryLeavesOthers(t: seq<InvRow>, feed: seq<InvRecord>, categories: map<string, string>, freshId: nat -> string, pos: nat, k: string)
    requires k !in Keys(feed, RecSku)
    ensures RowsFor(ApplyInventory(t, feed, categories, freshId, pos), k) == RowsFor(t, k)
    decreases |feed|
  {
    if feed != [] {
      var next := UpsertInventory(t, feed[0], categories, freshId(pos));
      UpsertInventoryLeavesOthers(t, feed[0], categories, freshId(pos), k);
      ApplyInventoryLeavesOthers(next, feed[1..], categories, freshId, pos + 1, k);
    }
  }

  /** For a sku the feed mentions, the first row of that sku holds the text
      of the feed's last record for it. */
  lemma {:induction false} ApplyInventoryLastWins(t: seq<InvRow>, feed: seq<InvRecord>, categories: map<string, string>, freshId: nat -> string, pos: nat, k: string)
    requires k in Keys(feed, RecSku)
    ensures var rows := RowsFor(ApplyInventory(t, feed, categories, freshId, pos), k);
      rows != [] && rows[0].json == JsonToText(LastFor(feed, k).dumped)
    decreases |feed|
  {
    var next := UpsertInventory(t, feed[0], categories, freshId(pos));
    if k in Keys(feed[1..], RecSku) {
      ApplyInventoryLastWins(next, feed[1..], categories, freshId, pos + 1, k);
    } else {
      ApplyInventoryLeavesOthers(next, feed[1..], categories, freshId, pos + 1, k);
    }
  }

  /** `extensive_inv_data`: the upsert loop over the feed, then the
      duplicate clean-up. The feed is `None` when the request, its JSON or
      its `"response"` key failed, which makes the job raise before any row
      changes. */
  function ExtensiveInvData(t: seq<InvRow>, feed: Option<seq<InvRecord>>, categories: map<string, string>, freshId: nat -> string): (r: Option<seq<InvRow>>)
    ensures r.None? <==> feed.None?
    ensures r.Some? && KeyUnique(t) ==> DistinctKeys(r.value, SkuOf)
    ensures r.Some? ==> Keys(r.value, SkuOf) == Keys(t, SkuOf) + Keys(feed.value, RecSku)
  {
    match feed
    case None => None
    case Some(records) =>
      var upserted := ApplyInventory(t, records, categories, freshId, 0);
      if KeyUnique(t) then
        ApplyInventoryKeepsKeyUnique(t, records, categories, freshId, 0);
        RemoveDuplicateInventoryKeepsSkus(upserted);
        Some(RemoveDuplicateInventory(upserted))
      else
        RemoveDuplicateInventoryKeepsSkus(upserted);
        Some(RemoveDuplicateInventory(upserted))
  }

  /** On a table without duplicate skus, every sku of the feed ends up in
      exactly one row, holding the text of the feed's last record for it. */
  lemma ExtensiveInvDataLastWins(t: seq<InvRow>, feed: seq<InvRecord>, categories: map<string, string>, freshId: nat -> string, k: string)
    requires DistinctKeys(t, SkuOf) && k in Keys(feed, RecSku)
    ensures ExtensiveInvData(t, Some(feed), categories, freshId).Some?
    ensures var rows := RowsFor(ExtensiveInvData(t, Some(feed), categories, freshId).value, k);
      |rows| == 1 && rows[0].json == JsonToText(LastFor(feed, k).dumped)
  {
    var upserted := ApplyInventory(t, feed, categories, freshId, 0);
    ApplyInventoryKeepsDistinct(t, feed, categories, freshId, 0);
    RemoveDuplicateInventoryOfClean(upserted);
    assert ExtensiveInvData(t, Some(feed), categories, freshId) == Some(upserted);
    ApplyInventoryLastWins(t, feed, categories, freshId, 0, k);
    var rows := RowsFor(upserted, k);
    FilterKeepsDistinctKeys(upserted, SkuIs(k), SkuOf);
    AtMostOneOfSku(rows, k);
  }

  /** Rows of a single sku with pairwise distinct skus are at most one. */
  lemma AtMostOneOfSku(rows: seq<InvRow>, k: string)
    requires forall x :: x in rows ==> x.sku == k
    ensures DistinctKeys(rows, SkuOf) ==> |rows| <= 1
  {
    if |rows| > 1 {
      assert rows[0] in rows && rows[1] in rows;
    }
  }

  // ---------------------------------------------------------------------
  // update_bigcommerce_order_embeddings and remove_duplicate_orders

  /** An order record of the feed: its purchase order number, customer
      reference and status, and its `json.dumps` text. */
  datatype OrderRecord = OrderRecord(poNo: string, custRef: string, status: string, dumped: string)

  function RecPo(rec: OrderRecord): string {
    rec.poNo
  }

  function PoOf(x: OrderRow): string {
    x.poNo
  }

  function PoIs(k: string): OrderRow -> bool {
    (x: OrderRow) => x.poNo == k
  }

  /** The rows of purchase order `k`, in table order. */
  function OrderRowsFor(t: seq<OrderRow>, k: string): seq<OrderRow> {
    Filter(t, PoIs(k))
  }

  function SetOrderFields(status: string, text: string): OrderRow -> OrderRow {
    (x: OrderRow) => x.(status := status, json := text)
  }

  /** The row inserted for a new purchase order; the mapping sets no source
      and no date. */
  function NewOrderRow(rec: OrderRecord): OrderRow {
    OrderRow(rec.poNo, rec.custRef, rec.status, None, None, JsonToText(rec.dumped))
  }

  /** The rows of a purchase order after `rec` is upserted, given its rows
      `before`: the first gets the record's status and text and keeps its
      customer reference, source and date; with no row, the new row. */
  function OrderRowsAfter(before: seq<OrderRow>, rec: OrderRecord): seq<OrderRow> {
    if before == [] then [NewOrderRow(rec)]
    else [before[0].(status := rec.status, json := JsonToText(rec.dumped))] + before[1..]
  }

  /** One upsert of the order sync: an existing purchase order gets the
      record's status and text and keeps its customer reference (and its
      source and date); a new one is inserted. */
  function UpsertOrder(t: seq<OrderRow>, rec: OrderRecord): (r: seq<OrderRow>)
    ensures OrderRowsFor(r, rec.poNo) == OrderRowsAfter(OrderRowsFor(t, rec.poNo), rec)
    ensures Keys(r, PoOf) == Keys(t, PoOf) + {rec.poNo}
    ensures DistinctKeys(t, PoOf) ==> DistinctKeys(r, PoOf)
  {
    var p, u, added := PoIs(rec.poNo), SetOrderFields(rec.status, JsonToText(rec.dumped)), NewOrderRow(rec);
    UpsertSelected(t, p, u, added);
    UpsertKeys(t, p, u, added, PoOf);
    if DistinctKeys(t, PoOf) then
      UpsertKeepsDistinct(t, p, u, added, PoOf);
      Upsert(t, p, u, added)
    else Upsert(t, p, u, added)
  }

  /** The rows of every other purchase order are untouched by an order upsert. */
  lemma UpsertOrderLeavesOthers(t: seq<OrderRow>, rec: OrderRecord, k: string)
    requires k != rec.poNo
    ensures OrderRowsFor(UpsertOrder(t, rec), k) == OrderRowsFor(t, k)
  {
    UpsertOthers(t, PoIs(rec.poNo), SetOrderFields(rec.status, JsonToText(rec.dumped)), NewOrderRow(rec), PoIs(k));
  }

  /** Upserting every record of `recs` in turn. */
  function ApplyOrders(t: seq<OrderRow>, recs: seq<OrderRecord>): (r: seq<OrderRow>)
    ensures Keys(r, PoOf) == Keys(t, PoOf) + Keys(recs, RecPo)
    decreases |recs|
  {
    if recs == [] then t else ApplyOrders(UpsertOrder(t, recs[0]), recs[1..])
  }

  /** The loop of the order sync from some point on: a record whose purchase
      order was already handled in this run is skipped. */
  function SyncOrdersFrom(t: seq<OrderRow>, processed: set<string>, recs: seq<OrderRecord>): (r: seq<OrderRow>)
    ensures DistinctKeys(t, PoOf) ==> DistinctKeys(r, PoOf)
    decreases |recs|
  {
    if recs == [] then t
    else if recs[0].poNo in processed then SyncOrdersFrom(t, processed, recs[1..])
    else SyncOrdersFrom(UpsertOrder(t, recs[0]), processed + {recs[0].poNo}, recs[1..])
  }

  /** Skipping handled purchase orders is upserting only the first record of
      each purchase order not handled before. */
  lemma {:induction false} SyncOrdersKeepsFirst(t: seq<OrderRow>, processed: set<string>, recs: seq<OrderRecord>)
    ensures SyncOrdersFrom(t, processed, recs) == ApplyOrders(t, KeepFirstBy(recs, RecPo, processed))
    decreases |recs|
  {
    if recs != [] {
      if recs[0].poNo in processed {
        SyncOrdersKeepsFirst(t, processed, recs[1..]);
      } else {
        var next := UpsertOrder(t, recs[0]);
        SyncOrdersKeepsFirst(next, processed + {recs[0].poNo}, recs[1..]);
        var kept := KeepFirstBy(recs[1..], RecPo, processed + {recs[0].poNo});
        assert KeepFirstBy(recs, RecPo, processed) == [recs[0]] + kept;
        assert ([recs[0]] + kept)[1..] == kept;
      }
    }
  }

  /** The first record of purchase order `k` in `recs`. */
  function FirstFor(recs: seq<OrderRecord>, k: string): (rec: OrderRecord)
    requires k in Keys(recs, RecPo)
    ensures rec in recs && rec.poNo == k
  {
    if recs[0].poNo == k then recs[0] else FirstFor(recs[1..], k)
  }

  /** A purchase order already handled, or absent from the remaining records,
      keeps its rows. */
  lemma {:induction false} SyncOrdersLeaves(t: seq<OrderRow>, processed: set<string>, recs: seq<OrderRecord>, k: string)
    requires k in processed || k !in Keys(recs, RecPo)
    ensures OrderRowsFor(SyncOrdersFrom(t, processed, recs), k) == OrderRowsFor(t, k)
    decreases |recs|
  {
    if recs != [] {
      if recs[0].poNo in processed {
        SyncOrdersLeaves(t, processed, recs[1..], k);
      } else {
        UpsertOrderLeavesOthers(t, recs[0], k);
        SyncOrdersLeaves(UpsertOrder(t, recs[0]), processed + {recs[0].poNo}, recs[1..], k);
      }
    }
  }

  /** The rows of a purchase order not yet handled are those after an upsert
      of its first record; later records for it are skipped. */
  lemma {:induction false} SyncOrdersFirstWins(t: seq<OrderRow>, processed: set<string>, recs: seq<OrderRecord>, k: string)
    requires k !in processed && k in Keys(recs, RecPo)
    ensures OrderRowsFor(SyncOrdersFrom(t, processed, recs), k) == OrderRowsAfter(OrderRowsFor(t, k), FirstFor(recs, k))
    decreases |recs|
  {
    if recs[0].poNo in processed {
      SyncOrdersFirstWins(t, processed, recs[1..], k);
    } else if recs[0].poNo == k {
      SyncOrdersLeaves(UpsertOrder(t, recs[0]), processed + {k}, recs[1..], k);
    } else {
      UpsertOrderLeavesOthers(t, recs[0], k);
      SyncOrdersFirstWins(UpsertOrder(t, recs[0]), processed + {recs[0].poNo}, recs[1..], k);
    }
  }

  /** The order statuses the sync fetches, in the order it fetches them. */
  const OrderSyncStatuses: seq<string> := ["new", "at_wms", "shipped_or_confirmed"]

  /** `remove_duplicate_orders`: one row per purchase order remains. The
      database returns the rows of a purchase order in no specified order; the
      order of `t` stands for it, and the first row in it survives. */
  function RemoveDuplicateOrders(t: seq<OrderRow>): (r: seq<OrderRow>)
    ensures DistinctKeys(r, PoOf)
    ensures forall x :: x in r ==> x in t
    ensures Keys(r, PoOf) == Keys(t, PoOf)
  {
    KeepFirstByKeys(t, PoOf, {});
    KeepFirstBy(t, PoOf, {})
  }

  /** A table without duplicate purchase orders is left as it is. */
  lemma RemoveDuplicateOrdersOfClean(t: seq<OrderRow>)
    requires DistinctKeys(t, PoOf)
    ensures RemoveDuplicateOrders(t) == t
  {
    KeepFirstByDistinct(t, PoOf, {});
  }

  /** `update_bigcommerce_order_embeddings`, given what the feed returns for
      each status (`None` for a failed request). A failed request makes the
      loop raise before anything is committed: `None`, the table unchanged.
      Otherwise the records of the three statuses are synced in fetch order,
      then duplicates are removed. */
  function UpdateOrders(t: seq<OrderRow>, fetch: string -> Option<seq<OrderRecord>>): (r: Option<seq<OrderRow>>)
    ensures r.None? <==> !FetchesOk(fetch)
    ensures r.Some? ==> DistinctKeys(r.value, PoOf)
    ensures r.Some? ==> Keys(r.value, PoOf) == Keys(t, PoOf) + Keys(AllFetched(fetch), RecPo)
  {
    if !FetchesOk(fetch) then None
    else
      var all := AllFetched(fetch);
      SyncOrdersKeepsFirst(t, {}, all);
      KeepFirstByKeys(all, RecPo, {});
      Some(RemoveDuplicateOrders(SyncOrdersFrom(t, {}, all)))
  }

  /** On a table without duplicate purchase orders, a purchase order the feed
      mentions ends in one row: its first record in fetch order (new, then
      at_wms, then shipped_or_confirmed) sets status and text, and an existing
      row keeps its customer reference. */
  lemma UpdateOrdersFirstWins(t: seq<OrderRow>, fetch: string -> Option<seq<OrderRecord>>, k: string)
    requires DistinctKeys(t, PoOf)
    requires FetchesOk(fetch)
    requires k in Keys(AllFetched(fetch), RecPo)
    ensures UpdateOrders(t, fetch).Some?
    ensures var rows := OrderRowsFor(UpdateOrders(t, fetch).value, k);
      var first := FirstFor(AllFetched(fetch), k);
      |rows| == 1 && rows[0].status == first.status && rows[0].json == JsonToText(first.dumped)
      && (OrderRowsFor(t, k) != [] ==> rows[0].custRef == OrderRowsFor(t, k)[0].custRef)
  {
    var all := AllFetched(fetch);
    var synced := SyncOrdersFrom(t, {}, all);
    RemoveDuplicateOrdersOfClean(synced);
    assert UpdateOrders(t, fetch) == Some(synced);
    SyncedFirstWins(t, all, k);
  }

  /** The same for the sync loop alone, over all fetched records. */
  lemma SyncedFirstWins(t: seq<OrderRow>, all: seq<OrderRecord>, k: string)
    requires DistinctKeys(t, PoOf) && k in Keys(all, RecPo)
    ensures var rows := OrderRowsFor(SyncOrdersFrom(t, {}, all), k);
      var first := FirstFor(all, k);
      |rows| == 1 && rows[0].status == first.status && rows[0].json == JsonToText(first.dumped)
      && (OrderRowsFor(t, k) != [] ==> rows[0].custRef == OrderRowsFor(t, k)[0].custRef)
  {
    var rows := OrderRowsFor(SyncOrdersFrom(t, {}, all), k);
    var first := FirstFor(all, k);
    var before := OrderRowsFor(t, k);
    SyncOrdersFirstWins(t, {}, all, k);
    assert rows == OrderRowsAfter(before, first);
    FilterKeepsDistinctKeys(t, PoIs(k), PoOf);
    OneRowPerPo(before, k);
    if before == [] {
      assert rows == [NewOrderRow(first)];
    } else {
      assert rows == [before[0].(status := first.status, json := JsonToText(first.dumped))];
    }
  }

  /** Rows of a single purchase order with pairwise distinct purchase orders
      are at most one. */
  lemma OneRowPerPo(rows: seq<OrderRow>, k: string)
    requires forall x :: x in rows ==> x.poNo == k
    ensures DistinctKeys(rows, PoOf) ==> |rows| <= 1
  {
    if |rows| > 1 {
      assert rows[0] in rows && rows[1] in rows;
    }
  }

  /** Every status of the sync was fetched successfully. */
  predicate FetchesOk(fetch: string -> Option<seq<OrderRecord>>) {
    fetch(OrderSyncStatuses[0]).Some? && fetch(OrderSyncStatuses[1]).Some? && fetch(OrderSyncStatuses[2]).Some?
  }

  /** The records of the three statuses, in fetch order. */
  function AllFetched(fetch: string -> Option<seq<OrderRecord>>): seq<OrderRecord> {
    fetch("new").GetOr([]) + fetch("at_wms").GetOr([]) + fetch("shipped_or_confirmed").GetOr([])
  }

  // ---------------------------------------------------------------------
  // update_product_embedding

  /** A product of the feed: its id and name, and its `str(product)` text. */
  datatype ProductRecord = ProductRecord(id: int, name: string, repr: string)

  function ProductIs(id: int): ProductRow -> bool {
    (x: ProductRow) => x.productId == id
  }

  function ProductIdOf(x: ProductRow): int {
    x.productId
  }

  function SetProductJson(text: string): ProductRow -> ProductRow {
    (x: ProductRow) => x.(json := text)
  }

  /** One upsert of the product sync, keyed by product id: an existing product
      gets only its `product_json` replaced. */
  function UpsertProduct(t: seq<ProductRow>, rec: ProductRecord): (r: seq<ProductRow>)
    ensures var before := Filter(t, ProductIs(rec.id));
      Filter(r, ProductIs(rec.id)) == if before == [] then [ProductRow(rec.id, rec.name, rec.repr)]
        else [before[0].(json := rec.repr)] + before[1..]
    ensures Keys(r, ProductIdOf) == Keys(t, ProductIdOf) + {rec.id}
  {
    var p, u, added := ProductIs(rec.id), SetProductJson(rec.repr), ProductRow(rec.id, rec.name, rec.repr);
    UpsertSelected(t, p, u, added);
    UpsertKeys(t, p, u, added, ProductIdOf);
    Upsert(t, p, u, added)
  }

  /** Other products are untouched, and a repeated record changes nothing more. */
  lemma UpsertProductFacts(t: seq<ProductRow>, rec: ProductRecord, other: int)
    requires other != rec.id
    ensures Filter(UpsertProduct(t, rec), ProductIs(other)) == Filter(t, ProductIs(other))
    ensures UpsertProduct(UpsertProduct(t, rec), rec) == UpsertProduct(t, rec)
  {
    var p, u, added := ProductIs(rec.id), SetProductJson(rec.repr), ProductRow(rec.id, rec.name, rec.repr);
    UpsertOthers(t, p, u, added, ProductIs(other));
    UpsertIdempotent(t, p, u, added);
  }

  function ApplyProducts(t: seq<ProductRow>, feed: seq<ProductRecord>): seq<ProductRow>
    decreases |feed|
  {
    if feed == [] then t else ApplyProducts(UpsertProduct(t, feed[0]), feed[1..])
  }

  function RecProductId(rec: ProductRecord): int {
    rec.id
  }

  /** `update_product_embedding` given the feed (`None` when the request
      failed, which makes the loop raise before anything is committed). */
  function UpdateProducts(t: seq<ProductRow>, feed: Option<seq<ProductRecord>>): (r: Option<seq<ProductRow>>)
    ensures r.None? <==> feed.None?
    ensures r.Some? ==> Keys(r.value, ProductIdOf) == Keys(t, ProductIdOf) + Keys(feed.value, RecProductId)
  {
    match feed
    case None => None
    case Some(products) =>
      ApplyProductsKeys(t, products);
      Some(ApplyProducts(t, products))
  }

  lemma {:induction false} ApplyProductsKeys(t: seq<ProductRow>, feed: seq<ProductRecord>)
    ensures Keys(ApplyProducts(t, feed), ProductIdOf) == Keys(t, ProductIdOf) + Keys(feed, RecProductId)
    decreases |feed|
  {
    if feed != [] {
      ApplyProductsKeys(UpsertProduct(t, feed[0]), feed[1..]);
    }
  }

  // ---------------------------------------------------------------------
  // update_bigcommerce_pages_embedding

  /** A page of the feed: its id and name, and its `str(page)` text. */
  datatype PageRecord = PageRecord(id: int, name: string, repr: string)

  function PageIs(id: int): PageRow -> bool {
    (x: PageRow) => x.pageId == id
  }

  function PageIdOf(x: PageRow): int {
    x.pageId
  }

  function SetPageFields(name: string, text: string): PageRow -> PageRow {
    (x: PageRow) => x.(name := name, json := text)
  }

  /** One upsert of the page sync, keyed by page id: an existing page gets its
      name and `page_json` replaced. */
  function UpsertPage(t: seq<PageRow>, rec: PageRecord): (r: seq<PageRow>)
    ensures var before := Filter(t, PageIs(rec.id));
      Filter(r, PageIs(rec.id)) == if before == [] then [PageRow(rec.id, rec.name, rec.repr)]
        else [before[0].(name := rec.name, json := rec.repr)] + before[1..]
    ensures Keys(r, PageIdOf) == Keys(t, PageIdOf) + {rec.id}
  {
    var p, u, added := PageIs(rec.id), SetPageFields(rec.name, rec.repr), PageRow(rec.id, rec.name, rec.repr);
    UpsertSelected(t, p, u, added);
    UpsertKeys(t, p, u, added, PageIdOf);
    Upsert(t, p, u, added)
  }

  /** Other pages are untouched, and a repeated record changes nothing more. */
  lemma UpsertPageFacts(t: seq<PageRow>, rec: PageRecord, other: int)
    requires other != rec.id
    ensures Filter(UpsertPage(t, rec), PageIs(other)) == Filter(t, PageIs(other))
    ensures UpsertPage(UpsertPage(t, rec), rec) == UpsertPage(t, rec)
  {
    var p, u, added := PageIs(rec.id), SetPageFields(rec.name, rec.repr), PageRow(rec.id, rec.name, rec.repr);
    UpsertOthers(t, p, u, added, PageIs(other));
    UpsertIdempotent(t, p, u, added);
  }

  function ApplyPages(t: seq<PageRow>, feed: seq<PageRecord>): seq<PageRow>
    decreases |feed|
  {
    if feed == [] then t else ApplyPages(UpsertPage(t, feed[0]), feed[1..])
  }

  function RecPageId(rec: PageRecord): int {
    rec.id
  }

  /** `update_bigcommerce_pages_embedding` given the feed (`None` when the
      request failed, which makes the loop raise before anything is
      committed). */
  function UpdatePages(t: seq<PageRow>, feed: Option<seq<PageRecord>>): (r: Option<seq<PageRow>>)
    ensures r.None? <==> feed.None?
    ensures r.Some? ==> Keys(r.value, PageIdOf) == Keys(t, PageIdOf) + Keys(feed.value, RecPageId)
  {
    match feed
    case None => None
    case Some(pages) =>
      ApplyPagesKeys(t, pages);
      Some(ApplyPages(t, pages))
  }

  lemma {:induction false} ApplyPagesKeys(t: seq<PageRow>, feed: seq<PageRecord>)
    ensures Keys(ApplyPages(t, feed), PageIdOf) == Keys(t, PageIdOf) + Keys(feed, RecPageId)
    decreases |feed|
  {
    if feed != [] {
      ApplyPagesKeys(UpsertPage(t, feed[0]), feed[1..]);
    }
  }
}
