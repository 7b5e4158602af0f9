/** The request path of the Slack handler: strategy selection in
    `create_conversational_chain`, resolution of vector-search hits against
    the table snapshots in `vector_store_retrieve`, and the deterministic
    replies of `handle_mention`. Language-model calls and similarity search
    are parameters; what the generation chain would answer is represented by
    the context it is given. */
module Assistant {
  import opened Wrappers
  import opened Seqs
  import opened Text
  import opened Tables
  import opened QueryService
  import opened OrderRetrieval
  import opened DataOperations

  // ----- Vector-hit resolution -----

  /** A similarity-search hit; only its metadata is read. */
  datatype Hit = Hit(metadata: map<string, string>)

  /** The `{str(id): json}` dictionaries built from the inventory, product
      and page tables. */
  datatype Snapshots = Snapshots(inventory: map<string, string>, products: map<string, string>, pages: map<string, string>)

  /** The page contents of the documents a similarity search returns for a
      text, best match first. */
  type Search = string -> seq<string>

  /** The hit's `metadata.get("id")`. */
  function HitId(h: Hit): Option<string> {
    if "id" in h.metadata then Some(h.metadata["id"]) else None
  }

  /** `fetch_product_from_vector_store(id)`: the content of the best match
      for `product:<id>`, or nothing. `str` renders a missing id as "None". */
  function FallbackLookup(id: Option<string>, search: Search): (r: Option<string>)
    ensures var found := search("product:" + id.GetOr("None"));
      (r.None? <==> found == []) && (r.Some? ==> r.value == found[0])
  {
    var found := search("product:" + id.GetOr("None"));
    if found == [] then None else Some(found[0])
  }

  /** Where a hit's content comes from. */
  datatype HitSource = FromInventory | FromProducts | FromFallback | FromPages | Unresolved

  predicate Known(id: Option<string>, snapshot: map<string, string>) {
    id.Some? && id.value in snapshot
  }

  /** The four-way precedence; the first case that applies wins. */
  function HitSourceOf(id: Option<string>, snaps: Snapshots, query: string, first: Category): (src: HitSource)
    ensures src == FromInventory <==> Known(id, snaps.inventory) && Contains(Lower(query), "inventory")
    ensures src == FromProducts <==>
      !(Known(id, snaps.inventory) && Contains(Lower(query), "inventory"))
      && Known(id, snaps.products) && Contains(Lower(Label(first)), "product")
    ensures src == FromFallback <==>
      !(Known(id, snaps.inventory) && Contains(Lower(query), "inventory"))
      && !Known(id, snaps.products) && Contains(Lower(Label(first)), "product")
    ensures src == FromPages <==>
      !(Known(id, snaps.inventory) && Contains(Lower(query), "inventory"))
      && !Contains(Lower(Label(first)), "product")
      && Known(id, snaps.pages) && Contains(Lower(query), "page")
  {
    var productCategory := Contains(Lower(Label(first)), "product");
    if Known(id, snaps.inventory) && Contains(Lower(query), "inventory") then FromInventory
    else if Known(id, snaps.products) && productCategory then FromProducts
    else if !Known(id, snaps.products) && productCategory then FromFallback
    else if Known(id, snaps.pages) && Contains(Lower(query), "page") then FromPages
    else Unresolved
  }

  /** Under the product category a hit is never looked up among the pages:
      whatever the inventory case leaves is a product or a fallback lookup. */
  lemma ProductCategorySkipsPages(id: Option<string>, snaps: Snapshots, query: string)
    ensures HitSourceOf(id, snaps, query, ProductQuery) != FromPages
    ensures HitSourceOf(id, snaps, query, ProductQuery) != Unresolved
  {
    LabelHasProduct(ProductQuery);
  }

  /** The document one hit yields, carrying the hit's metadata. */
  function ResolveHit(h: Hit, snaps: Snapshots, query: string, first: Category, search: Search): (d: Option<Document>)
    ensures d.Some? ==> d.value.metadata == Fields(h.metadata)
    ensures d.None? <==>
      var src := HitSourceOf(HitId(h), snaps, query, first);
      src == Unresolved || (src == FromFallback && FallbackLookup(HitId(h), search).None?)
  {
    var id := HitId(h);
    match HitSourceOf(id, snaps, query, first)
    case FromInventory => Some(Document(snaps.inventory[id.value], Fields(h.metadata)))
    case FromProducts => Some(Document(snaps.products[id.value], Fields(h.metadata)))
    case FromFallback =>
      (match FallbackLookup(id, search)
       case None => None
       case Some(content) => Some(Document(content, Fields(h.metadata))))
    case FromPages => Some(Document(snaps.pages[id.value], Fields(h.metadata)))
    case Unresolved => None
  }

  function AsSeq<T>(o: Option<T>): (r: seq<T>)
    ensures o.None? ==> r == []
    ensures o.Some? ==> r == [o.value]
  {
    match o
    case None => []
    case Some(x) => [x]
  }

  /** `vector_store_retrieve`: the documents of the hits that resolve, in hit order. */
  function RetrieveDocuments(hits: seq<Hit>, snaps: Snapshots, query: string, first: Category, search: Search): seq<Document> {
    FlatMap(hits, (h: Hit) => AsSeq(ResolveHit(h, snaps, query, first, search)))
  }

  /** At most one document per hit; every document is some hit's resolution. */
  lemma RetrievedDocumentsComeFromHits(hits: seq<Hit>, snaps: Snapshots, query: string, first: Category, search: Search, d: Document)
    ensures |RetrieveDocuments(hits, snaps, query, first, search)| <= |hits|
    ensures d in RetrieveDocuments(hits, snaps, query, first, search) ==>
      exists h :: h in hits && ResolveHit(h, snaps, query, first, search) == Some(d)
  {
    var f := (h: Hit) => AsSeq(ResolveHit(h, snaps, query, first, search));
    FlatMapLength(hits, f);
    if d in RetrieveDocuments(hits, snaps, query, first, search) {
      FlatMapMember(hits, f, d);
    }
  }

  /** Resolution is hit by hit: the documents of two batches of hits are the
      documents of each, in order. */
  lemma RetrieveDocumentsAppend(a: seq<Hit>, b: seq<Hit>, snaps: Snapshots, query: string, first: Category, search: Search)
    ensures RetrieveDocuments(a + b, snaps, query, first, search)
         == RetrieveDocuments(a, snaps, query, first, search) + RetrieveDocuments(b, snaps, query, first, search)
  {
    FlatMapAppend(a, b, (h: Hit) => AsSeq(ResolveHit(h, snaps, query, first, search)));
  }

  // ----- Strategy selection -----

  const StoreNames: seq<string> := ["bigcommerce", "costco"]
  /** The words that send an inventory question to the table listing. */
  const ListingWords: seq<string> := ["full", "all", "complete", "total", "entire", "wood", "metal"]
  /** The words checked a second time before the listing is fetched. */
  const ListingScopeWords: seq<string> :=
    ["total", "entire", "complete", "all", "full", "los angeles", "indiana", "pennsylvania", "wood", "metal"]

  datatype Route = OrderLookup | InventoryListing | SemanticSearch

  /** The strategy for the rephrased query and the first category label. */
  function RouteFor(rephrased: string, first: Category): Route {
    var q := Lower(rephrased);
    if Contains(Label(first), "order") || ContainsAny(q, StoreNames) then OrderLookup
    else if Contains(Label(first), "inventory") then
      if ContainsAny(q, ListingWords) then
        if ContainsAny(q, ListingScopeWords) then InventoryListing else SemanticSearch
      else SemanticSearch
    else SemanticSearch
  }

  /** Every listing word is also a scope word, so the second check never fails. */
  lemma ListingWordsAreScopeWords(q: string)
    requires ContainsAny(q, ListingWords)
    ensures ContainsAny(q, ListingScopeWords)
  {
    var k :| 0 <= k < |ListingWords| && Contains(q, ListingWords[k]);
    var m := if k == 0 then 4 else if k == 1 then 3 else if k == 2 then 2 else if k == 3 then 0
             else if k == 4 then 1 else if k == 5 then 8 else 9;
    assert ListingScopeWords[m] == ListingWords[k];
  }

  /** Only the first category counts: the order route is taken exactly for
      the order label or a named store, the listing exactly for the inventory
      label with a listing word, and everything else searches. */
  lemma RouteForSpec(rephrased: string, first: Category)
    ensures var q := Lower(rephrased);
      && (RouteFor(rephrased, first) == OrderLookup <==> first == OrderQuery || ContainsAny(q, StoreNames))
      && (RouteFor(rephrased, first) == InventoryListing <==>
            first == InventoryQuery && !ContainsAny(q, StoreNames) && ContainsAny(q, ListingWords))
  {
    LabelHasOrder(first);
    LabelHasInventory(first);
    if ContainsAny(Lower(rephrased), ListingWords) {
      ListingWordsAreScopeWords(Lower(rephrased));
    }
  }

  /** A question that mentions products and inventory but neither orders nor
      a store is searched semantically: the product label comes first. */
  lemma ProductOutranksInventory(rephrased: string)
    requires Mentions(rephrased, ProductQuery) && Mentions(rephrased, InventoryQuery)
    requires !Mentions(rephrased, OrderQuery) && !ContainsAny(Lower(rephrased), StoreNames)
    ensures RouteFor(rephrased, Classify(rephrased)[0]) == SemanticSearch
  {
    var cats := Classify(rephrased);
    assert ProductQuery in cats && OrderQuery !in cats;
    assert cats[0] in cats;
    RouteForSpec(rephrased, cats[0]);
  }

  /** Everything the request path reads besides the query: the clock and
      date parser, the orders and inventory tables with their decoders, the
      snapshots, the similarity retriever and the fallback search. */
  datatype Sources = Sources(
    clock: DateInputs,
    orders: Option<seq<OrderRow>>,
    stampOf: string -> Timestamp,
    inventory: Option<seq<InvRow>>,
    decode: InventoryDecoder,
    snapshots: Snapshots,
    retrieve: string -> seq<Hit>,
    search: Search)

  /** `compl_inv`, `ord_data`, and the value of `relevant_data` the chain's
      retriever returns (`None` when no branch assigned it); or
      `InventoryRaised` when `fetch_inventory` raised out of
      `create_conversational_chain`. */
  datatype Plan =
    | Plan(inventory: Option<seq<InvItem>>, orders: Option<seq<OrderEntry>>, context: Option<seq<Document>>)
    | InventoryRaised

  /** The lower-cased query with "total" read as "full". */
  function ListingQuery(rephrased: string): string {
    ReplaceAll(Lower(rephrased), "total", "full")
  }

  /** The order branch of the dispatch. The caller unpacks the triple as
      `order_data, po_data, is_po`, so its `po_data` is the `is_po_no` flag
      and its `is_po` is the `is_po_data` flag. */
  function OrderPlan(rephrased: string, src: Sources): (p: Plan)
    ensures var out := OrderDataRetrieve(rephrased, src.clock, src.orders, src.stampOf);
      p.Plan? && p.inventory.None? && (p.context.Some? <==> out.isPoData) && (p.orders.Some? <==> !out.isPoData)
      && (out.isPoData ==> p.context == Some(out.result.docs))
      && (!out.isPoData ==> p.orders == Some(out.result.entries))
  {
    var out := OrderDataRetrieve(rephrased, src.clock, src.orders, src.stampOf);
    if out.isPoData then
      if out.isPoNo then Plan(None, None, Some(out.result.docs)) else Plan(None, None, None)
    else Plan(None, Some(out.result.entries), None)
  }

  /** The strategy branch of `create_conversational_chain`. */
  function Dispatch(rephrased: string, first: Category, src: Sources): (p: Plan)
    ensures RouteFor(rephrased, first) == OrderLookup ==> p == OrderPlan(rephrased, src)
    ensures RouteFor(rephrased, first) == InventoryListing ==>
      match FetchInventory(ListingQuery(rephrased), src.inventory, src.decode)
      case None => p == InventoryRaised
      case Some(items) => p == Plan(Some(items), None, None)
    ensures RouteFor(rephrased, first) == SemanticSearch ==>
      p == Plan(None, None, Some(RetrieveDocuments(src.retrieve(rephrased), src.snapshots, rephrased, first, src.search)))
  {
    var route := RouteFor(rephrased, first);
    if route == OrderLookup then OrderPlan(rephrased, src)
    else if route == InventoryListing then
      match FetchInventory(ListingQuery(rephrased), src.inventory, src.decode)
      case None => InventoryRaised
      case Some(items) => Plan(Some(items), None, None)
    else
      Plan(None, None, Some(RetrieveDocuments(src.retrieve(rephrased), src.snapshots, rephrased, first, src.search)))
  }

  /** The chain setup and the updated history. */
  datatype ChainSetup = ChainSetup(plan: Plan, history: History)

  /** `create_conversational_chain(query, session_id)` given the language
      model's rephrasing `completion`. */
  function CreateConversationalChain(query: string, sid: string, completion: string, h: History, src: Sources): (c: ChainSetup)
    ensures c.plan == Dispatch(Strip(completion), Classify(Strip(completion))[0], src)
    ensures c.history.Keys == h.Keys + {sid}
    ensures forall other :: other in h && other != sid ==> c.history[other] == h[other]
    ensures Bounded(h) ==> Bounded(c.history)
  {
    var r := RephraseQuery(query, sid, completion, h);
    ChainSetup(Dispatch(r.rephrased, r.categories[0], src), r.history)
  }

  // ----- Replies -----

  function QtyText(q: Qty): string {
    match q
    case Amount(n) => IntToString(n)
    case Note(t) => t
  }

  /** What a quantity adds to the total: numbers count, anything else is 0. */
  function QtyValue(q: Qty): int {
    match q
    case Amount(n) => n
    case Note(_) => 0
  }

  function TotalQty(items: seq<InvItem>): int {
    if items == [] then 0 else QtyValue(items[0].qty) + TotalQty(items[1..])
  }

  /** Text quantities add nothing, so a listing of notes totals 0, and
      non-negative quantities give a non-negative total. */
  lemma {:induction false} TotalQtyBounds(items: seq<InvItem>)
    ensures (forall k :: 0 <= k < |items| ==> items[k].qty.Note?) ==> TotalQty(items) == 0
    ensures (forall k :: 0 <= k < |items| ==> QtyValue(items[k].qty) >= 0) ==> TotalQty(items) >= 0
  {
    if items != [] {
      TotalQtyBounds(items[1..]);
      assert forall k :: 0 <= k < |items| - 1 ==> items[1..][k] == items[k + 1];
    }
  }

  lemma {:induction false} TotalQtyAppend(a: seq<InvItem>, b: seq<InvItem>)
    ensures TotalQty(a + b) == TotalQty(a) + TotalQty(b)
  {
    if a == [] {
      assert a + b == b;
    } else {
      assert (a + b)[1..] == a[1..] + b;
      TotalQtyAppend(a[1..], b);
    }
  }

  /** Items whose quantity is not a number do not change the total. */
  lemma {:induction false} TotalQtyIgnoresNotes(items: seq<InvItem>)
    ensures TotalQty(items) == TotalQty(Filter(items, (it: InvItem) => it.qty.Amount?))
  {
    if items != [] {
      TotalQtyIgnoresNotes(items[1..]);
      var p := (it: InvItem) => it.qty.Amount?;
      assert Filter(items, p) == (if p(items[0]) then [items[0]] else []) + Filter(items[1..], p);
      TotalQtyAppend(if p(items[0]) then [items[0]] else [], Filter(items[1..], p));
    }
  }

  function InventoryLine(it: InvItem): string {
    "• " + it.sku + " - Warehouse: " + it.warehouse + " - Qty Available: " + QtyText(it.qty)
  }

  function InventoryLines(items: seq<InvItem>): (lines: seq<string>)
    ensures |lines| == |items|
    ensures forall k :: 0 <= k < |items| ==> lines[k] == InventoryLine(items[k])
  {
    seq(|items|, k requires 0 <= k < |items| => InventoryLine(items[k]))
  }

  const InventoryHeader: string := "Here is the list of inventory:"
  const TotalPrefix: string := "Total Quantity Available: "

  function RenderInventory(items: seq<InvItem>): string {
    Framed(InventoryHeader, InventoryLines(items), TotalPrefix + IntToString(TotalQty(items)))
  }

  /** No field of the item holds a line break. */
  predicate SingleLineItem(it: InvItem) {
    '\n' !in it.sku && '\n' !in it.warehouse && '\n' !in QtyText(it.qty)
  }

  /** No item of the listing holds a line break. */
  predicate SingleLineItems(items: seq<InvItem>) {
    forall k :: 0 <= k < |items| ==> SingleLineItem(items[k])
  }

  lemma InventoryLineSingle(it: InvItem)
    requires SingleLineItem(it)
    ensures '\n' !in InventoryLine(it)
  {
  }

  lemma InventoryLinesSingle(items: seq<InvItem>)
    requires SingleLineItems(items)
    ensures forall k :: 0 <= k < |items| ==> '\n' !in InventoryLines(items)[k]
  {
    forall k | 0 <= k < |items| ensures '\n' !in InventoryLines(items)[k] {
      InventoryLineSingle(items[k]);
    }
  }

  /** The total line is a single line. */
  lemma TotalLineSingle(total: int)
    ensures '\n' !in TotalPrefix + IntToString(total)
  {
    InventoryTextsSingleLine();
    var n := IntToString(total);
    assert '\n' !in n;
  }

  /** The inventory reply is the header, a blank line, one bullet per item in
      order, a blank line and the total. */
  lemma RenderInventoryLines(items: seq<InvItem>)
    requires |items| > 0
    requires SingleLineItems(items)
    ensures Split(RenderInventory(items), '\n')
         == [InventoryHeader, ""] + InventoryLines(items) + ["", TotalPrefix + IntToString(TotalQty(items))]
  {
    InventoryPiecesSingle(items);
    SplitFramed(InventoryHeader, InventoryLines(items), TotalPrefix + IntToString(TotalQty(items)));
  }

  /** The heading, every bullet and the total line of the inventory reply are
      single lines. */
  lemma InventoryPiecesSingle(items: seq<InvItem>)
    requires |items| > 0
    requires SingleLineItems(items)
    ensures FrameReady(InventoryHeader, InventoryLines(items), TotalPrefix + IntToString(TotalQty(items)))
  {
    InventoryLinesSingle(items);
    TotalLineSingle(TotalQty(items));
    InventoryTextsSingleLine();
  }

  const OrdersHeader: string := "Here is the list of orders:"
  const IndentedNoOrders: string := "   " + NoOrdersFound

  /** None of the fixed texts of the two listings holds a line break. */
  lemma InventoryTextsSingleLine()
    ensures '\n' !in InventoryHeader && '\n' !in TotalPrefix
  {
  }

  lemma OrderTextsSingleLine()
    ensures '\n' !in OrdersHeader && '\n' !in IndentedNoOrders
  {
  }

  function EntryHeader(e: OrderEntry): string {
    "• " + e.status + " - Order count: " + NatToString(e.count) + " - Date: " + e.date
  }

  function EntryText(e: OrderEntry): string {
    EntryHeader(e) + "\n"
    + (if e.custRefs != [NoOrdersFound] then Join(e.custRefs, "\n") else IndentedNoOrders)
  }

  /** The lines of one entry: its header, then its references or the
      indented no-orders line. */
  function EntryLines(e: OrderEntry): seq<string> {
    [EntryHeader(e)] + (if e.custRefs != [NoOrdersFound] then e.custRefs else [IndentedNoOrders])
  }

  predicate SingleLineEntry(e: OrderEntry) {
    && '\n' !in e.status && '\n' !in e.date && |e.custRefs| > 0
    && forall k :: 0 <= k < |e.custRefs| ==> '\n' !in e.custRefs[k]
  }

  /** No entry of the listing holds a line break in its texts. */
  predicate SingleLineEntries(entries: seq<OrderEntry>) {
    forall k :: 0 <= k < |entries| ==> SingleLineEntry(entries[k])
  }

  lemma EntryTextLines(e: OrderEntry)
    requires SingleLineEntry(e)
    ensures Split(EntryText(e), '\n') == EntryLines(e)
  {
    var header := EntryHeader(e);
    EntryHeaderSingle(e);
    SplitNoSeparator(header, '\n');
    var body := if e.custRefs != [NoOrdersFound] then Join(e.custRefs, "\n") else IndentedNoOrders;
    if e.custRefs != [NoOrdersFound] {
      SplitJoin(e.custRefs, '\n');
    } else {
      OrderTextsSingleLine();
      SplitNoSeparator(IndentedNoOrders, '\n');
    }
    assert EntryText(e) == header + ['\n'] + body;
    SplitAround(header, body, '\n');
  }

  lemma EntryHeaderSingle(e: OrderEntry)
    requires '\n' !in e.status && '\n' !in e.date
    ensures '\n' !in EntryHeader(e)
  {
    assert '\n' !in NatToString(e.count);
  }

  function EntryTexts(entries: seq<OrderEntry>): (texts: seq<string>)
    ensures |texts| == |entries|
    ensures forall k :: 0 <= k < |entries| ==> texts[k] == EntryText(entries[k])
  {
    seq(|entries|, k requires 0 <= k < |entries| => EntryText(entries[k]))
  }

  function RenderOrders(entries: seq<OrderEntry>): string {
    OrdersHeader + "\n\n" + Join(EntryTexts(entries), "\n\n")
  }

  /** The lines of the entries, a blank line between consecutive entries. */
  function Blocks(entries: seq<OrderEntry>): seq<string>
    requires |entries| > 0
  {
    if |entries| == 1 then EntryLines(entries[0])
    else EntryLines(entries[0]) + [""] + Blocks(entries[1..])
  }

  lemma {:induction false} JoinedEntriesLines(entries: seq<OrderEntry>)
    requires |entries| > 0
    requires SingleLineEntries(entries)
    ensures Split(Join(EntryTexts(entries), "\n\n"), '\n') == Blocks(entries)
  {
    var texts := EntryTexts(entries);
    EntryTextLines(entries[0]);
    if |entries| > 1 {
      JoinedEntriesLines(entries[1..]);
      assert texts[1..] == EntryTexts(entries[1..]);
      SplitBlankLine(texts[0], Join(texts[1..], "\n\n"));
    }
  }

  /** The order reply is the header, a blank line, then each entry's lines
      with a blank line between entries. */
  lemma RenderOrdersLines(entries: seq<OrderEntry>)
    requires |entries| > 0
    requires SingleLineEntries(entries)
    ensures Split(RenderOrders(entries), '\n') == [OrdersHeader, ""] + Blocks(entries)
  {
    var body := Join(EntryTexts(entries), "\n\n");
    OrderTextsSingleLine();
    assert RenderOrders(entries) == OrdersHeader + "\n\n" + body;
    SplitHeaded(OrdersHeader, body);
    JoinedEntriesLines(entries);
  }

  /** What the handler does: post a rendered reply, run generation over a
      context, fail because the chain's retriever reads `relevant_data` that
      no branch assigned, or fail because the inventory listing raised. */
  datatype Reply = Posted(text: string) | Generated(context: seq<Document>) | ContextUnbound | Raised

  /** `handle_mention` as written. */
  function HandleMentionAsWritten(p: Plan): (r: Reply)
    ensures r.Raised? <==> p.InventoryRaised?
    ensures r.ContextUnbound? <==>
      p.Plan? && (p.inventory.None? || p.inventory.value == []) && (p.orders.None? || p.orders.value == []) && p.context.None?
    ensures p.Plan? && p.inventory.Some? && p.inventory.value != [] ==> r == Posted(RenderInventory(p.inventory.value))
  {
    if p.InventoryRaised? then Raised
    else if p.inventory.Some? && p.inventory.value != [] then Posted(RenderInventory(p.inventory.value))
    else if p.orders.Some? && p.orders.value != [] then Posted(RenderOrders(p.orders.value))
    else match p.context
      case None => ContextUnbound
      case Some(docs) => Generated(docs)
  }

  /** An inventory listing that comes back empty (the table is unreachable,
      or no stocked warehouse matches) leaves the generation chain to run with
      `relevant_data` unassigned. */
  lemma EmptyListingLeavesContextUnbound(rephrased: string, first: Category, src: Sources)
    requires RouteFor(rephrased, first) == InventoryListing
    requires FetchInventory(ListingQuery(rephrased), src.inventory, src.decode) == Some([])
    ensures HandleMentionAsWritten(Dispatch(rephrased, first, src)) == ContextUnbound
  {
  }

  /** With the inventory table unreachable, every listing question whose
      normalized text names a material or a breadth word fails that way. */
  lemma UnreachableInventoryLeavesContextUnbound(rephrased: string, first: Category, src: Sources)
    requires RouteFor(rephrased, first) == InventoryListing && src.inventory.None?
    requires InvBranchOf(InvMentionsOf(Lower(ListingQuery(rephrased)))) != NoInventoryMatch
    ensures HandleMentionAsWritten(Dispatch(rephrased, first, src)) == ContextUnbound
  {
    EmptyListingLeavesContextUnbound(rephrased, first, src);
  }

  /** An order question whose lookup returns no summaries (the table is
      unreachable, or the first status raised) fails the same way. */
  lemma EmptyOrderAnswerLeavesContextUnbound(rephrased: string, first: Category, src: Sources)
    requires RouteFor(rephrased, first) == OrderLookup
    requires OrderDataRetrieve(rephrased, src.clock, src.orders, src.stampOf).result == Entries([])
    ensures HandleMentionAsWritten(Dispatch(rephrased, first, src)) == ContextUnbound
  {
  }

  /** `handle_mention` with `relevant_data` starting out as an empty list:
      generation runs with no context instead of failing. */
  function HandleMention(p: Plan): (r: Reply)
    ensures !r.ContextUnbound?
    ensures HandleMentionAsWritten(p) != ContextUnbound ==> r == HandleMentionAsWritten(p)
    ensures HandleMentionAsWritten(p) == ContextUnbound ==> r == Generated([])
  {
    if p.InventoryRaised? then Raised
    else if p.inventory.Some? && p.inventory.value != [] then Posted(RenderInventory(p.inventory.value))
    else if p.orders.Some? && p.orders.value != [] then Posted(RenderOrders(p.orders.value))
    else Generated(p.context.GetOr([]))
  }
}
