# E-commerce Slack assistant: routing, retrieval and table maintenance

This project is a Dafny model of the deterministic core of an internal Slack
assistant for an online casket store. A user mentions the bot and a language
model rephrases the question. The program then labels the question by
keyword, picks a strategy from the first label, and answers in one of three
ways:

- an order summary computed from the `orders` table;
- an inventory listing computed from the `inv_new` table;
- a document set for a generation chain, built by resolving vector-search
  hits against snapshots of the inventory, product and page tables.

Background jobs keep those tables in step with the store's feeds. They upsert
by key, skip repeated purchase orders within a run, and delete duplicate rows.

Everything external is an input value:

- the language model's completion;
- the tables, as sequences of rows, with `None` standing for an unreachable
  database;
- the vector-search hits;
- today's and yesterday's dates, and what the date parser makes of each date
  match;
- the JSON decoder and encoder, and `html.unescape`;
- the feeds the sync jobs read.

Each module follows one source component:

| file | module | source |
|---|---|---|
| `query_service.dfy` | `QueryService` | `rephrase_query`: classification and per-session history |
| `order_retrieval.dfy` | `OrderRetrieval` | `order_data_retrieve` with its number and date extractors |
| `data_operations.dfy` | `DataOperations` | `fetch_inventory`, `format_query_result`, `parse_final_answer` |
| `assistant.dfy` | `Assistant` | `main.py`: dispatch, hit resolution, the rendered replies of `handle_mention` |
| `sync_jobs.dfy` | `SyncJobs` | `database_services.py`: the four sync jobs and the two duplicate clean-ups |
| `utils.dfy` | `Utils` | `remove_html_tags`, `json_to_text`, the order projection of `get_order_data_by_status` |
| `tables.dfy`, `seqs.dfy`, `text.dfy`, `wrappers.dfy` | shared | row shapes, sequence and string helpers, `Option`/`Result` |

Some choices follow the code rather than its description:

- Branches 1 and 2 of `order_data_retrieve` convert each present
  `updated_date_time` without a local `try`. A malformed timestamp therefore
  ends the whole branch, and the branch returns only the summaries already
  appended. Branch 3 instead recovers per row.
- The orders row shape (`order_source`, `order_date`) is taken from the SQL
  the retrieval code runs. The ORM class lacks those columns.
- In branch 3 the source-only query (`not date and not status`) can never
  run, because the loop variable `status` is never empty. The model has only
  the general query.

## Model

| member | source | states |
|---|---|---|
| QueryService.LabelIsLower | main.py:180 | every category label is already lower-case, so lower-casing `category[0]` changes nothing |
| QueryService.LabelHasOrder | main.py:208 | the label of the first category contains "order" exactly for the order category |
| QueryService.LabelHasInventory | main.py:218 | the label contains "inventory" exactly for the inventory category |
| QueryService.LabelHasProduct | main.py:180-182 | the lower-cased label contains "product" exactly for the product category |
| QueryService.CategoriesOf | src/query_service.py:146-158 | each keyword category is present iff its keyword matched; the list is never empty, is `[misc]` iff nothing matched, and follows the fixed order without repeats |
| QueryService.Classify | src/query_service.py:17-21 | a category is present iff its keyword occurs in the rephrased text ignoring case; misc appears only alone and only when no keyword occurs; labels come in the order order, product, inventory, pages |
| QueryService.AppendTurn | src/query_service.py:161-165 | the new turn is last; below ten turns the list grows by one; at ten the three oldest are dropped, leaving eight; the result is always a suffix of the old list plus the new turn, so order is kept and a bound of ten is kept |
| QueryService.RecordTurn | src/query_service.py:161-165 | only the session's own list changes; other sessions keep their turns; a history bounded by ten stays bounded |
| QueryService.ContextWindow | src/query_service.py:122-123 | a session seen before yields the raw queries of its last min(3, n) turns, oldest first; an unseen session yields none |
| QueryService.PromptFor | src/query_service.py:122-131 | the prompt has no history part exactly when the session was never seen |
| QueryService.RephraseQuery | src/query_service.py:142-168 | the rephrased text is the stripped completion; its categories are the classification of that text; the recorded turn holds the raw query and those categories and is last in its session; other sessions are unchanged; the bound of ten is kept |
| OrderRetrieval.NumberSpansFrom | src/data_extraction/order_data_operations.py:25-28 | every span found is a maximal digit run with no word character on either side, and the spans are increasing and disjoint |
| OrderRetrieval.NumberSpansFromComplete | src/data_extraction/order_data_operations.py:25-28 | every such digit run at or after the scan position is found |
| OrderRetrieval.NumberSpansExact | src/data_extraction/order_data_operations.py:25-28 | a span is found iff it is a match of the word-bounded digit pattern |
| OrderRetrieval.ExtractOrderNumbers | src/data_extraction/order_data_operations.py:25-28 | one non-empty all-digit string per match, in order of occurrence, duplicates kept |
| OrderRetrieval.ParsedDates | src/data_extraction/order_data_operations.py:67-80 | exactly the dates of the matches that parsed; unparseable matches are skipped |
| OrderRetrieval.ExtractDates | src/data_extraction/order_data_operations.py:50-82 | no duplicates; today is present iff "today" occurs, yesterday iff "yesterday" occurs, and every parsed date is present; nothing else is |
| OrderRetrieval.RefLine | src/data_extraction/order_data_operations.py:146-155 | a detail line starts with "Order Id: " and is never the no-orders sentinel |
| OrderRetrieval.StrictRefLines | src/data_extraction/order_data_operations.py:144-155 | the detail lines exist iff no matched row has a malformed timestamp |
| OrderRetrieval.StatusDateEntry | src/data_extraction/order_data_operations.py:118-160 | a summary is produced iff no matched timestamp is malformed; its count is the number of rows with that lower-cased status and date; the references are the sentinel exactly when the count is 0, and otherwise one line per row |
| OrderRetrieval.AllStatusesFrom | src/data_extraction/order_data_operations.py:166-218 | summaries follow New, Confirmed, AT_WMS, Shipped in order, each the status's own summary, and stop at the first status that raised |
| OrderRetrieval.SourceEntry | src/data_extraction/order_data_operations.py:239-273 | count = number of rows of the source matching the date or the status; the date is "N/A" without one; sentinel iff count 0; one line per row otherwise |
| OrderRetrieval.SourceEntries | src/data_extraction/order_data_operations.py:221-273 | one summary per default status, in order |
| OrderRetrieval.NumberLookup | src/data_extraction/order_data_operations.py:278-304 | `is_po_no` is set; `is_po_data` holds iff some row's po_no or cust_ref equals the first number; a hit gives one document per matching row, in table order, holding that row's text and the extracted numbers; a miss gives the single placeholder |
| OrderRetrieval.SelectBranch | src/data_extraction/order_data_operations.py:112-308 | exactly one branch runs, characterised by the mentions in the tested order |
| Text.FirstMentionUnique | src/data_extraction/order_data_operations.py:88-109 | the first-mention condition that fixes the source and status picks at most one index |
| OrderRetrieval.OrderMentionsOf | src/data_extraction/order_data_operations.py:88-109 | the source and status are the first in list order whose lower-case form occurs; numbers and dates are the extracted ones |
| OrderRetrieval.RetrieveOrders | src/data_extraction/order_data_operations.py:110-308 | `is_po_data` implies `is_po_no`; only the number branch sets `is_po_no`; documents are returned iff `is_po_data`; per-branch result shapes; a status and a date give that pair's summary, or nothing when it raised; a date alone gives the per-status summaries up to the first that raised; a source gives its per-status summaries; a number gives the number lookup; an unreachable table gives an empty list |
| OrderRetrieval.OrderDataRetrieve | src/data_extraction/order_data_operations.py:85-308 | `is_po_data` implies `is_po_no` and documents; summaries are returned otherwise; `is_po_no` needs an extracted number |
| DataOperations.WarehouseItems | src/data_extraction/data_opeartions.py:400-426 | with a location every item is at that location; without one every warehouse yields an item; all items carry the row's sku |
| DataOperations.Emit | src/data_extraction/data_opeartions.py:397-426 | the row loop raises iff some row's JSON has a shape the walk cannot read (a non-object top level, `warehouses` or warehouse, or a non-string name), whatever the location; otherwise it lists each row's items in row order |
| DataOperations.EmitItems | src/data_extraction/data_opeartions.py:397-412 | every emitted item names a row's sku and, with a location, sits at it |
| DataOperations.MalformedRowSkipped | src/data_extraction/data_opeartions.py:400-411 | a row whose text is not JSON contributes nothing and does not stop later rows |
| DataOperations.WrongShapeRowRaises | src/data_extraction/data_opeartions.py:402-411 | a row whose JSON the walk cannot read aborts the listing wherever it stands, because only `JSONDecodeError` is caught |
| DataOperations.WarehouseItemsAt | src/data_extraction/data_opeartions.py:404-408 | one row's items at a location are its full items filtered to that location |
| DataOperations.EmitAtLocation | src/data_extraction/data_opeartions.py:505-534 | the listing for a location raises iff the full listing does, and otherwise is the full listing filtered to that location, order kept |
| DataOperations.LocationIn | src/data_extraction/data_opeartions.py:377 | the location is the first valid location, in list order, occurring in the query; none iff none occurs |
| DataOperations.InvBranchOf | src/data_extraction/data_opeartions.py:376-543 | wood, then metal, then a breadth word, else the placeholder: exactly one branch |
| DataOperations.InventoryFor | src/data_extraction/data_opeartions.py:376-543 | wood lists Wood rows only with a location or a whole-list word, else the placeholder; metal lists Metal rows; breadth lists all rows; an unreachable table gives []; no keyword gives the placeholder; a listed table raises exactly when its row loop does |
| DataOperations.InventoryRaisesOnlyOnBadRow | src/data_extraction/data_opeartions.py:376-543 | a listing raises only when the table was reached and one of its rows has JSON the walk cannot read |
| DataOperations.FetchInventory | src/data_extraction/data_opeartions.py:362-543 | a query naming no material and no breadth word gets the single placeholder row and never raises |
| DataOperations.FormatQueryResult | src/data_extraction/data_opeartions.py:157-167 | no rows give "No data found."; one single-value row gives that value's text |
| DataOperations.FormatQueryResultLines | src/data_extraction/data_opeartions.py:166-167 | otherwise the text splits back into one line per row, in order |
| DataOperations.ParseFinalAnswer | src/data_extraction/data_opeartions.py:310-317 | success iff an opening and later closing fence exist; the value is the stripped body between the first opening fence and the first closing fence after it; failure carries the ValueError message |
| DataOperations.ParseFencedBody | src/data_extraction/data_opeartions.py:312-315 | a reply that is one fenced block returns exactly its body |
| Assistant.FallbackLookup | main.py:131-145 | nothing iff the search for `product:<id>` finds nothing; otherwise the first document's content |
| Assistant.HitSourceOf | main.py:178-186 | each of the four cases holds exactly when its condition holds and no earlier one does |
| Assistant.ProductCategorySkipsPages | main.py:180-186 | under the product category a hit is never resolved from the page snapshot and never left unresolved by the precedence |
| Assistant.ResolveHit | main.py:172-192 | a document carries the hit's metadata; no document iff no case applies or the fallback found nothing |
| Assistant.RetrievedDocumentsComeFromHits | main.py:171-194 | at most one document per hit, each the resolution of some hit |
| Assistant.RetrieveDocumentsAppend | main.py:171-194 | resolution is per hit and keeps hit order |
| Assistant.ListingWordsAreScopeWords | main.py:219-220 | every first-list word is in the second list, so the inner else never runs |
| Assistant.RouteForSpec | main.py:208-234 | the order path is taken iff `category[0]` is the order label or a store is named; the listing iff `category[0]` is inventory, no store is named and a listing word occurs |
| Assistant.ProductOutranksInventory | main.py:208-234 | a question labelled both product and inventory, with no order or store word, takes the semantic path |
| Assistant.OrderPlan | main.py:208-217 | on the order path the context is the documents exactly when `is_po_data`, and otherwise the summaries are kept for rendering; no listing is fetched |
| Assistant.Dispatch | main.py:208-234 | the order path yields the order plan; the listing fetches with the lower-cased query with "total" read as "full", and a listing that raises aborts the chain setup; every other path's context is the resolved hits |
| Assistant.CreateConversationalChain | main.py:197-234 | the plan is the dispatch of the stripped completion under its first category; history update as in `rephrase_query` |
| Assistant.TotalQtyBounds | main.py:341-344 | all-text quantities sum to 0; non-negative numbers give a non-negative total |
| Assistant.TotalQtyAppend | main.py:341-344 | the total is additive over concatenation |
| Assistant.TotalQtyIgnoresNotes | main.py:341-344 | non-numeric quantities add nothing: the total equals that of the numeric items alone |
| Assistant.RenderInventoryLines | main.py:348-352 | the reply's lines are the header, a blank, one bullet per item in order, a blank, and the total |
| Assistant.EntryTextLines | main.py:372-377 | an entry's lines are its header then its references, or the indented sentinel when the references are the sentinel list |
| Assistant.JoinedEntriesLines | main.py:370-380 | entries are separated by exactly one blank line |
| Assistant.RenderOrdersLines | main.py:368-381 | the reply's lines are the header, a blank, then the entries' lines |
| Assistant.HandleMentionAsWritten | main.py:333-389 | a raised listing fails the handler; a non-empty listing is posted first; the chain runs with an unassigned `relevant_data` exactly when listing and summaries are empty and no branch assigned a context |
| Assistant.EmptyListingLeavesContextUnbound | main.py:218-251 | an empty listing on the listing path reaches the chain with `relevant_data` unassigned |
| Assistant.UnreachableInventoryLeavesContextUnbound | src/data_extraction/data_opeartions.py:430-432 | with the inventory table unreachable every listing question that names a material or a breadth word ends that way |
| Assistant.EmptyOrderAnswerLeavesContextUnbound | main.py:208-217 | an order question with no summaries ends that way |
| Assistant.HandleMention | main.py:333-416 | the corrected handler never reads an unassigned `relevant_data`; it agrees with the handler as written wherever that one succeeds, and otherwise generates over an empty context |
| Utils.TagEnd | utils.py:11-12 | the tag closes at the first '>' on the current line; there is none iff the line (or text) ends first |
| Utils.StripTagsIdempotent | utils.py:11-12 | after tag removal no tag remains, so removing tags again changes nothing |
| Utils.StripTagsFromTagFreeText | utils.py:11-12 | text without tags is unchanged |
| Utils.StripTagsWithoutOpen | utils.py:11-12 | text without '<' is unchanged |
| Utils.DropChar | utils.py:16-17 | the character is gone and nothing new appears |
| Utils.DropCharIsReplace | utils.py:16-17 | replacing a one-character string by "" is dropping that character |
| Utils.SwapChar | utils.py:18 | same length; exactly the occurrences of the character are replaced |
| Utils.SwapCharIsReplace | utils.py:18 | replacing a one-character string by another is the pointwise swap |
| Utils.StripKeepsCharacters | utils.py:19 | stripping introduces no character |
| Utils.RemoveHtmlTags | utils.py:9-21 | no '\r', '\n' or no-break space remains, and the ends are not whitespace |
| Utils.RemoveHtmlTagsOfPlain | utils.py:9-21 | text with no tag and nothing to clean comes back as its unescaped self |
| Utils.EscapedTagSurvives | utils.py:11-13 | tags are removed before unescaping, so `&lt;b&gt;` comes out as `<b>` |
| Utils.CollapseSpace | utils.py:27 | every whitespace character left is a space, no two are adjacent, the text does not grow, and it starts with whitespace iff the input does |
| Utils.JsonToText | utils.py:24-28 | no run of two whitespace characters and no newline, tab or carriage return |
| Utils.CollapseSpaceKeepsText | utils.py:27 | the non-whitespace characters are kept in order |
| Utils.CollapseSpaceOfCollapsed | utils.py:27 | collapsing already collapsed text changes nothing |
| Utils.JsonToTextIdempotent | utils.py:24-28 | collapsing the output again changes nothing |
| Utils.Project | utils.py:114-142 | the record exists iff every source key is present, and then each field holds its source key's value, in display order |
| Utils.ProjectOrder | utils.py:112-179 | the record exists iff every field it reads is present; its length is the common 27 plus the status's fields; it starts with the common fields |
| Utils.ProjectedCommonFields | utils.py:114-142 | the record carries cust_ref, po_no taken from cust_po_no, and order_date |
| Utils.ProjectedStatusFields | utils.py:145-171 | a known status adds order_status and `order_date/book_date` equal to order_date |
| Utils.ProjectedLineItem | utils.py:145-165 | new and at_wms add the first item's Description and line_item_id |
| Utils.ProjectedShipment | utils.py:166-176 | shipped_or_confirmed adds the first shipment's carrier and tracking_no and the requested ship date |
| Utils.ProjectedUnknownStatus | utils.py:177-179 | any other status yields the common fields alone |
| Utils.GetOrderDataByStatus | utils.py:76-184 | a failed request yields None; a missing field raises; otherwise one projected record per order, in order |
| Text.StripCutsOnlySpace | src/query_service.py:142 | `strip` removes whitespace from the ends only |
| Text.NatToStringRoundTrip | main.py:351 | the decimal text of a number reads back as that number |
| Text.StrLessTotal | core/database/database_services.py:57 | two different ids are ordered one way or the other, so "first in id order" is defined |
| Seqs.KeepFirstByKeepsFirst | core/database/database_services.py:149-151 | for each key the first element with it is kept |
| Seqs.KeepFirstByKeys | core/database/database_services.py:143-177 | exactly the keys not yet seen survive |
| SyncJobs.Upsert | core/database/database_services.py:87-100 | the table grows by one row iff no row has the key, and then the new row is appended |
| SyncJobs.UpsertAt | core/database/database_services.py:88-92 | otherwise exactly the first row with the key is updated, in place |
| SyncJobs.UpsertSelected | core/database/database_services.py:88-100 | the rows with the key after an upsert are the first one updated, or the new row |
| SyncJobs.UpsertOthers | core/database/database_services.py:88-100 | the rows of every other key are unchanged |
| SyncJobs.UpsertIdempotent | core/database/database_services.py:88-100 | repeating the same upsert changes nothing more |
| SyncJobs.UpsertKeys | core/database/database_services.py:88-100 | the set of keys gains exactly the upserted key |
| SyncJobs.UpsertKeepsDistinct | core/database/database_services.py:88-100 | an upsert keeps keys pairwise distinct |
| SyncJobs.MinId | core/database/database_services.py:54-59 | the chosen row has no row of smaller id among those given |
| SyncJobs.RemoveDuplicateInventory | core/database/database_services.py:40-64 | a row stays iff no row of its sku has a smaller id; with the primary key unique, skus are distinct afterwards |
| SyncJobs.SurvivorsDistinct | core/database/database_services.py:52-62 | two surviving rows never share a sku |
| SyncJobs.RemoveDuplicateInventoryKeepsSkus | core/database/database_services.py:52-62 | every sku keeps a row |
| SyncJobs.RemoveDuplicateInventoryOfClean | core/database/database_services.py:45-50 | a table without duplicate skus is untouched |
| SyncJobs.UpsertInventory | core/database/database_services.py:80-100 | an existing sku gets only its `inventory_json` replaced; a new sku is inserted with its mapped category or "Unknown"; the sku set gains that sku; distinct skus and the primary key stay unique |
| SyncJobs.UpsertInventoryLeavesOthers | core/database/database_services.py:87-100 | other skus' rows are unchanged |
| SyncJobs.UpsertInventoryIdempotent | core/database/database_services.py:87-100 | running one record twice equals running it once |
| SyncJobs.ApplyInventory | core/database/database_services.py:80-100 | the sku set is the old one plus the feed's |
| SyncJobs.ApplyInventoryKeepsDistinct | core/database/database_services.py:80-100 | skus that start pairwise distinct stay so |
| SyncJobs.ApplyInventoryKeepsKeyUnique | core/database/database_services.py:80-100 | a unique primary key stays unique |
| SyncJobs.ApplyInventoryLeavesOthers | core/database/database_services.py:80-100 | a sku not in the feed keeps its rows |
| SyncJobs.ApplyInventoryLastWins | core/database/database_services.py:80-100 | the first row of a fed sku holds the text of the feed's last record for it |
| SyncJobs.ExtensiveInvData | core/database/database_services.py:66-106 | fails iff the feed failed (request, JSON or `"response"` key); otherwise, with a unique primary key, each sku has one row afterwards, and the sku set is the old one plus the feed's |
| SyncJobs.ExtensiveInvDataLastWins | core/database/database_services.py:66-106 | a fed sku ends in exactly one row, holding its last record's text |
| SyncJobs.UpsertOrder | core/database/database_services.py:157-174 | an existing po_no gets status and text replaced and keeps cust_ref, source and date; a new one is inserted; distinct po_nos stay distinct |
| SyncJobs.UpsertOrderLeavesOthers | core/database/database_services.py:165-174 | other purchase orders are unchanged |
| SyncJobs.ApplyOrders | core/database/database_services.py:146-177 | the po_no set gains exactly the records' po_nos |
| SyncJobs.SyncOrdersFrom | core/database/database_services.py:146-177 | distinct po_nos stay distinct |
| SyncJobs.SyncOrdersKeepsFirst | core/database/database_services.py:143-177 | skipping processed po_nos is upserting the first record of each po_no only |
| SyncJobs.SyncOrdersLeaves | core/database/database_services.py:149-151 | a processed or absent po_no is left alone |
| SyncJobs.SyncOrdersFirstWins | core/database/database_services.py:143-177 | a po_no's rows end as its first record made them |
| SyncJobs.RemoveDuplicateOrders | core/database/database_services.py:114-135 | one row per po_no remains, every po_no keeps a row, and no row is invented |
| SyncJobs.RemoveDuplicateOrdersOfClean | core/database/database_services.py:117-123 | a table without duplicate po_nos is untouched |
| SyncJobs.UpdateOrders | core/database/database_services.py:137-184 | fails, with nothing committed, iff one of the three fetches failed; otherwise po_nos are distinct and are the old ones plus the fetched ones |
| SyncJobs.SyncedFirstWins | core/database/database_services.py:146-177 | on a table without duplicate po_nos, a fed po_no ends in one row with its first record's status and text, keeping an existing row's cust_ref |
| SyncJobs.UpdateOrdersFirstWins | core/database/database_services.py:137-184 | a fetched po_no ends in one row with the status and text of its first record in fetch order new, at_wms, shipped_or_confirmed, keeping an existing row's cust_ref |
| SyncJobs.UpsertProduct | core/database/database_services.py:192-217 | an existing product_id gets only its `product_json` replaced; a new one is inserted; ids gain exactly that id |
| SyncJobs.UpsertProductFacts | core/database/database_services.py:208-217 | other products are unchanged and a repeated record changes nothing more |
| SyncJobs.UpdateProducts | core/database/database_services.py:192-220 | fails iff the feed failed; otherwise the ids are the old ones plus the feed's |
| SyncJobs.ApplyProductsKeys | core/database/database_services.py:193-217 | the loop's ids are the old ones plus the feed's |
| SyncJobs.UpsertPage | core/database/database_services.py:228-252 | an existing page_id gets name and `page_json` replaced; a new one is inserted; ids gain exactly that id |
| SyncJobs.UpsertPageFacts | core/database/database_services.py:243-252 | other pages are unchanged and a repeated record changes nothing more |
| SyncJobs.UpdatePages | core/database/database_services.py:228-255 | fails iff the feed failed; otherwise the ids are the old ones plus the feed's |
| SyncJobs.ApplyPagesKeys | core/database/database_services.py:231-252 | the loop's ids are the old ones plus the feed's |

## Left out

- Slack and FastAPI transport, CORS, static files, the app entry point and the background scheduler: I/O plumbing and concurrent timers. The sync jobs are modelled as sequential table transformers.
- Language-model calls and prompt text: the completion is an input string. The generation chain is represented by the context it would receive.
- Connections, cursors, sessions and commits: a table is a sequence of rows, `None` when the database cannot be reached. A job that raises is `None`, with nothing committed.
- Free-form generated-SQL execution: its behaviour depends on arbitrary SQL. Only `parse_final_answer` and `format_query_result` are modelled.
- `generate_session_id`: the session id is an input.
- dateutil parsing, `datetime.now`, `fromisoformat` and `strftime`: today's and yesterday's dates, each match's parse and each row's timestamp are inputs.
- `json.loads`, `json.dumps`, `str(dict)` and `html.unescape`: these are parameters, or input strings for the dumped text.
- Python's set order in the date extractor: the model keeps first-occurrence order. Python's order is unspecified, and only membership and the absence of duplicates are stated.
- Float quantities and the `int()` truncation of the inventory total: a quantity is an integer or a text.
- DataOperations.Qty: a JSON boolean `qty_available` is not representable. Python's `bool` is an `int`, so `true` adds 1 to the total while its line renders "True".
- A NULL `inventory_json`: a row's JSON is always a string. In the program `json.loads(None)` raises a `TypeError` that nothing catches, the same way `DataOperations.Decoded.WrongShape` raises.
- OrderRetrieval.NumberSpansFrom: digit and word characters are ASCII (`0`-`9`, letters, `_`). Python's `\d` and `\w` are Unicode classes, so a run after an accented letter ("café123") is not a match there but is one here, and Arabic-Indic or other non-ASCII digits are not found here.
- OrderRetrieval.NumberSpansFromComplete: the same ASCII reading of `\d` and `\w`.
- OrderRetrieval.NumberSpansExact: the same ASCII reading of `\d` and `\w`.
- OrderRetrieval.ExtractOrderNumbers: the same ASCII reading of `\d` and `\w`, so its matches agree with Python's only on ASCII text.
- Text.IsDigit: ASCII digits only, where Python's `\d` takes every Unicode decimal digit.
- Text.IsWordChar: ASCII letters, digits and `_` only, where Python's `\w` takes every Unicode letter and digit.
- Text.Lower: maps only `A`-`Z`, where Python's `str.lower` maps every cased Unicode letter.
- The process-wide history dictionary shared by concurrent requests: one sequential caller is modelled.
- SQLAlchemy's `autoflush=False`: in the model a lookup sees rows inserted earlier in the same run. In the program, a sku, product or page that is new and appears twice in one feed is inserted twice. The inventory clean-up then keeps the lower id. Products and pages have composite primary keys that include a fresh uuid id, so both pending rows commit as two rows, and later runs update whichever of them `.first()` returns. The order sync is unaffected, because a po_no it has processed is never looked up again.
- HTTP fetching of the feeds, the `["response"]` lookup on the inventory feed, and reading the category file: the feed records and the category map are inputs. A failed feed is `None`. For the inventory feed that covers a failed request, a reply that is not JSON, and a missing `"response"` key.
- The reduction of a projected order record to its po_no, cust_ref, order_status and dumped text, in the order sync: the sync reads that reduction as input.
- New rows' uuid ids are an input function; `created_at` and `updated_at` are not modelled.
- Text.StrLessTotal: the database orders the uuid text by its collation; the model uses code-point order.
- SyncJobs.RemoveDuplicateOrders: which duplicate survives is unspecified in the program. The model keeps the first in table order, so no contract says which row survives.
- DataOperations.FormatQueryResultLines: states the joined case only for rows whose text has no line break, because a line break inside a row cannot be told from the separator.
- Assistant.RenderInventoryLines: states the line structure only for items whose fields have no line break, for the same reason.
- Assistant.RenderOrdersLines: states the line structure only for entries whose texts have no line break, for the same reason.
- SyncJobs.ExtensiveInvDataLastWins: states last-wins only for a table that starts without duplicate skus.
- SyncJobs.UpdateOrdersFirstWins: states first-wins only for a table that starts without duplicate po_nos.

## Findings

| source | as written | input that shows it | evidently intended | confidence | as-written member | corrected member |
|---|---|---|---|---|---|---|
| main.py:204-251 | `relevant_data` is assigned only on some paths, yet the chain's retriever reads it whenever no listing and no summaries were produced | an inventory listing question ("full wood inventory") while the inventory table is unreachable: `fetch_inventory` returns [], `handle_mention` falls through to the chain, and the retriever raises NameError | start `relevant_data` as an empty list so that the chain answers without context | not executed | Assistant.HandleMentionAsWritten, Assistant.UnreachableInventoryLeavesContextUnbound | Assistant.HandleMention |
