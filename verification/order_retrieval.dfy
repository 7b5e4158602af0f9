/** `order_data_retrieve` and its extractors: order numbers and dates pulled
    from the query, the status and source keywords, and the five-branch
    decision tree over the `orders` table. The table is a value (`None` when
    the database cannot be reached); the current date, the parse of each
    absolute date match, and the parse of each row's `updated_date_time` are
    inputs. */
module OrderRetrieval {
  import opened Wrappers
  import opened Seqs
  import opened Text
  import opened Tables

  // ----- Order numbers: `re.findall(r'\b\d+\b', query)` -----

  /** `q[i..j]` is a match of `\b\d+\b`: a non-empty run of digits with no
      word character directly before or after it. */
  predicate IsNumberAt(q: string, i: int, j: int) {
    && 0 <= i < j <= |q|
    && (forall k :: i <= k < j ==> IsDigit(q[k]))
    && (i == 0 || !IsWordChar(q[i - 1]))
    && (j == |q| || !IsWordChar(q[j]))
  }

  /** The end of the run of digits that starts at `k`. */
  function DigitRunEnd(q: string, k: nat): (j: nat)
    requires k <= |q|
    ensures k <= j <= |q|
    ensures forall m :: k <= m < j ==> IsDigit(q[m])
    ensures j == |q| || !IsDigit(q[j])
    decreases |q| - k
  {
    if k < |q| && IsDigit(q[k]) then DigitRunEnd(q, k + 1) else k
  }

  /** The spans of the matches found scanning from `k`, in order of occurrence. */
  function NumberSpansFrom(q: string, k: nat): (r: seq<(nat, nat)>)
    requires k <= |q|
    ensures forall p :: p in r ==> k <= p.0 && IsNumberAt(q, p.0, p.1)
    ensures forall a, b :: 0 <= a < b < |r| ==> r[a].1 <= r[b].0
    decreases |q| - k
  {
    if k == |q| then []
    else if IsDigit(q[k]) && (k == 0 || !IsWordChar(q[k - 1])) then
      var j := DigitRunEnd(q, k);
      if j == |q| || !IsWordChar(q[j]) then
        var rest := NumberSpansFrom(q, j);
        assert IsNumberAt(q, k, j);
        [(k, j)] + rest
      else NumberSpansFrom(q, j)
    else NumberSpansFrom(q, k + 1)
  }

  function NumberSpans(q: string): seq<(nat, nat)> {
    NumberSpansFrom(q, 0)
  }

  /** Every match at or after `k` is found by the scan from `k`. */
  lemma {:induction false} NumberSpansFromComplete(q: string, k: nat, i: nat, j: nat)
    requires k <= i && IsNumberAt(q, i, j)
    ensures (i, j) in NumberSpansFrom(q, k)
    decreases |q| - k
  {
    if IsDigit(q[k]) && (k == 0 || !IsWordChar(q[k - 1])) {
      var e := DigitRunEnd(q, k);
      if i == k {
        assert e == j;
      } else {
        assert e <= i;
        NumberSpansFromComplete(q, e, i, j);
      }
    } else {
      NumberSpansFromComplete(q, k + 1, i, j);
    }
  }

  /** The spans found are exactly the matches of `\b\d+\b`, in increasing,
      non-overlapping order. */
  lemma NumberSpansExact(q: string, i: nat, j: nat)
    ensures (i, j) in NumberSpans(q) <==> IsNumberAt(q, i, j)
    ensures forall a, b :: 0 <= a < b < |NumberSpans(q)| ==> NumberSpans(q)[a].1 <= NumberSpans(q)[b].0
  {
    if IsNumberAt(q, i, j) {
      NumberSpansFromComplete(q, 0, i, j);
    }
  }

  /** `extract_order_numbers`: the matched digit runs, in order of occurrence,
      duplicates kept. */
  function ExtractOrderNumbers(q: string): (r: seq<string>)
    ensures |r| == |NumberSpans(q)|
    ensures forall k :: 0 <= k < |r| ==> r[k] == q[NumberSpans(q)[k].0..NumberSpans(q)[k].1]
    ensures forall k :: 0 <= k < |r| ==> |r[k]| > 0 && forall m :: 0 <= m < |r[k]| ==> IsDigit(r[k][m])
  {
    var spans := NumberSpans(q);
    assert forall k :: 0 <= k < |spans| ==> spans[k] in spans;
    seq(|spans|, k requires 0 <= k < |spans| => q[spans[k].0..spans[k].1])
  }

  // ----- Dates -----

  /** The dates of the relative terms the text mentions: today for "today",
      the day before for "yesterday". */
  function RelativeDates(text: string, today: string, yesterday: string): seq<string> {
    (if Contains(Lower(text), "today") then [today] else [])
    + (if Contains(Lower(text), "yesterday") then [yesterday] else [])
  }

  /** The normalized dates of the absolute-date matches that parsed; a match
      that did not parse (`None`) is skipped. */
  function ParsedDates(parsed: seq<Option<string>>): (r: seq<string>)
    ensures forall d :: d in r ==> Some(d) in parsed
    ensures forall d :: Some(d) in parsed ==> d in r
  {
    if parsed == [] then []
    else
      var rest := ParsedDates(parsed[1..]);
      assert forall o :: o in parsed[1..] ==> o in parsed;
      match parsed[0]
      case None => rest
      case Some(d) => [d] + rest
  }

  /** `extract_and_normalize_dates_with_relative_terms`: the relative-term
      dates and the parsed absolute dates, without duplicates. `parsed` holds
      the date parser's outcome for each absolute-date match in the text. */
  function ExtractDates(text: string, today: string, yesterday: string, parsed: seq<Option<string>>): (r: seq<string>)
    ensures NoDuplicates(r)
    ensures forall d :: d in r ==>
      (d == today && Contains(Lower(text), "today"))
      || (d == yesterday && Contains(Lower(text), "yesterday"))
      || Some(d) in parsed
    ensures Contains(Lower(text), "today") ==> today in r
    ensures Contains(Lower(text), "yesterday") ==> yesterday in r
    ensures forall d :: Some(d) in parsed ==> d in r
  {
    var all := RelativeDates(text, today, yesterday) + ParsedDates(parsed);
    Dedup(all)
  }

  // ----- Status and source keywords -----

  const OrderStatuses: seq<string> := ["Confirmed", "Shipped", "New", "Canceled", "AT_WMS", "Error"]
  const OrderSources: seq<string> := ["BigCommerce", "Costco"]
  /** The statuses the date-only and source branches report, in this order. */
  const DefaultStatuses: seq<string> := ["New", "Confirmed", "AT_WMS", "Shipped"]

  const NoOrdersFound: string := "No orders found " + "for the given status and date."
  const NoDateTime: string := "No date time available"

  // ----- Result shapes -----

  /** One status summary: `{"Status", "Order count", "Date", "Cust_Refs"}`. */
  datatype OrderEntry = OrderEntry(status: string, count: nat, date: string, custRefs: seq<string>)

  /** The "nothing known" summary of the identifier and fallback branches. */
  const NoInfoEntry: OrderEntry := OrderEntry("No info available", 0, "N/A", ["N/A"])

  /** The list `order_data_retrieve` returns: summaries, or the order documents
      of an identifier hit. */
  datatype OrderResult = Entries(entries: seq<OrderEntry>) | Docs(docs: seq<Document>)

  /** `(result, is_po_no, is_po_data)`. */
  datatype OrderOutcome = OrderOutcome(result: OrderResult, isPoNo: bool, isPoData: bool)

  /** A row's `updated_date_time` as the branches read it: absent or empty,
      present but not ISO format, or parsed into its date and time parts. */
  datatype Timestamp = NoTimestamp | Malformed | Stamp(day: string, clock: string)

  /** The detail line of one order. */
  function RefLine(r: OrderRow, stampOf: string -> Timestamp): (line: string)
    ensures |line| > 10 && line[..10] == "Order Id: "
    ensures line != NoOrdersFound
  {
    var line := "Order Id: " + r.custRef + " - Date: "
      + match stampOf(r.json)
        case Stamp(d, c) => d + " - " + c
        case _ => NoDateTime;
    assert line[0] == 'O' && NoOrdersFound[0] == 'N';
    line
  }

  function RefLines(rows: seq<OrderRow>, stampOf: string -> Timestamp): (lines: seq<string>)
    ensures |lines| == |rows|
    ensures forall k :: 0 <= k < |rows| ==> lines[k] == RefLine(rows[k], stampOf)
  {
    seq(|rows|, k requires 0 <= k < |rows| => RefLine(rows[k], stampOf))
  }

  // ----- Branches 1 and 2: count and details for a (status, date) pair -----

  /** The row matches `order_status = <status lower-cased> AND order_date = <date>`. */
  predicate OnStatusAndDate(r: OrderRow, status: string, date: string) {
    r.status == Lower(status) && r.date == Some(date)
  }

  function StatusDateRows(rows: seq<OrderRow>, status: string, date: string): seq<OrderRow> {
    Filter(rows, r => OnStatusAndDate(r, status, date))
  }

  /** The detail lines of branches 1 and 2, which convert each present
      timestamp without catching the conversion error: `None` when some row's
      timestamp is malformed. */
  function StrictRefLines(rows: seq<OrderRow>, stampOf: string -> Timestamp): (r: Option<seq<string>>)
    ensures r.Some? <==> forall k :: 0 <= k < |rows| ==> !stampOf(rows[k].json).Malformed?
    ensures r.Some? ==> r.value == RefLines(rows, stampOf)
  {
    if exists k :: 0 <= k < |rows| && stampOf(rows[k].json).Malformed? then None
    else Some(RefLines(rows, stampOf))
  }

  /** The summary of one (status, date) pair; `None` when a malformed
      timestamp raised while it was built. */
  function StatusDateEntry(rows: seq<OrderRow>, status: string, date: string, stampOf: string -> Timestamp): (e: Option<OrderEntry>)
    ensures e.None? <==> exists k :: 0 <= k < |StatusDateRows(rows, status, date)|
                           && stampOf(StatusDateRows(rows, status, date)[k].json).Malformed?
    ensures e.Some? ==> e.value.status == status && e.value.date == date
    ensures e.Some? ==> e.value.count == |StatusDateRows(rows, status, date)|
    ensures e.Some? ==> (e.value.count == 0 <==> e.value.custRefs == [NoOrdersFound])
    ensures e.Some? && e.value.count > 0 ==> e.value.custRefs == RefLines(StatusDateRows(rows, status, date), stampOf)
  {
    var matched := StatusDateRows(rows, status, date);
    if |matched| == 0 then Some(OrderEntry(status, 0, date, [NoOrdersFound]))
    else
      match StrictRefLines(matched, stampOf)
      case None => None
      case Some(lines) =>
        assert lines[0] != NoOrdersFound;
        Some(OrderEntry(status, |matched|, date, lines))
  }

  /** Branch 2 over `statuses`: one summary per status, in order, stopping at
      the first status whose summary raised. */
  function AllStatusesFrom(rows: seq<OrderRow>, date: string, stampOf: string -> Timestamp, statuses: seq<string>): (r: seq<OrderEntry>)
    ensures |r| <= |statuses|
    ensures forall i :: 0 <= i < |r| ==> StatusDateEntry(rows, statuses[i], date, stampOf) == Some(r[i])
    ensures |r| < |statuses| ==> StatusDateEntry(rows, statuses[|r|], date, stampOf).None?
  {
    if statuses == [] then []
    else
      match StatusDateEntry(rows, statuses[0], date, stampOf)
      case None => []
      case Some(e) =>
        var rest := AllStatusesFrom(rows, date, stampOf, statuses[1..]);
        assert forall i :: 0 < i <= |rest| ==> statuses[i] == statuses[1..][i - 1];
        [e] + rest
  }

  // ----- Branch 3: per-status summaries for a named source -----

  /** The row matches `order_source = <source> AND (order_date = <date> OR
      LOWER(order_status) = <status lower-cased>)`; a missing date compares as
      NULL, which never matches. */
  predicate FromSource(r: OrderRow, source: string, date: Option<string>, status: string) {
    r.source == Some(source) && ((date.Some? && r.date == date) || Lower(r.status) == Lower(status))
  }

  function SourceRows(rows: seq<OrderRow>, source: string, date: Option<string>, status: string): seq<OrderRow> {
    Filter(rows, r => FromSource(r, source, date, status))
  }

  /** The summary of one status for a source; a timestamp that does not parse
      only changes its own row's line. */
  function SourceEntry(rows: seq<OrderRow>, source: string, date: Option<string>, status: string, stampOf: string -> Timestamp): (e: OrderEntry)
    ensures e.status == status
    ensures e.count == |SourceRows(rows, source, date, status)|
    ensures e.date == if date.Some? then date.value else "N/A"
    ensures e.count == 0 <==> e.custRefs == [NoOrdersFound]
    ensures e.count > 0 ==> e.custRefs == RefLines(SourceRows(rows, source, date, status), stampOf)
  {
    var matched := SourceRows(rows, source, date, status);
    if matched == [] then OrderEntry(status, 0, date.GetOr("N/A"), [NoOrdersFound])
    else
      var lines := RefLines(matched, stampOf);
      assert lines[0] != NoOrdersFound;
      OrderEntry(status, |matched|, date.GetOr("N/A"), lines)
  }

  function SourceEntries(rows: seq<OrderRow>, source: string, date: Option<string>, stampOf: string -> Timestamp): (r: seq<OrderEntry>)
    ensures |r| == |DefaultStatuses|
    ensures forall k :: 0 <= k < |r| ==> r[k].status == DefaultStatuses[k]
  {
    seq(|DefaultStatuses|, k requires 0 <= k < |DefaultStatuses| => SourceEntry(rows, source, date, DefaultStatuses[k], stampOf))
  }

  // ----- Branch 4: lookup by order number -----

  /** Rows whose `po_no` or `cust_ref` equals `number`. */
  function NumberRows(rows: seq<OrderRow>, number: string): seq<OrderRow> {
    Filter(rows, (r: OrderRow) => r.poNo == number || r.custRef == number)
  }

  function NumberLookup(rows: seq<OrderRow>, numbers: seq<string>): (out: OrderOutcome)
    requires |numbers| > 0
    ensures out.isPoNo
    ensures out.isPoData <==> exists r :: r in rows && (r.poNo == numbers[0] || r.custRef == numbers[0])
    ensures out.isPoData ==> out.result.Docs? && |out.result.docs| == |NumberRows(rows, numbers[0])|
    ensures out.isPoData ==> forall d :: d in out.result.docs ==> d.metadata == OrderNumbers(numbers)
    ensures out.isPoData ==> forall k :: 0 <= k < |out.result.docs| ==>
      out.result.docs[k] == Document(NumberRows(rows, numbers[0])[k].json, OrderNumbers(numbers))
    ensures !out.isPoData ==> out.result == Entries([NoInfoEntry])
  {
    var hits := NumberRows(rows, numbers[0]);
    if hits == [] then
      assert forall r :: r in rows ==> !(r.poNo == numbers[0] || r.custRef == numbers[0]);
      OrderOutcome(Entries([NoInfoEntry]), true, false)
    else
      assert hits[0] in rows;
      OrderOutcome(Docs(seq(|hits|, k requires 0 <= k < |hits| => Document(hits[k].json, OrderNumbers(numbers)))), true, true)
  }

  // ----- The decision tree -----

  datatype Branch = StatusOnDate | AllStatusesOnDate | BySource | ByNumber | NoMatch

  /** The branch that runs; exactly one does, tested in this order. */
  function SelectBranch(hasSource: bool, hasStatus: bool, hasDates: bool, hasNumber: bool): (b: Branch)
    ensures b == StatusOnDate <==> !hasSource && hasStatus && hasDates
    ensures b == AllStatusesOnDate <==> !hasStatus && hasDates
    ensures b == BySource <==> hasSource && (hasStatus || !hasDates)
    ensures b == ByNumber <==> !hasSource && !hasDates && hasNumber
    ensures b == NoMatch <==> !hasSource && !hasDates && !hasNumber
  {
    if !hasSource && hasStatus && hasDates then StatusOnDate
    else if !hasStatus && hasDates then AllStatusesOnDate
    else if hasSource then BySource
    else if hasNumber then ByNumber
    else NoMatch
  }

  /** What the query mentions: the index of the first source and of the first
      status keyword found, the extracted dates, and the order numbers. */
  datatype OrderMentions = OrderMentions(source: Option<nat>, status: Option<nat>, dates: seq<string>, numbers: seq<string>)

  predicate ValidOrderMentions(m: OrderMentions) {
    (m.source.Some? ==> m.source.value < |OrderSources|)
    && (m.status.Some? ==> m.status.value < |OrderStatuses|)
  }

  /** The mentions of a lower-cased query, given the dates extracted from it. */
  function OrderMentionsOf(q: string, dates: seq<string>): (m: OrderMentions)
    ensures ValidOrderMentions(m)
    ensures m.dates == dates && m.numbers == ExtractOrderNumbers(q)
    ensures FirstMentionOf(OrderSources, q, m.source) && FirstMentionOf(OrderStatuses, q, m.status)
  {
    OrderMentions(FirstMentioned(OrderSources, q), FirstMentioned(OrderStatuses, q), dates, ExtractOrderNumbers(q))
  }

  function BranchOf(m: OrderMentions): Branch {
    SelectBranch(m.source.Some?, m.status.Some?, |m.dates| > 0, |m.numbers| > 0)
  }

  /** The decision tree over what the query mentions. */
  function RetrieveOrders(m: OrderMentions, table: Option<seq<OrderRow>>, stampOf: string -> Timestamp): (out: OrderOutcome)
    requires ValidOrderMentions(m)
    ensures out.isPoData ==> out.isPoNo
    ensures out.isPoNo <==> BranchOf(m) == ByNumber
    ensures out.result.Docs? <==> out.isPoData
    ensures BranchOf(m) == NoMatch ==> out.result == Entries([NoInfoEntry])
    ensures table.None? && BranchOf(m) != NoMatch ==> out.result == Entries([])
    ensures BranchOf(m) == StatusOnDate ==>
      |out.result.entries| <= 1
      && forall e :: e in out.result.entries ==> e.status == OrderStatuses[m.status.value] && e.date == m.dates[0]
    ensures BranchOf(m) == AllStatusesOnDate ==>
      |out.result.entries| <= |DefaultStatuses|
      && forall k :: 0 <= k < |out.result.entries| ==>
           out.result.entries[k].status == DefaultStatuses[k] && out.result.entries[k].date == m.dates[0]
    ensures BranchOf(m) == StatusOnDate && table.Some? ==>
      var e := StatusDateEntry(table.value, OrderStatuses[m.status.value], m.dates[0], stampOf);
      (out.result.entries == [] <==> e.None?) && (e.Some? ==> out.result.entries == [e.value])
    ensures BranchOf(m) == AllStatusesOnDate && table.Some? ==>
      out.result.entries == AllStatusesFrom(table.value, m.dates[0], stampOf, DefaultStatuses)
    ensures BranchOf(m) == BySource && table.Some? ==>
      out.result == Entries(SourceEntries(table.value, OrderSources[m.source.value],
                                          if |m.dates| > 0 then Some(m.dates[0]) else None, stampOf))
    ensures BranchOf(m) == ByNumber && table.Some? ==>
      (out.isPoData <==> exists r :: r in table.value && (r.poNo == m.numbers[0] || r.custRef == m.numbers[0]))
    ensures BranchOf(m) == ByNumber && table.Some? ==> out == NumberLookup(table.value, m.numbers)
  {
    match BranchOf(m)
    case StatusOnDate =>
      if table.None? then OrderOutcome(Entries([]), false, false)
      else
        var entries := match StatusDateEntry(table.value, OrderStatuses[m.status.value], m.dates[0], stampOf)
          case None => []
          case Some(e) => [e];
        OrderOutcome(Entries(entries), false, false)
    case AllStatusesOnDate =>
      if table.None? then OrderOutcome(Entries([]), false, false)
      else
        var entries := AllStatusesFrom(table.value, m.dates[0], stampOf, DefaultStatuses);
        OrderOutcome(Entries(entries), false, false)
    case BySource =>
      if table.None? then OrderOutcome(Entries([]), false, false)
      else OrderOutcome(Entries(SourceEntries(table.value, OrderSources[m.source.value],
                                              if |m.dates| > 0 then Some(m.dates[0]) else None, stampOf)), false, false)
    case ByNumber =>
      if table.None? then OrderOutcome(Entries([]), true, false)
      else NumberLookup(table.value, m.numbers)
    case NoMatch =>
      OrderOutcome(Entries([NoInfoEntry]), false, false)
  }

  /** The clock and date-parser inputs of one call: today's and yesterday's
      dates, and the parse of each absolute-date match in the query. */
  datatype DateInputs = DateInputs(today: string, yesterday: string, parsed: seq<Option<string>>)

  /** `order_data_retrieve(query)`. */
  function OrderDataRetrieve(query: string, clock: DateInputs, table: Option<seq<OrderRow>>, stampOf: string -> Timestamp): (out: OrderOutcome)
    ensures out.isPoData ==> out.isPoNo && out.result.Docs?
    ensures out.result.Entries? <==> !out.isPoData
    ensures out.isPoNo ==> |ExtractOrderNumbers(Lower(query))| > 0
  {
    var q := Lower(query);
    RetrieveOrders(OrderMentionsOf(q, ExtractDates(q, clock.today, clock.yesterday, clock.parsed)), table, stampOf)
  }
}
