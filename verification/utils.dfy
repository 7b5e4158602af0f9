/** The text helpers of `utils.py`: HTML-tag removal, the whitespace collapse
    of `json_to_text`, and the per-status projection of an order record in
    `get_order_data_by_status`. `html.unescape`, `json.dumps` and the HTTP
    request are inputs. */
module Utils {
  import opened Wrappers
  import opened Seqs
  import opened Text

  // ---------------------------------------------------------------------
  // remove_html_tags

  /** Where the lazy `.*?>` of the tag pattern ends when it starts at `k`:
      the first '>' at or after `k` on the same line, or `None` when the
      line (or the text) ends first. */
  function TagEnd(s: string, k: nat): (r: Option<nat>)
    requires k <= |s|
    ensures r.Some? ==> k <= r.value < |s| && s[r.value] == '>'
    ensures r.Some? ==> forall m :: k <= m < r.value ==> s[m] != '>' && s[m] != '\n'
    ensures r.None? <==> exists e :: LineEndsAt(s, k, e)
    decreases |s| - k
  {
    if k == |s| then
      assert LineEndsAt(s, k, k);
      None
    else if s[k] == '\n' then
      assert LineEndsAt(s, k, k);
      None
    else if s[k] == '>' then
      assert forall e :: !LineEndsAt(s, k, e);
      Some(k)
    else
      var r := TagEnd(s, k + 1);
      assert forall e :: LineEndsAt(s, k, e) ==> LineEndsAt(s, k + 1, e);
      if r.None? then
        var e :| LineEndsAt(s, k + 1, e);
        assert LineEndsAt(s, k, e);
        r
      else r
  }

  /** The line that contains index `k` ends at `e` (a line break or the end of
      the text) without a '>' in between. */
  predicate LineEndsAt(s: string, k: nat, e: int) {
    k <= e <= |s| && (e == |s| || s[e] == '\n')
    && forall m :: k <= m < e ==> s[m] != '>' && s[m] != '\n'
  }

  /** `re.sub('<.*?>', '', s[k..])`: a '<' that starts a tag on its line
      removes everything up to and including the tag's '>'; any other
      character, including a '<' with no '>' after it on its line, stays. */
  function StripTagsFrom(s: string, k: nat): string
    requires k <= |s|
    decreases |s| - k
  {
    if k == |s| then []
    else if s[k] == '<' && TagEnd(s, k + 1).Some? then StripTagsFrom(s, TagEnd(s, k + 1).value + 1)
    else [s[k]] + StripTagsFrom(s, k + 1)
  }

  function StripTags(s: string): string {
    StripTagsFrom(s, 0)
  }

  /** No '<' of `s` starts a tag: the tag pattern finds nothing in it. */
  predicate TagFree(s: string) {
    forall i :: 0 <= i < |s| && s[i] == '<' ==> TagEnd(s, i + 1).None?
  }

  /** Putting one character in front shifts where a tag ends by one. */
  lemma {:induction false} TagEndShift(c: char, t: string, i: nat)
    requires i <= |t|
    ensures TagEnd([c] + t, i + 1).None? <==> TagEnd(t, i).None?
    decreases |t| - i
  {
    var s := [c] + t;
    if i < |t| {
      assert s[i + 1] == t[i];
      if t[i] != '\n' && t[i] != '>' {
        TagEndShift(c, t, i + 1);
      }
    }
  }

  /** A text whose current line holds no '>' keeps that property after tag
      removal. */
  lemma {:induction false} StripTagsKeepsOpenLine(s: string, k: nat)
    requires k <= |s| && TagEnd(s, k).None?
    ensures TagEnd(StripTagsFrom(s, k), 0).None?
    decreases |s| - k
  {
    if k < |s| && s[k] != '\n' {
      assert s[k] != '>';
      assert TagEnd(s, k + 1).None?;
      var rest := StripTagsFrom(s, k + 1);
      assert StripTagsFrom(s, k) == [s[k]] + rest;
      StripTagsKeepsOpenLine(s, k + 1);
      TagEndShift(s[k], rest, 0);
    }
  }

  /** What tag removal leaves contains no tag. */
  lemma {:induction false} StripTagsFromTagFree(s: string, k: nat)
    requires k <= |s|
    ensures TagFree(StripTagsFrom(s, k))
    decreases |s| - k
  {
    if k < |s| {
      if s[k] == '<' && TagEnd(s, k + 1).Some? {
        StripTagsFromTagFree(s, TagEnd(s, k + 1).value + 1);
      } else {
        var rest := StripTagsFrom(s, k + 1);
        var r := [s[k]] + rest;
        assert StripTagsFrom(s, k) == r;
        StripTagsFromTagFree(s, k + 1);
        forall i | 0 <= i < |r| && r[i] == '<' ensures TagEnd(r, i + 1).None? {
          if i == 0 {
            StripTagsKeepsOpenLine(s, k + 1);
          } else {
            assert rest[i - 1] == '<';
          }
          TagEndShift(s[k], rest, i);
        }
      }
    }
  }

  /** Tag removal leaves a tag-free text alone. */
  lemma {:induction false} StripTagsFromTagFreeText(s: string, k: nat)
    requires k <= |s| && TagFree(s)
    ensures StripTagsFrom(s, k) == s[k..]
    decreases |s| - k
  {
    if k < |s| {
      StripTagsFromTagFreeText(s, k + 1);
    }
  }

  /** Removing tags twice removes nothing more. */
  lemma StripTagsIdempotent(s: string)
    ensures TagFree(StripTags(s))
    ensures StripTags(StripTags(s)) == StripTags(s)
  {
    StripTagsFromTagFree(s, 0);
    StripTagsFromTagFreeText(StripTags(s), 0);
  }

  /** A text without '<' has no tags to remove. */
  lemma {:induction false} StripTagsWithoutOpen(s: string, k: nat)
    requires k <= |s| && '<' !in s
    ensures StripTagsFrom(s, k) == s[k..]
    decreases |s| - k
  {
    if k < |s| {
      StripTagsWithoutOpen(s, k + 1);
    }
  }

  /** `s` with every `c` removed. */
  function DropChar(s: string, c: char): (r: string)
    ensures c !in r
    ensures forall x :: x in r ==> x in s
  {
    Filter(s, x => x != c)
  }

  /** Python's `s.replace(c, '')` removes exactly the `c`s. */
  lemma {:induction false} DropCharIsReplace(s: string, c: char)
    ensures ReplaceAll(s, [c], "") == DropChar(s, c)
    decreases |s|
  {
    if s != [] {
      DropCharIsReplace(s[1..], c);
      assert s[..1] == [s[0]];
    }
  }

  /** `s` with every `c` turned into `d`. */
  function SwapChar(s: string, c: char, d: char): (r: string)
    ensures |r| == |s|
    ensures forall i :: 0 <= i < |s| ==> r[i] == if s[i] == c then d else s[i]
  {
    seq(|s|, i requires 0 <= i < |s| => if s[i] == c then d else s[i])
  }

  /** Python's `s.replace(c, d)` for single characters is `SwapChar`. */
  lemma {:induction false} SwapCharIsReplace(s: string, c: char, d: char)
    ensures ReplaceAll(s, [c], [d]) == SwapChar(s, c, d)
    decreases |s|
  {
    if s != [] {
      SwapCharIsReplace(s[1..], c, d);
      assert s[..1] == [s[0]];
      assert SwapChar(s, c, d) == [if s[0] == c then d else s[0]] + SwapChar(s[1..], c, d);
    }
  }

  /** Every character `Strip` keeps comes from its input. */
  lemma StripKeepsCharacters(s: string)
    ensures forall x :: x in Strip(s) ==> x in s
  {
    var t := TrimStart(s);
    var r := TrimEnd(t);
    assert Strip(s) == r;
    forall x | x in r ensures x in s {
      var i :| 0 <= i < |r| && r[i] == x;
      assert t[i] == x;
      assert s[|s| - |t| + i] == x;
    }
  }

  /** `remove_html_tags(text)` with `html.unescape` given as `unescape`: tags
      out, entities decoded, carriage returns and line breaks dropped,
      non-breaking spaces made plain, and the ends stripped. */
  function RemoveHtmlTags(text: string, unescape: string -> string): (r: string)
    ensures '\r' !in r && '\n' !in r && '\U{00A0}' !in r
    ensures r == [] || (!IsSpace(r[0]) && !IsSpace(r[|r| - 1]))
  {
    var decoded := unescape(StripTags(text));
    var noCr := ReplaceAll(decoded, "\r", "");
    var noLf := ReplaceAll(noCr, "\n", "");
    var plain := ReplaceAll(noLf, "\U{00A0}", " ");
    DropCharIsReplace(decoded, '\r');
    DropCharIsReplace(noCr, '\n');
    SwapCharIsReplace(noLf, '\U{00A0}', ' ');
    assert forall x :: x in plain ==> (x in noLf && x != '\U{00A0}') || x == ' ';
    StripKeepsCharacters(plain);
    Strip(plain)
  }

  /** Text with no '<' loses no tag, so it comes out as its unescaped form
      whenever that form is already clean. */
  lemma RemoveHtmlTagsOfPlain(text: string, unescape: string -> string)
    requires '<' !in text
    requires '\r' !in unescape(text) && '\n' !in unescape(text) && '\U{00A0}' !in unescape(text)
    requires var d := unescape(text); d == [] || (!IsSpace(d[0]) && !IsSpace(d[|d| - 1]))
    ensures RemoveHtmlTags(text, unescape) == unescape(text)
  {
    var d := unescape(text);
    StripTagsWithoutOpen(text, 0);
    assert StripTags(text) == text;
    ContainsChar(d, '\r');
    ContainsChar(d, '\n');
    ContainsChar(d, '\U{00A0}');
    ReplaceAllAbsent(d, "\r", "");
    ReplaceAllAbsent(d, "\n", "");
    ReplaceAllAbsent(d, "\U{00A0}", " ");
    StripOfNoSpace(d);
  }

  /** Tags are removed before entities are decoded, so an escaped tag comes
      out as a literal tag. */
  lemma EscapedTagSurvives(unescape: string -> string)
    requires unescape("&lt;b&gt;") == "<b>"
    ensures RemoveHtmlTags("&lt;b&gt;", unescape) == "<b>"
  {
    var s, d := "&lt;b&gt;", "<b>";
    assert '<' !in s;
    assert '\r' !in d && '\n' !in d && '\U{00A0}' !in d;
    assert !IsSpace(d[0]) && !IsSpace(d[|d| - 1]);
    RemoveHtmlTagsOfPlain(s, unescape);
  }

  // ---------------------------------------------------------------------
  // json_to_text

  /** `re.sub(r"\s+", " ", s)`: every run of whitespace becomes one space. */
  function CollapseSpace(s: string): (r: string)
    ensures forall i :: 0 <= i < |r| && IsSpace(r[i]) ==> r[i] == ' '
    ensures forall i :: 0 <= i < |r| - 1 ==> !(IsSpace(r[i]) && IsSpace(r[i + 1]))
    ensures |r| <= |s|
    ensures s != [] ==> r != [] && (IsSpace(r[0]) <==> IsSpace(s[0]))
    decreases |s|
  {
    if s == [] then []
    else if IsSpace(s[0]) then
      var rest := CollapseSpace(TrimStart(s[1..]));
      assert rest == [] || !IsSpace(rest[0]);
      assert forall i :: 0 < i < |rest| + 1 ==> ([' '] + rest)[i] == rest[i - 1];
      [' '] + rest
    else
      var rest := CollapseSpace(s[1..]);
      assert forall i :: 0 < i < |rest| + 1 ==> ([s[0]] + rest)[i] == rest[i - 1];
      [s[0]] + rest
  }

  /** The text of a JSON document once `json.dumps` has rendered it as
      `dumped`: no run of whitespace, no line break and no tab remain. */
  function JsonToText(dumped: string): (r: string)
    ensures forall i :: 0 <= i < |r| - 1 ==> !(IsSpace(r[i]) && IsSpace(r[i + 1]))
    ensures '\n' !in r && '\t' !in r && '\r' !in r
  {
    var r := CollapseSpace(dumped);
    assert IsSpace('\n') && IsSpace('\t') && IsSpace('\r');
    r
  }

  function NonSpace(s: string): string {
    Filter(s, c => !IsSpace(c))
  }

  /** Leading whitespace carries no non-space character. */
  lemma {:induction false} NonSpaceTrimStart(s: string)
    ensures NonSpace(TrimStart(s)) == NonSpace(s)
    decreases |s|
  {
    if s != [] && IsSpace(s[0]) {
      NonSpaceTrimStart(s[1..]);
    }
  }

  /** Collapsing whitespace keeps every other character, in order. */
  lemma {:induction false} CollapseSpaceKeepsText(s: string)
    ensures NonSpace(CollapseSpace(s)) == NonSpace(s)
    decreases |s|
  {
    if s != [] {
      if IsSpace(s[0]) {
        var t := TrimStart(s[1..]);
        CollapseSpaceKeepsText(t);
        NonSpaceTrimStart(s[1..]);
        assert CollapseSpace(s) == " " + CollapseSpace(t);
        assert NonSpace(" " + CollapseSpace(t)) == NonSpace(CollapseSpace(t)) by {
          assert IsSpace(' ');
          assert (" " + CollapseSpace(t))[1..] == CollapseSpace(t);
        }
      } else {
        CollapseSpaceKeepsText(s[1..]);
        assert CollapseSpace(s)[1..] == CollapseSpace(s[1..]);
      }
    }
  }

  /** A text without whitespace runs other than single spaces is unchanged. */
  lemma {:induction false} CollapseSpaceOfCollapsed(s: string)
    requires forall i :: 0 <= i < |s| && IsSpace(s[i]) ==> s[i] == ' '
    requires forall i :: 0 <= i < |s| - 1 ==> !(IsSpace(s[i]) && IsSpace(s[i + 1]))
    ensures CollapseSpace(s) == s
    decreases |s|
  {
    if s != [] {
      CollapseSpaceOfCollapsed(s[1..]);
      if IsSpace(s[0]) {
        assert TrimStart(s[1..]) == s[1..];
        assert s == " " + s[1..];
      }
    }
  }

  /** Converting twice gives what converting once gives. */
  lemma JsonToTextIdempotent(dumped: string)
    ensures CollapseSpace(JsonToText(dumped)) == JsonToText(dumped)
  {
    CollapseSpaceOfCollapsed(JsonToText(dumped));
  }

  // ---------------------------------------------------------------------
  // get_order_data_by_status

  /** A JSON value, kept as its text. */
  type Value = string

  /** A JSON object as a Python dictionary holds it: its entries in insertion
      order (the order `json.dumps` writes them in). */
  type Record = seq<(string, Value)>

  /** An order as the order feed returns it: its top-level fields, its line
      items and its shipments. */
  datatype ApiOrder = ApiOrder(
    fields: map<string, Value>,
    items: seq<map<string, Value>>,
    shipments: seq<map<string, Value>>)

  /** The entries a projection copies: (key in the output, key in the source). */
  type Pairs = seq<(string, string)>

  /** The dictionary display `{out: src[key], ...}`; `None` when some source
      key is missing (the `KeyError` it raises). */
  function Project(pairs: Pairs, src: map<string, Value>): (r: Option<Record>)
    ensures r.Some? <==> forall k :: 0 <= k < |pairs| ==> pairs[k].1 in src
    ensures r.Some? ==>
      (|r.value| == |pairs| && forall k :: 0 <= k < |pairs| ==> r.value[k] == (pairs[k].0, src[pairs[k].1]))
  {
    if forall k :: 0 <= k < |pairs| ==> pairs[k].1 in src
    then Some(seq(|pairs|, k requires 0 <= k < |pairs| => (pairs[k].0, src[pairs[k].1])))
    else None
  }

  /** The fields every projected order carries, whatever its status. */
  const CommonPairs: Pairs := [
    ("updated_date_time", "updated_date_time"), ("cust_ref", "cust_ref"), ("po_no", "cust_po_no"),
    ("cust_first_name", "cust_first_name"), ("cust_last_name", "cust_last_name"),
    ("cust_address_1", "cust_address_1"), ("cust_address_2", "cust_address_2"),
    ("cust_address_3", "cust_address_3"), ("cust_city", "cust_city"), ("cust_state", "cust_state"),
    ("cust_zip", "cust_zip"), ("cust_country", "cust_country"), ("cust_phone", "cust_phone"),
    ("cust_e_mail", "cust_e_mail"), ("requested_ship_date", "requested_ship_date"),
    ("ship_company", "ship_company"), ("ship_address_1", "ship_address_1"),
    ("ship_address_2", "ship_address_2"), ("ship_address_3", "ship_address_3"),
    ("ship_city", "ship_city"), ("ship_state", "ship_state"), ("ship_zip", "ship_zip"),
    ("ship_country", "ship_country"), ("ship_phone", "ship_phone"), ("ship_e_mail", "ship_e_mail"),
    ("order_source", "order_source"), ("order_date", "order_date")]

  /** The statuses the projection knows. */
  predicate KnownStatus(status: string) {
    status == "new" || status == "at_wms" || status == "shipped_or_confirmed"
  }

  /** The extra top-level fields of a known status; each starts with the
      order status and the book date. */
  function StatusPairs(status: string): Pairs {
    if status == "new" then
      [("order_status", "order_status"), ("order_date/book_date", "order_date"),
       ("mark_in_progress_date", "mark_in_progress_date")]
    else if status == "at_wms" then
      [("order_status", "order_status"), ("order_date/book_date", "order_date"),
       ("mark_in_progress_date", "mark_in_progress_date"),
       ("order_is_at_the_warehouse_or_wms", "delivered_to_wms_date")]
    else if status == "shipped_or_confirmed" then
      [("order_status", "order_status"), ("order_date/book_date", "order_date"),
       ("shipping_instructions", "shipping_instructions")]
    else []
  }

  /** The fields taken from the first line item or the first shipment. */
  function NestedPairs(status: string): Pairs {
    if status == "new" || status == "at_wms" then
      [("item_description", "Description"), ("line_item_id", "line_item_id")]
    else if status == "shipped_or_confirmed" then
      [("carrier", "carrier"), ("tracking_no", "tracking_no")]
    else []
  }

  /** The fields a known status copies after the nested ones. */
  function TrailingPairs(status: string): Pairs {
    if status == "shipped_or_confirmed" then [("order_confirmed_or_shipped_date", "requested_ship_date")]
    else []
  }

  /** The nested record the nested fields come from; `None` when the list is
      empty (the `IndexError` of `[0]`), and an empty one for statuses that
      read none. */
  function NestedSource(status: string, o: ApiOrder): Option<map<string, Value>> {
    if status == "new" || status == "at_wms" then (if o.items == [] then None else Some(o.items[0]))
    else if status == "shipped_or_confirmed" then (if o.shipments == [] then None else Some(o.shipments[0]))
    else Some(map[])
  }

  /** Every source key of `pairs` is in `src`. */
  predicate Reads(pairs: Pairs, src: map<string, Value>) {
    forall k :: 0 <= k < |pairs| ==> pairs[k].1 in src
  }

  /** Every field the projection for `status` reads is present. */
  predicate HasFields(status: string, o: ApiOrder) {
    && Reads(CommonPairs, o.fields)
    && Reads(StatusPairs(status), o.fields)
    && Reads(TrailingPairs(status), o.fields)
    && NestedSource(status, o).Some?
    && Reads(NestedPairs(status), NestedSource(status, o).value)
  }

  /** One cleaned order of `get_order_data_by_status(status)`: the common
      fields, then the status's own fields, then those of the first line item
      or shipment, then any trailing field; `None` when a field it reads is
      missing, which raises out of the function. */
  function ProjectOrder(status: string, o: ApiOrder): (r: Option<Record>)
    ensures r.Some? <==> HasFields(status, o)
    ensures r.Some? ==> |r.value| == 27 + |StatusPairs(status)| + |NestedPairs(status)| + |TrailingPairs(status)|
    ensures r.Some? ==> Project(CommonPairs, o.fields).Some? && r.value[..27] == Project(CommonPairs, o.fields).value
  {
    var common := Project(CommonPairs, o.fields);
    var extra := Project(StatusPairs(status), o.fields);
    var nested := NestedSource(status, o);
    var trailing := Project(TrailingPairs(status), o.fields);
    if common.None? || extra.None? || nested.None? || trailing.None? then None
    else
      var inner := Project(NestedPairs(status), nested.value);
      if inner.None? then None
      else
        assert |common.value| == 27;
        var r := common.value + extra.value + inner.value + trailing.value;
        assert r[..27] == common.value;
        Some(r)
  }

  /** Every projected order starts with the customer reference, the purchase
      order number (renamed from `cust_po_no`) and ends its common part with
      the order date. */
  lemma ProjectedCommonFields(status: string, o: ApiOrder)
    requires ProjectOrder(status, o).Some?
    ensures var r := ProjectOrder(status, o).value;
      && "cust_ref" in o.fields && r[1] == ("cust_ref", o.fields["cust_ref"])
      && "cust_po_no" in o.fields && r[2] == ("po_no", o.fields["cust_po_no"])
      && "order_date" in o.fields && r[26] == ("order_date", o.fields["order_date"])
  {
    var r := ProjectOrder(status, o).value;
    var common := Project(CommonPairs, o.fields).value;
    assert CommonPairs[1] == ("cust_ref", "cust_ref") && CommonPairs[2] == ("po_no", "cust_po_no");
    assert CommonPairs[26] == ("order_date", "order_date");
    assert r[1] == r[..27][1] && r[2] == r[..27][2] && r[26] == r[..27][26];
  }

  /** For a known status the record goes on with the order status and the
      order date again, as `order_date/book_date`. */
  lemma ProjectedStatusFields(status: string, o: ApiOrder)
    requires ProjectOrder(status, o).Some? && KnownStatus(status)
    ensures var r := ProjectOrder(status, o).value;
      && "order_status" in o.fields && r[27] == ("order_status", o.fields["order_status"])
      && "order_date" in o.fields && r[28] == ("order_date/book_date", o.fields["order_date"])
      && r[28].1 == r[26].1
  {
    ProjectedCommonFields(status, o);
    var common := Project(CommonPairs, o.fields).value;
    var extra := Project(StatusPairs(status), o.fields).value;
    assert StatusPairs(status)[0] == ("order_status", "order_status");
    assert StatusPairs(status)[1] == ("order_date/book_date", "order_date");
    var inner := Project(NestedPairs(status), NestedSource(status, o).value).value;
    var trailing := Project(TrailingPairs(status), o.fields).value;
    var r := common + extra + inner + trailing;
    assert ProjectOrder(status, o).value == r;
    assert r[27] == extra[0] && r[28] == extra[1];
  }

  /** New and at-WMS orders carry the description and id of their first line
      item. */
  lemma ProjectedLineItem(status: string, o: ApiOrder)
    requires ProjectOrder(status, o).Some? && (status == "new" || status == "at_wms")
    ensures var r := ProjectOrder(status, o).value; var n := 27 + |StatusPairs(status)|;
      && o.items != [] && "Description" in o.items[0] && "line_item_id" in o.items[0]
      && r[n] == ("item_description", o.items[0]["Description"])
      && r[n + 1] == ("line_item_id", o.items[0]["line_item_id"])
  {
    var common := Project(CommonPairs, o.fields).value;
    var extra := Project(StatusPairs(status), o.fields).value;
    var inner := Project(NestedPairs(status), o.items[0]).value;
    var trailing := Project(TrailingPairs(status), o.fields).value;
    var r := common + extra + inner + trailing;
    assert ProjectOrder(status, o).value == r;
    assert r[|common| + |extra|] == inner[0] && r[|common| + |extra| + 1] == inner[1];
  }

  /** Shipped-or-confirmed orders carry the carrier and tracking number of
      their first shipment, then the requested ship date as the confirmation
      date. */
  lemma ProjectedShipment(o: ApiOrder)
    requires ProjectOrder("shipped_or_confirmed", o).Some?
    ensures var r := ProjectOrder("shipped_or_confirmed", o).value;
      && o.shipments != [] && "carrier" in o.shipments[0] && "tracking_no" in o.shipments[0]
      && r[30] == ("carrier", o.shipments[0]["carrier"])
      && r[31] == ("tracking_no", o.shipments[0]["tracking_no"])
      && "requested_ship_date" in o.fields
      && r[32] == ("order_confirmed_or_shipped_date", o.fields["requested_ship_date"])
  {
    var status := "shipped_or_confirmed";
    var common := Project(CommonPairs, o.fields).value;
    var extra := Project(StatusPairs(status), o.fields).value;
    var inner := Project(NestedPairs(status), o.shipments[0]).value;
    var trailing := Project(TrailingPairs(status), o.fields).value;
    var r := common + extra + inner + trailing;
    assert ProjectOrder(status, o).value == r;
    assert r[30] == inner[0] && r[31] == inner[1] && r[32] == trailing[0];
  }

  /** Any other status yields the common fields alone. */
  lemma ProjectedUnknownStatus(status: string, o: ApiOrder)
    requires !KnownStatus(status)
    ensures ProjectOrder(status, o) == Project(CommonPairs, o.fields)
  {
    var common := Project(CommonPairs, o.fields);
    if common.Some? {
      assert common.value + [] + [] + [] == common.value;
    }
  }

  /** `get_order_data_by_status(status)` once the request has produced
      `response` (`None` for a failed request or a status other than 200):
      `Failure` when projecting some order raises, `Success(None)` when the
      request failed, and otherwise one projected record per order, in order. */
  function GetOrderDataByStatus(status: string, response: Option<seq<ApiOrder>>): (r: Result<Option<seq<Record>>, string>)
    ensures response.None? ==> r == Success(None)
    ensures response.Some? ==> (r.Failure? <==> exists k :: 0 <= k < |response.value| && ProjectOrder(status, response.value[k]).None?)
    ensures r.Success? && r.value.Some? ==>
      (response.Some? && |r.value.value| == |response.value|
       && forall k :: 0 <= k < |response.value| ==> Some(r.value.value[k]) == ProjectOrder(status, response.value[k]))
  {
    match response
    case None => Success(None)
    case Some(orders) =>
      if exists k :: 0 <= k < |orders| && ProjectOrder(status, orders[k]).None? then Failure("KeyError")
      else Success(Some(seq(|orders|, k requires 0 <= k < |orders| => ProjectOrder(status, orders[k]).value)))
  }
}
