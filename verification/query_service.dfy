/** The query classifier and the per-session query history of
    `rephrase_query`. The language model's completion is an input: the
    rephrased query is that completion, stripped. */
module QueryService {
  import opened Wrappers
  import opened Text

  datatype Category = OrderQuery | ProductQuery | InventoryQuery | PagesQuery | MiscQuery

  /** The label string the rest of the program tests with substring checks. */
  function Label(c: Category): string {
    match c
    case OrderQuery => "order-query"
    case ProductQuery => "product-query"
    case InventoryQuery => "inventory-query"
    case PagesQuery => "pages-query"
    case MiscQuery => "misc-query"
  }

  /** The labels are lower-case already, so `label.lower()` is the label. */
  lemma LabelIsLower(c: Category)
    ensures Lower(Label(c)) == Label(c)
  {
    var s := Label(c);
    assert forall i :: 0 <= i < |s| ==> !('A' <= s[i] <= 'Z');
    LowerOfLower(s);
  }

  /** Only the order label contains "order". */
  lemma LabelHasOrder(c: Category)
    ensures Contains(Label(c), "order") <==> c == OrderQuery
  {
    var s := Label(c);
    match c
    case OrderQuery => assert OccursAt(s, "order", 0);
    case ProductQuery => ProductLabelLacksOrder();
    case InventoryQuery => NotContainsAt(s, "order", 2);
    case PagesQuery => NotContainsAt(s, "order", 0);
    case MiscQuery => NotContainsAt(s, "order", 0);
  }

  /** Only the inventory label contains "inventory". */
  lemma LabelHasInventory(c: Category)
    ensures Contains(Label(c), "inventory") <==> c == InventoryQuery
  {
    var s := Label(c);
    match c
    case InventoryQuery => assert OccursAt(s, "inventory", 0);
    case OrderQuery => NotContainsAt(s, "inventory", 2);
    case ProductQuery => NotContainsAt(s, "inventory", 2);
    case PagesQuery => NotContainsAt(s, "inventory", 2);
    case MiscQuery => NotContainsAt(s, "inventory", 2);
  }

  /** Each letter of "order" occurs in "product-query", but never in the
      arrangement "order". */
  lemma ProductLabelLacksOrder()
    ensures !Contains(Label(ProductQuery), "order")
  {
    var s := Label(ProductQuery);
    forall i | 0 <= i <= |s| - 5 ensures !OccursAt(s, "order", i) {
      assert s[i..i + 5][0] == s[i] && s[i..i + 5][1] == s[i + 1];
    }
  }

  /** Only the product label contains "product", lower-cased or not. */
  lemma LabelHasProduct(c: Category)
    ensures Contains(Lower(Label(c)), "product") <==> c == ProductQuery
  {
    LabelIsLower(c);
    LabelHasProductAsIs(c);
  }

  lemma LabelHasProductAsIs(c: Category)
    ensures Contains(Label(c), "product") <==> c == ProductQuery
  {
    var s := Label(c);
    match c
    case ProductQuery => assert OccursAt(s, "product", 0);
    case PagesQuery => NotContainsAt(s, "product", 1);
    case OrderQuery => NotContainsAt(s, "product", 0);
    case InventoryQuery => NotContainsAt(s, "product", 0);
    case MiscQuery => NotContainsAt(s, "product", 0);
  }

  /** The position of a category in the classifier's fixed output order. */
  function Rank(c: Category): nat {
    match c
    case OrderQuery => 0
    case ProductQuery => 1
    case InventoryQuery => 2
    case PagesQuery => 3
    case MiscQuery => 4
  }

  /** The keyword that selects a keyword category (already lower-case, so
      `keyword.lower()` is the keyword itself). */
  function Keyword(c: Category): string
    requires c != MiscQuery
  {
    match c
    case OrderQuery => "order"
    case ProductQuery => "product"
    case InventoryQuery => "inventory"
    case PagesQuery => "pages"
  }

  /** The rephrased text mentions the category's keyword, ignoring case. */
  predicate Mentions(rephrased: string, c: Category)
    requires c != MiscQuery
  {
    Contains(Lower(rephrased), Keyword(c))
  }

  /** The categories selected by which of the four keywords occur, in the
      fixed order; `misc` alone when none does. */
  function CategoriesOf(order: bool, product: bool, inventory: bool, pages: bool): (cats: seq<Category>)
    ensures |cats| > 0
    ensures OrderQuery in cats <==> order
    ensures ProductQuery in cats <==> product
    ensures InventoryQuery in cats <==> inventory
    ensures PagesQuery in cats <==> pages
    ensures MiscQuery in cats <==> cats == [MiscQuery]
    ensures cats == [MiscQuery] <==> !order && !product && !inventory && !pages
    ensures forall i, j :: 0 <= i < j < |cats| ==> Rank(cats[i]) < Rank(cats[j])
  {
    var found := Present([order, product, inventory, pages], 0);
    assert Rank(OrderQuery) == 0 && Rank(ProductQuery) == 1 && Rank(InventoryQuery) == 2 && Rank(PagesQuery) == 3;
    if found == [] then [MiscQuery] else found
  }

  /** The keyword category in rank position `k`. */
  function Slot(k: nat): (c: Category)
    requires k < 4
    ensures Rank(c) == k
  {
    if k == 0 then OrderQuery else if k == 1 then ProductQuery else if k == 2 then InventoryQuery else PagesQuery
  }

  /** The keyword categories from rank `k` on whose flag is set, in rank order. */
  function Present(flags: seq<bool>, k: nat): (r: seq<Category>)
    requires |flags| == 4 && k <= 4
    ensures forall i, j :: 0 <= i < j < |r| ==> Rank(r[i]) < Rank(r[j])
    ensures forall c :: c in r <==> k <= Rank(c) < 4 && flags[Rank(c)]
    decreases 4 - k
  {
    if k == 4 then []
    else
      var rest := Present(flags, k + 1);
      if flags[k] then [Slot(k)] + rest else rest
  }

  /** The categories of a rephrased query: every keyword category whose keyword
      it mentions, in the fixed order order, product, inventory, pages; and
      just `misc` when it mentions none. */
  function Classify(rephrased: string): (cats: seq<Category>)
    ensures |cats| > 0
    ensures OrderQuery in cats <==> Mentions(rephrased, OrderQuery)
    ensures ProductQuery in cats <==> Mentions(rephrased, ProductQuery)
    ensures InventoryQuery in cats <==> Mentions(rephrased, InventoryQuery)
    ensures PagesQuery in cats <==> Mentions(rephrased, PagesQuery)
    ensures MiscQuery in cats <==> cats == [MiscQuery]
    ensures cats == [MiscQuery] <==>
      !Mentions(rephrased, OrderQuery) && !Mentions(rephrased, ProductQuery)
      && !Mentions(rephrased, InventoryQuery) && !Mentions(rephrased, PagesQuery)
    ensures forall i, j :: 0 <= i < j < |cats| ==> Rank(cats[i]) < Rank(cats[j])
  {
    CategoriesOf(Mentions(rephrased, OrderQuery), Mentions(rephrased, ProductQuery),
                 Mentions(rephrased, InventoryQuery), Mentions(rephrased, PagesQuery))
  }

  /** One recorded exchange: the raw user query (not the rephrased one) and the
      categories computed for it. */
  datatype Turn = Turn(query: string, categories: seq<Category>)

  /** Query history keyed by session id. */
  type History = map<string, seq<Turn>>

  const MaxTurns: nat := 10
  const Evicted: nat := 3
  const ContextTurns: nat := 3

  /** A session's turns after recording `t`: appended at the end, then the
      three oldest dropped when the list has grown past ten. */
  function AppendTurn(turns: seq<Turn>, t: Turn): (r: seq<Turn>)
    ensures |turns| <= MaxTurns ==> |r| <= MaxTurns
    ensures |turns| < MaxTurns ==> r == turns + [t]
    ensures |turns| == MaxTurns ==> |r| == MaxTurns + 1 - Evicted && r == turns[Evicted..] + [t]
    ensures |r| > 0 && r[|r| - 1] == t
    ensures |r| <= |turns| + 1 && r == (turns + [t])[|turns| + 1 - |r|..]
  {
    var grown := turns + [t];
    if |grown| > MaxTurns then grown[Evicted..] else grown
  }

  /** Every session holds at most ten turns. */
  predicate Bounded(h: History) {
    forall sid :: sid in h ==> |h[sid]| <= MaxTurns
  }

  /** The history after recording `t` for session `sid`. */
  function RecordTurn(h: History, sid: string, t: Turn): (h': History)
    ensures h'.Keys == h.Keys + {sid}
    ensures forall other :: other in h && other != sid ==> h'[other] == h[other]
    ensures h'[sid] == AppendTurn(if sid in h then h[sid] else [], t)
    ensures Bounded(h) ==> Bounded(h')
  {
    h[sid := AppendTurn(if sid in h then h[sid] else [], t)]
  }

  /** The context the rephrasing prompt is built from: the raw queries of the
      previous turns for a session seen before, or none. */
  datatype Prompt = FollowUp(previous: seq<string>, current: string) | Standalone(current: string)

  /** The raw queries of at most the last three turns of `sid`, oldest first;
      `None` for a session never seen. */
  function ContextWindow(h: History, sid: string): (w: Option<seq<string>>)
    ensures w.None? <==> sid !in h
    ensures w.Some? ==> |w.value| <= ContextTurns
    ensures w.Some? ==> |w.value| == if |h[sid]| < ContextTurns then |h[sid]| else ContextTurns
    ensures w.Some? ==> forall k :: 0 <= k < |w.value| ==>
      w.value[k] == h[sid][|h[sid]| - |w.value| + k].query
  {
    if sid !in h then None
    else
      var turns := h[sid];
      var recent := if |turns| > ContextTurns then turns[|turns| - ContextTurns..] else turns;
      Some(seq(|recent|, k requires 0 <= k < |recent| => recent[k].query))
  }

  function PromptFor(h: History, sid: string, query: string): (p: Prompt)
    ensures p.Standalone? <==> sid !in h
  {
    match ContextWindow(h, sid)
    case None => Standalone(query)
    case Some(previous) => FollowUp(previous, query)
  }

  /** What `rephrase_query` produces: the prompt context it sent, the rephrased
      query, its categories, and the updated history. */
  datatype Rephrasal = Rephrasal(prompt: Prompt, rephrased: string, categories: seq<Category>, history: History)

  /** `rephrase_query(query, sid)` given the language model's `completion` for
      the prompt it builds. */
  function RephraseQuery(query: string, sid: string, completion: string, h: History): (r: Rephrasal)
    ensures r.prompt.Standalone? <==> sid !in h
    ensures r.rephrased == Strip(completion)
    ensures |r.categories| > 0 && r.categories == Classify(r.rephrased)
    ensures r.history.Keys == h.Keys + {sid}
    ensures forall other :: other in h && other != sid ==> r.history[other] == h[other]
    ensures var turns := r.history[sid]; |turns| > 0 && turns[|turns| - 1] == Turn(query, r.categories)
    ensures Bounded(h) ==> Bounded(r.history)
  {
    var rephrased := Strip(completion);
    var categories := Classify(rephrased);
    var prompt := PromptFor(h, sid, query);
    var h' := RecordTurn(h, sid, Turn(query, categories));
    assert prompt.Standalone? <==> sid !in h;
    Rephrasal(prompt, rephrased, categories, h')
  }
}
