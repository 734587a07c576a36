/**
 * The matching stage: pick at most one purchase order for the extracted
 * invoice, walking the PO list once in order. Each dict entry is tried first
 * by its total (within 0.01 of the invoice total: confidence 1.0) and then,
 * on the same entry, by line-item overlap (confidence 0.6); the first entry
 * that passes either test is taken.
 */
module Matching {
  import opened Prelude
  import opened Text
  import opened Schemas

  const ExactConfidence: real := 1.0
  const OverlapConfidence: real := 0.6

  /* ---------------------------------------------------------------- overlap count */

  /** Invoice item `x` hits PO item `item` when its lower-cased description occurs in the PO item's. */
  predicate Hit(x: LineItem, item: PoLineItem)
    ensures Hit(x, item) <==>
      item.Described? && exists i: nat :: OccursAt(Lower(x.description), Lower(item.description), i)
  {
    if item.Described? then
      ContainsIff(Lower(x.description), Lower(item.description));
      Contains(Lower(x.description), Lower(item.description))
    else false
  }

  /** Hits of one invoice item against the PO items, counted in list order. */
  function RowCount(x: LineItem, items: seq<PoLineItem>): (r: nat)
    ensures r <= |items|
    ensures AllUndescribed(items) ==> r == 0
  {
    if items == [] then 0
    else RowCount(x, items[..|items| - 1]) + (if Hit(x, items[|items| - 1]) then 1 else 0)
  }

  /** The `matches` counter after the nested loops: hits summed over the invoice items. */
  function OverlapCount(xs: seq<LineItem>, items: seq<PoLineItem>): (r: nat)
    ensures xs == [] || items == [] ==> r == 0
  {
    if xs == [] then 0
    else OverlapCount(xs[..|xs| - 1], items) + RowCount(xs[|xs| - 1], items)
  }

  /** No PO item is a dict with a description, so nothing can hit. */
  predicate AllUndescribed(items: seq<PoLineItem>)
  {
    forall k :: 0 <= k < |items| ==> items[k].Undescribed?
  }

  /** Every (invoice item, PO item) index pair that hits. */
  function HitPairs(xs: seq<LineItem>, items: seq<PoLineItem>): set<(int, int)>
  {
    set i, j | 0 <= i < |xs| && 0 <= j < |items| && Hit(xs[i], items[j]) :: (i, j)
  }

  /** The pairs of row `row` of `HitPairs`, for invoice item `x`. */
  function RowPairs(row: int, x: LineItem, items: seq<PoLineItem>): set<(int, int)>
  {
    set j | 0 <= j < |items| && Hit(x, items[j]) :: (row, j)
  }

  lemma {:induction false} RowPairsCount(row: int, x: LineItem, items: seq<PoLineItem>)
    ensures |RowPairs(row, x, items)| == RowCount(x, items)
    decreases |items|
  {
    if items != [] {
      var n := |items| - 1;
      var init := items[..n];
      RowPairsCount(row, x, init);
      var rest := RowPairs(row, x, init);
      var last := if Hit(x, items[n]) then {(row, n)} else {};
      assert RowPairs(row, x, items) == rest + last;
      assert (row, n) !in rest;
    }
  }

  /** The hitting pairs of `xs` split into those of all but its last item and the last item's row. */
  lemma HitPairsSplit(xs: seq<LineItem>, items: seq<PoLineItem>)
    requires xs != []
    ensures HitPairs(xs, items) == HitPairs(xs[..|xs| - 1], items) + RowPairs(|xs| - 1, xs[|xs| - 1], items)
  {
  }

  /**
   * The counter is the number of hitting pairs: one invoice item that occurs
   * in several PO items is counted once per PO item, never deduplicated.
   */
  lemma {:induction false} OverlapCountIsPairCount(xs: seq<LineItem>, items: seq<PoLineItem>)
    ensures OverlapCount(xs, items) == |HitPairs(xs, items)|
    decreases |xs|
  {
    if xs != [] {
      var n := |xs| - 1;
      var init := xs[..n];
      OverlapCountIsPairCount(init, items);
      RowPairsCount(n, xs[n], items);
      var upper := HitPairs(init, items);
      var row := RowPairs(n, xs[n], items);
      HitPairsSplit(xs, items);
      forall p | p in row ensures p !in upper {
      }
      assert upper * row == {};
    }
  }

  /** Each invoice item hits each PO item at most once, so the counter never exceeds the product of the lengths. */
  lemma {:induction false} OverlapCountBound(xs: seq<LineItem>, items: seq<PoLineItem>)
    ensures OverlapCount(xs, items) <= |xs| * |items|
    decreases |xs|
  {
    if xs != [] {
      OverlapCountBound(xs[..|xs| - 1], items);
    }
  }

  /** One invoice item "bolt" against PO items "Bolt M4" and "BOLT M6" counts 2: more than the one invoice item. */
  lemma OverlapNotDeduplicated(x: LineItem)
    requires x.description == "bolt"
    ensures OverlapCount([x], [Described("Bolt M4"), Described("BOLT M6")]) == 2
  {
    var items := [Described("Bolt M4"), Described("BOLT M6")];
    var needle := Lower(x.description);
    assert needle == "bolt";
    assert Lower("Bolt M4")[..4] == "bolt";
    assert Lower("BOLT M6")[..4] == "bolt";
    assert Contains(needle, Lower("Bolt M4"));
    assert Contains(needle, Lower("BOLT M6"));
    assert Hit(x, items[0]) && Hit(x, items[1]);
    assert items[..1][..0] == [];
    assert RowCount(x, items[..1]) == 1;
    assert items[..2] == items;
    assert RowCount(x, items) == 2;
    assert [x][..0] == [];
  }

  /** Every PO item is a dict with a string description. */
  predicate AllDescribed(items: seq<PoLineItem>)
  {
    forall k :: 0 <= k < |items| ==> items[k].Described?
  }

  /**
   * The nested counting loops. Reading the description of a PO item that has
   * none raises; that happens exactly when the invoice has an item to compare.
   */
  method CountOverlaps(xs: seq<LineItem>, items: seq<PoLineItem>) returns (matches: Option<nat>)
    ensures matches.None? <==> |xs| > 0 && !AllDescribed(items)
    ensures matches.Some? ==> matches.value == |HitPairs(xs, items)|
  {
    var count: nat := 0;
    var i := 0;
    while i < |xs|
      invariant 0 <= i <= |xs|
      invariant count == OverlapCount(xs[..i], items)
      invariant i > 0 ==> AllDescribed(items)
    {
      var needle := Lower(xs[i].description);
      var j := 0;
      while j < |items|
        invariant 0 <= j <= |items|
        invariant count == OverlapCount(xs[..i], items) + RowCount(xs[i], items[..j])
        invariant forall k :: 0 <= k < j ==> items[k].Described?
      {
        match items[j]
        case Undescribed =>
          return None;
        case Described(d) =>
          if Contains(needle, Lower(d)) {
            count := count + 1;
          }
        assert items[..j + 1][..j] == items[..j];
        j := j + 1;
      }
      assert items[..j] == items;
      assert xs[..i + 1][..i] == xs[..i];
      i := i + 1;
    }
    assert xs[..i] == xs;
    OverlapCountIsPairCount(xs, items);
    return Some(count);
  }

  /* ---------------------------------------------------------------- one PO entry */

  /** `po.get("line_items", [])`. */
  function PoItems(po: PoRecord): (r: seq<PoLineItem>)
    ensures po.lineItems.None? ==> r == []
    ensures po.lineItems.Some? ==> r == po.lineItems.value
  {
    if po.lineItems.Some? then po.lineItems.value else []
  }

  /** The strong test: the PO has a total strictly within 0.01 of the invoice total. */
  predicate ExactTotalMatch(inv: ExtractedInvoice, po: PoRecord)
    ensures ExactTotalMatch(inv, po) <==>
      po.total.Some? && inv.total - 0.01 < po.total.value < inv.total + 0.01
  {
    po.total.Some? && Abs(po.total.value - inv.total) < 0.01
  }

  /**
   * `matches >= max(1, len(invoice.line_items) * 0.5)`: in whole numbers, at
   * least one hit and at least half as many hits as invoice items.
   */
  predicate MeetsOverlapThreshold(matches: nat, invoiceItems: nat)
    ensures MeetsOverlapThreshold(matches, invoiceItems) <==> matches >= 1 && 2 * matches >= invoiceItems
  {
    matches as real >= MaxReal(1.0, invoiceItems as real * 0.5)
  }

  /** What one PO entry does to the walk. */
  datatype Verdict =
    | Skip              // not a dict, or fails both tests: go on with the next entry
    | ExactTotal        // selected with confidence 1.0
    | Overlap           // selected with confidence 0.6
    | DescriptionFault  // the counting loop raised on a PO item without a description

  function Judge(inv: ExtractedInvoice, entry: PoEntry): (r: Verdict)
    ensures entry.NotADict? ==> r == Skip
    ensures r == ExactTotal <==> entry.Dict? && ExactTotalMatch(inv, entry.record)
    ensures r == DescriptionFault <==>
      entry.Dict? && !ExactTotalMatch(inv, entry.record) && PoItems(entry.record) != [] &&
      inv.lineItems != [] && !AllDescribed(PoItems(entry.record))
    ensures r == Overlap <==>
      entry.Dict? && !ExactTotalMatch(inv, entry.record) && PoItems(entry.record) != [] &&
      (inv.lineItems != [] ==> AllDescribed(PoItems(entry.record))) &&
      MeetsOverlapThreshold(|HitPairs(inv.lineItems, PoItems(entry.record))|, |inv.lineItems|)
  {
    match entry
    case NotADict => Skip
    case Dict(po) =>
      if ExactTotalMatch(inv, po) then ExactTotal
      else if PoItems(po) == [] then Skip
      else if |inv.lineItems| > 0 && !AllDescribed(PoItems(po)) then DescriptionFault
      else
        OverlapCountIsPairCount(inv.lineItems, PoItems(po));
        if MeetsOverlapThreshold(OverlapCount(inv.lineItems, PoItems(po)), |inv.lineItems|) then Overlap
        else Skip
  }

  /** A PO without line items can pass only the total test. */
  lemma NoItemsOnlyByTotal(inv: ExtractedInvoice, po: PoRecord)
    requires PoItems(po) == []
    ensures Judge(inv, Dict(po)) == (if ExactTotalMatch(inv, po) then ExactTotal else Skip)
  {
  }

  /** An invoice without line items never matches by overlap, and its count never raises. */
  lemma NoInvoiceItemsOnlyByTotal(inv: ExtractedInvoice, entry: PoEntry)
    requires inv.lineItems == []
    ensures Judge(inv, entry) != Overlap && Judge(inv, entry) != DescriptionFault
  {
  }

  /* ---------------------------------------------------------------- the walk */

  /** How the walk ends: nothing selected, entry `index` selected, or the walk raised at entry `index`. */
  datatype MatchOutcome = NoMatch | Selected(index: nat, confidence: real) | Raised(index: nat)

  function Shift(r: MatchOutcome): MatchOutcome
  {
    match r
    case NoMatch => NoMatch
    case Selected(k, c) => Selected(k + 1, c)
    case Raised(k) => Raised(k + 1)
  }

  /**
   * The walk over the PO list: the first entry that does not skip decides.
   * Its contract is the first-match rule: every earlier entry skips.
   */
  function Scan(inv: ExtractedInvoice, pos: seq<PoEntry>): (r: MatchOutcome)
    ensures r.NoMatch? <==> forall k :: 0 <= k < |pos| ==> Judge(inv, pos[k]) == Skip
    ensures !r.NoMatch? ==> r.index < |pos| && forall k :: 0 <= k < r.index ==> Judge(inv, pos[k]) == Skip
    ensures r.Selected? ==>
      pos[r.index].Dict? &&
      ((Judge(inv, pos[r.index]) == ExactTotal && r.confidence == ExactConfidence) ||
       (Judge(inv, pos[r.index]) == Overlap && r.confidence == OverlapConfidence))
    ensures r.Raised? ==> Judge(inv, pos[r.index]) == DescriptionFault
  {
    if pos == [] then NoMatch
    else
      match Judge(inv, pos[0])
      case Skip => Shift(Scan(inv, pos[1..]))
      case ExactTotal => Selected(0, ExactConfidence)
      case Overlap => Selected(0, OverlapConfidence)
      case DescriptionFault => Raised(0)
  }

  /** The whole stage: with no invoice or an empty PO list it returns at once. */
  function Match(invoice: Option<ExtractedInvoice>, pos: seq<PoEntry>): (r: MatchOutcome)
    ensures r.NoMatch? <==> invoice.None? || forall k :: 0 <= k < |pos| ==> Judge(invoice.value, pos[k]) == Skip
    ensures !r.NoMatch? ==>
      invoice.Some? && r.index < |pos| &&
      (forall k :: 0 <= k < r.index ==> Judge(invoice.value, pos[k]) == Skip) &&
      Judge(invoice.value, pos[r.index]) != Skip
    ensures r.Selected? ==> pos[r.index].Dict? && (r.confidence == ExactConfidence || r.confidence == OverlapConfidence)
  {
    if invoice.None? || pos == [] then NoMatch else Scan(invoice.value, pos)
  }

  /** What the stage does to the state: keep it, assign a PO and confidence, or raise. */
  datatype Effect = Keep | Assign(po: PoRecord, confidence: real) | Abort

  function MatchEffect(invoice: Option<ExtractedInvoice>, pos: seq<PoEntry>): (r: Effect)
    ensures r.Assign? ==> Dict(r.po) in pos && (r.confidence == ExactConfidence || r.confidence == OverlapConfidence)
    ensures r.Keep? <==> invoice.None? || forall k :: 0 <= k < |pos| ==> Judge(invoice.value, pos[k]) == Skip
  {
    match Match(invoice, pos)
    case NoMatch => Keep
    case Selected(k, c) => Assign(pos[k].record, c)
    case Raised(_) => Abort
  }

  /** The selected entry is the first that passes: given that entry, the outcome is determined. */
  lemma FirstPassingWins(inv: ExtractedInvoice, pos: seq<PoEntry>, j: nat)
    requires j < |pos| && Judge(inv, pos[j]) in {ExactTotal, Overlap}
    requires forall k :: 0 <= k < j ==> Judge(inv, pos[k]) == Skip
    ensures Match(Some(inv), pos) ==
      Selected(j, if Judge(inv, pos[j]) == ExactTotal then ExactConfidence else OverlapConfidence)
  {
  }

  /**
   * A PO whose total is within 0.01 of the invoice total is taken with
   * confidence 1.0 whatever its line items, once no earlier entry was taken.
   */
  lemma ExactTotalSelected(inv: ExtractedInvoice, pos: seq<PoEntry>, j: nat)
    requires j < |pos| && pos[j].Dict? && ExactTotalMatch(inv, pos[j].record)
    requires forall k :: 0 <= k < j ==> Judge(inv, pos[k]) == Skip
    ensures Match(Some(inv), pos) == Selected(j, ExactConfidence)
    ensures MatchEffect(Some(inv), pos) == Assign(pos[j].record, 1.0)
  {
  }

  /** An entry that matches by overlap beats every later entry, including one that matches by total. */
  lemma EarlierOverlapBeatsLaterTotal(inv: ExtractedInvoice, pos: seq<PoEntry>, j: nat, later: nat)
    requires j < later < |pos| && Judge(inv, pos[j]) == Overlap && Judge(inv, pos[later]) == ExactTotal
    requires forall k :: 0 <= k < j ==> Judge(inv, pos[k]) == Skip
    ensures MatchEffect(Some(inv), pos) == Assign(pos[j].record, 0.6)
  {
  }

  /** The dict entries of the list, in order. */
  function Dicts(pos: seq<PoEntry>): (r: seq<PoEntry>)
    ensures |r| <= |pos|
    ensures forall e :: e in r <==> e in pos && e.Dict?
  {
    if pos == [] then []
    else if pos[0].NotADict? then Dicts(pos[1..])
    else [pos[0]] + Dicts(pos[1..])
  }

  function ScanEffect(inv: ExtractedInvoice, pos: seq<PoEntry>): Effect
  {
    match Scan(inv, pos)
    case NoMatch => Keep
    case Selected(k, c) => Assign(pos[k].record, c)
    case Raised(_) => Abort
  }

  /** One step of the walk, stated on effects: a skipping head leaves the decision to the tail. */
  lemma ScanEffectCons(inv: ExtractedInvoice, e: PoEntry, rest: seq<PoEntry>)
    ensures ScanEffect(inv, [e] + rest) ==
      match Judge(inv, e)
      case Skip => ScanEffect(inv, rest)
      case ExactTotal => Assign(e.record, ExactConfidence)
      case Overlap => Assign(e.record, OverlapConfidence)
      case DescriptionFault => Abort
  {
  }

  lemma {:induction false} ScanIgnoresNonDicts(inv: ExtractedInvoice, pos: seq<PoEntry>)
    ensures ScanEffect(inv, pos) == ScanEffect(inv, Dicts(pos))
    decreases |pos|
  {
    if pos != [] {
      var e, rest := pos[0], pos[1..];
      assert pos == [e] + rest;
      ScanIgnoresNonDicts(inv, rest);
      ScanEffectCons(inv, e, rest);
      if e.Dict? {
        assert Dicts(pos) == [e] + Dicts(rest);
        ScanEffectCons(inv, e, Dicts(rest));
      }
    }
  }

  /** Entries that are not dicts are never selected and do not change what the stage does. */
  lemma NonDictsIrrelevant(invoice: Option<ExtractedInvoice>, pos: seq<PoEntry>)
    ensures MatchEffect(invoice, pos) == MatchEffect(invoice, Dicts(pos))
    ensures Match(invoice, pos).Selected? ==> pos[Match(invoice, pos).index].Dict?
  {
    if invoice.Some? && pos != [] {
      ScanIgnoresNonDicts(invoice.value, pos);
    }
  }

  /**
   * `matching_agent`: writes `matched_po` and `po_match_confidence` when an
   * entry is selected and nothing otherwise; the PO list comes in as a
   * parameter in place of the loader.
   */
  method MatchingAgent(state: AgentState, purchaseOrders: seq<PoEntry>) returns (outcome: MatchOutcome)
    modifies state`matchedPo, state`poMatchConfidence
    ensures outcome == Match(state.extractedInvoice, purchaseOrders)
    ensures var e := MatchEffect(state.extractedInvoice, purchaseOrders);
      if e.Assign? then state.matchedPo == Some(e.po) && state.poMatchConfidence == e.confidence
      else state.matchedPo == old(state.matchedPo) && state.poMatchConfidence == old(state.poMatchConfidence)
  {
    outcome := NoMatch;
    if state.extractedInvoice.None? || purchaseOrders == [] {
      return;
    }
    var inv := state.extractedInvoice.value;
    var i := 0;
    while i < |purchaseOrders|
      invariant 0 <= i <= |purchaseOrders|
      invariant forall k :: 0 <= k < i ==> Judge(inv, purchaseOrders[k]) == Skip
      invariant state.matchedPo == old(state.matchedPo) && state.poMatchConfidence == old(state.poMatchConfidence)
    {
      var entry := purchaseOrders[i];
      if entry.NotADict? {
        i := i + 1;
        continue;
      }
      var po := entry.record;
      if ExactTotalMatch(inv, po) {
        state.matchedPo := Some(po);
        state.poMatchConfidence := ExactConfidence;
        outcome := Selected(i, ExactConfidence);
        FirstPassingWins(inv, purchaseOrders, i);
        return;
      }
      var poItems := PoItems(po);
      if poItems == [] {
        i := i + 1;
        continue;
      }
      var matches := CountOverlaps(inv.lineItems, poItems);
      if matches.None? {
        outcome := Raised(i);
        RaisedAtFirstFault(inv, purchaseOrders, i);
        return;
      }
      OverlapCountIsPairCount(inv.lineItems, poItems);
      if MeetsOverlapThreshold(matches.value, |inv.lineItems|) {
        state.matchedPo := Some(po);
        state.poMatchConfidence := OverlapConfidence;
        outcome := Selected(i, OverlapConfidence);
        FirstPassingWins(inv, purchaseOrders, i);
        return;
      }
      i := i + 1;
    }
  }

  lemma RaisedAtFirstFault(inv: ExtractedInvoice, pos: seq<PoEntry>, j: nat)
    requires j < |pos| && Judge(inv, pos[j]) == DescriptionFault
    requires forall k :: 0 <= k < j ==> Judge(inv, pos[k]) == Skip
    ensures Match(Some(inv), pos) == Raised(j)
  {
  }
}
