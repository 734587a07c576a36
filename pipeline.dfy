/**
 * The two decision stages in the order the pipeline graph runs them:
 * matching, then discrepancy detection, on the same state. The lemmas here
 * state what the matcher's outcome implies for the findings.
 */
module Pipeline {
  import opened Prelude
  import opened Schemas
  import opened Matching
  import opened Discrepancies

  /** `matched_po` after a matching stage that did not raise, given its value before. */
  function MatchedAfter(prior: Option<PoRecord>, invoice: Option<ExtractedInvoice>, pos: seq<PoEntry>): Option<PoRecord>
  {
    match MatchEffect(invoice, pos)
    case Assign(po, _) => Some(po)
    case _ => prior
  }

  /** Running the matcher a second time on the same inputs leaves `matched_po` as the first run set it. */
  lemma MatchingIdempotent(prior: Option<PoRecord>, invoice: Option<ExtractedInvoice>, pos: seq<PoEntry>)
    ensures MatchedAfter(MatchedAfter(prior, invoice, pos), invoice, pos) == MatchedAfter(prior, invoice, pos)
  {
  }

  /** The matcher only ever selects a truthy dict: one with a total or with line items. */
  lemma SelectedPoIsTruthy(invoice: Option<ExtractedInvoice>, pos: seq<PoEntry>)
    ensures MatchEffect(invoice, pos).Assign? ==> Truthy(Some(MatchEffect(invoice, pos).po))
    ensures MatchEffect(invoice, pos).Assign? ==>
      MatchEffect(invoice, pos).po.total.Some? || PoItems(MatchEffect(invoice, pos).po) != []
  {
  }

  /**
   * On a fresh state with an invoice, and a matching stage that did not
   * raise, the detector records a `no_matching_po` finding exactly when the
   * matcher left `matched_po` unset: after the early return for an empty PO
   * list as well as after a walk in which no entry passed.
   */
  lemma NoPoFindingIffUnmatched(inv: ExtractedInvoice, pos: seq<PoEntry>)
    requires !MatchEffect(Some(inv), pos).Abort?
    ensures Detect(Some(inv), MatchedAfter(None, Some(inv), pos)) == Done(Some(NoPoFinding(inv.total)))
            <==> MatchEffect(Some(inv), pos) == Keep
    ensures pos == [] ==> Detect(Some(inv), MatchedAfter(None, Some(inv), pos)) == Done(Some(NoPoFinding(inv.total)))
  {
  }

  /**
   * A PO selected by its total (confidence 1.0) is within 0.01 of the invoice
   * total, so when the invoice total is at least 0.21 in size the detector
   * completes and records nothing.
   */
  lemma ExactMatchRecordsNothing(prior: Option<PoRecord>, inv: ExtractedInvoice, pos: seq<PoEntry>)
    requires MatchEffect(Some(inv), pos).Assign? && MatchEffect(Some(inv), pos).confidence == 1.0
    requires Abs(inv.total) >= 0.21
    ensures ExactTotalMatch(inv, MatchEffect(Some(inv), pos).po)
    ensures Detect(Some(inv), MatchedAfter(prior, Some(inv), pos)) == Done(None)
  {
    var r := Match(Some(inv), pos);
    var po := pos[r.index].record;
    assert Judge(inv, pos[r.index]) == ExactTotal;
    assert ExactTotalMatch(inv, po);
    var t := po.total.value;
    assert Abs(t) > 0.2;
    assert Abs(inv.total - t) * 20.0 < 0.2;
    SelectedPoIsTruthy(Some(inv), pos);
    PriceMismatchRule(inv, po);
  }

  /** Invoice total 9573.0 against the one PO with total 9573.0: confidence 1.0 and no finding. */
  lemma ExactTotalScenario(inv: ExtractedInvoice, po: PoRecord)
    requires inv.total == 9573.0 && po.total == Some(9573.0)
    ensures MatchEffect(Some(inv), [Dict(po)]) == Assign(po, 1.0)
    ensures Detect(Some(inv), MatchedAfter(None, Some(inv), [Dict(po)])) == Done(None)
  {
  }

  /**
   * The matching stage followed by the discrepancy stage. A raise in the
   * matcher ends the run before detection.
   */
  method MatchThenDetect(state: AgentState, purchaseOrders: seq<PoEntry>)
    returns (matchOutcome: MatchOutcome, fault: Option<Fault>)
    modifies state`matchedPo, state`poMatchConfidence, state`discrepancies
    ensures matchOutcome == Match(state.extractedInvoice, purchaseOrders)
    ensures state.matchedPo ==
      if matchOutcome.Raised? then old(state.matchedPo)
      else MatchedAfter(old(state.matchedPo), state.extractedInvoice, purchaseOrders)
    ensures var e := MatchEffect(state.extractedInvoice, purchaseOrders);
      state.poMatchConfidence == if e.Assign? then e.confidence else old(state.poMatchConfidence)
    ensures matchOutcome.Raised? ==> state.discrepancies == old(state.discrepancies) && fault.None?
    ensures !matchOutcome.Raised? ==>
      var r := Detect(state.extractedInvoice, state.matchedPo);
      fault == (if r.Failed? then Some(r.fault) else None) &&
      state.discrepancies == old(state.discrepancies) + (if r.Done? && r.finding.Some? then [r.finding.value] else [])
  {
    matchOutcome := MatchingAgent(state, purchaseOrders);
    if matchOutcome.Raised? {
      return matchOutcome, None;
    }
    fault := DiscrepancyAgent(state);
  }
}
