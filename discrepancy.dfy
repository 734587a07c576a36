/**
 * The discrepancy stage: without a (truthy) matched PO it records one
 * `no_matching_po` finding; with one it computes the signed percentage by
 * which the invoice total deviates from the PO total and records one
 * `price_mismatch` finding when that deviation exceeds 5 percent.
 */
module Discrepancies {
  import opened Prelude
  import opened Schemas

  /** The exceptions the stage can raise before it appends anything. */
  datatype Fault =
    | InvoiceMissing   // `invoice.total` on a state without an extracted invoice
    | PoTotalMissing   // `po["total"]` on a matched PO without a total
    | ZeroPoTotal      // the variance divides by a PO total of zero

  /** What one call does: raise, or complete having appended at most one finding. */
  datatype Detection = Failed(fault: Fault) | Done(finding: Option<Discrepancy>)

  const VarianceThreshold: real := 5.0

  /** Signed percentage deviation of the invoice total from the PO total. */
  function Variance(invoiceTotal: real, poTotal: real): (v: real)
    requires poTotal != 0.0
    ensures v * poTotal == (invoiceTotal - poTotal) * 100.0
    ensures poTotal > 0.0 ==> (v > 0.0 <==> invoiceTotal > poTotal)
    ensures v == 0.0 <==> invoiceTotal == poTotal
  {
    (invoiceTotal - poTotal) / poTotal * 100.0
  }

  /** The nearest integer, ties to the even one (Python's `round` to an integer). */
  function RoundHalfEven(y: real): (n: int)
    ensures Abs(n as real - y) <= 0.5
    ensures y - y.Floor as real == 0.5 ==> n % 2 == 0
    ensures y == y.Floor as real ==> n as real == y
  {
    var f := y.Floor;
    var frac := y - f as real;
    if frac < 0.5 then f
    else if frac > 0.5 then f + 1
    else if f % 2 == 0 then f
    else f + 1
  }

  /** `round(x, 2)` on an exact real: a whole number of hundredths, at most half a hundredth away. */
  function Round2(x: real): (r: real)
    ensures Abs(r - x) <= 0.005
    ensures (r * 100.0).Floor as real == r * 100.0
    ensures x * 100.0 - (x * 100.0).Floor as real == 0.5 ==> (r * 100.0).Floor % 2 == 0
  {
    var n := RoundHalfEven(x * 100.0);
    var r := n as real / 100.0;
    assert r * 100.0 == n as real;
    assert (n as real).Floor == n;
    r
  }

  function NoPoFinding(invoiceTotal: real): (d: Discrepancy)
    ensures d.kind == "no_matching_po" && d.severity == "high"
    ensures d.invoiceTotal == Some(invoiceTotal) && d.poTotal.None? && d.variancePercentage.None?
  {
    Discrepancy("no_matching_po", "high", "No purchase order could be confidently matched",
                invoiceTotal := Some(invoiceTotal))
  }

  function PriceMismatchFinding(invoiceTotal: real, poTotal: real, variance: real): (d: Discrepancy)
    ensures d.kind == "price_mismatch" && d.severity == "high"
    ensures d.invoiceTotal == Some(invoiceTotal) && d.poTotal == Some(poTotal)
    ensures d.variancePercentage == Some(Round2(variance))
    ensures Abs(d.variancePercentage.value - variance) <= 0.005
    ensures (d.variancePercentage.value * 100.0).Floor as real == d.variancePercentage.value * 100.0
  {
    Discrepancy("price_mismatch", "high", "Invoice total deviates significantly from PO",
                invoiceTotal := Some(invoiceTotal), poTotal := Some(poTotal),
                variancePercentage := Some(Round2(variance)))
  }

  /** The decision of one call, from the invoice and the matched PO it reads. */
  function Detect(invoice: Option<ExtractedInvoice>, po: Option<PoRecord>): (r: Detection)
    ensures r.Failed? <==>
      invoice.None? || (Truthy(po) && (po.value.total.None? || po.value.total.value == 0.0))
    ensures r.Failed? && invoice.None? ==> r.fault == InvoiceMissing
    ensures r.Done? && r.finding.Some? ==>
      r.finding.value.severity == "high" &&
      (r.finding.value.kind == "no_matching_po" <==> !Truthy(po)) &&
      (r.finding.value.kind == "price_mismatch" <==> Truthy(po))
  {
    if !Truthy(po) then
      if invoice.None? then Failed(InvoiceMissing)
      else Done(Some(NoPoFinding(invoice.value.total)))
    else if invoice.None? then Failed(InvoiceMissing)
    else if po.value.total.None? then Failed(PoTotalMissing)
    else if po.value.total.value == 0.0 then Failed(ZeroPoTotal)
    else
      var v := Variance(invoice.value.total, po.value.total.value);
      if Abs(v) > VarianceThreshold then
        Done(Some(PriceMismatchFinding(invoice.value.total, po.value.total.value, v)))
      else Done(None)
  }

  /** The 5 percent rule restated on totals: the deviation exceeds one twentieth of the PO total. */
  lemma MismatchIffDeviation(invoiceTotal: real, poTotal: real)
    requires poTotal != 0.0
    ensures Abs(Variance(invoiceTotal, poTotal)) > VarianceThreshold <==>
            Abs(invoiceTotal - poTotal) * 20.0 > Abs(poTotal)
  {
    var v := Variance(invoiceTotal, poTotal);
    var d := invoiceTotal - poTotal;
    AbsOfProduct(v, poTotal);
    AbsOfProduct(d, 100.0);
    ThresholdOnProduct(Abs(v), Abs(d), Abs(poTotal));
  }

  lemma AbsOfProduct(x: real, y: real)
    ensures Abs(x) * Abs(y) == Abs(x * y)
  {
  }

  /** If x percent of a equals m, then x exceeds 5 exactly when m exceeds a twentieth of a. */
  lemma ThresholdOnProduct(x: real, m: real, a: real)
    requires a > 0.0 && x * a == m * 100.0
    ensures x > 5.0 <==> m * 20.0 > a
  {
    ScaleByPositive(x, 5.0, a);
  }

  /** Multiplying both sides by a positive number keeps a strict inequality. */
  lemma ScaleByPositive(x: real, y: real, a: real)
    requires a > 0.0
    ensures x > y <==> x * a > y * a
  {
  }

  /** The no-PO rule, both ways: with an invoice present, one `no_matching_po` finding exactly when no truthy PO is matched. */
  lemma NoPoRule(inv: ExtractedInvoice, po: Option<PoRecord>)
    ensures Detect(Some(inv), po) == Done(Some(NoPoFinding(inv.total))) <==> !Truthy(po)
  {
  }

  /**
   * The price rule: with a truthy PO whose total is present and non-zero the
   * call completes, and it appends a `price_mismatch` finding carrying both
   * totals and the rounded variance exactly when the invoice total deviates by
   * more than 5 percent of the PO total; at 5 percent or less it appends nothing.
   */
  lemma PriceMismatchRule(inv: ExtractedInvoice, po: PoRecord)
    requires Truthy(Some(po)) && po.total.Some? && po.total.value != 0.0
    ensures Detect(Some(inv), Some(po)).Done?
    ensures Detect(Some(inv), Some(po)).finding.Some? <==>
            Abs(inv.total - po.total.value) * 20.0 > Abs(po.total.value)
    ensures Detect(Some(inv), Some(po)).finding.Some? ==>
            var d := Detect(Some(inv), Some(po)).finding.value;
            d.kind == "price_mismatch" && d.severity == "high" &&
            d.invoiceTotal == Some(inv.total) && d.poTotal == Some(po.total.value) &&
            d.variancePercentage == Some(Round2(Variance(inv.total, po.total.value))) &&
            Abs(d.variancePercentage.value - Variance(inv.total, po.total.value)) <= 0.005 &&
            (d.variancePercentage.value * 100.0).Floor as real == d.variancePercentage.value * 100.0
  {
    MismatchIffDeviation(inv.total, po.total.value);
  }

  /** At exactly 5 percent nothing is appended; at 5.01 percent a finding is. */
  lemma FivePercentBoundary(inv: ExtractedInvoice, po: PoRecord)
    requires po.total == Some(100.0)
    ensures inv.total == 105.0 ==> Detect(Some(inv), Some(po)) == Done(None)
    ensures inv.total == 95.0 ==> Detect(Some(inv), Some(po)) == Done(None)
    ensures inv.total == 105.01 ==> Detect(Some(inv), Some(po)) == Done(Some(PriceMismatchFinding(105.01, 100.0, 5.01)))
  {
  }

  /** Invoice 13476.0 against PO 11230.0: one `price_mismatch` finding with variance 20.0. */
  lemma TwentyPercentScenario(inv: ExtractedInvoice, po: PoRecord)
    requires inv.total == 13476.0 && po.total == Some(11230.0)
    ensures Detect(Some(inv), Some(po)) == Done(Some(PriceMismatchFinding(13476.0, 11230.0, 20.0)))
    ensures PriceMismatchFinding(13476.0, 11230.0, 20.0).variancePercentage == Some(20.0)
  {
  }

  /**
   * `discrepancy_agent`: appends the finding `Detect` decides on to the
   * state's list, or raises with the list untouched. Nothing else changes.
   */
  method DiscrepancyAgent(state: AgentState) returns (fault: Option<Fault>)
    modifies state`discrepancies
    ensures var r := Detect(state.extractedInvoice, state.matchedPo);
      fault == (if r.Failed? then Some(r.fault) else None) &&
      state.discrepancies == old(state.discrepancies) + (if r.Done? && r.finding.Some? then [r.finding.value] else [])
    ensures |old(state.discrepancies)| <= |state.discrepancies| <= |old(state.discrepancies)| + 1
    ensures state.discrepancies[..|old(state.discrepancies)|] == old(state.discrepancies)
  {
    var invoice := state.extractedInvoice;
    var po := state.matchedPo;
    if !Truthy(po) {
      if invoice.None? {
        return Some(InvoiceMissing);
      }
      state.discrepancies := state.discrepancies + [NoPoFinding(invoice.value.total)];
      return None;
    }
    if invoice.None? {
      return Some(InvoiceMissing);
    }
    if po.value.total.None? {
      return Some(PoTotalMissing);
    }
    var poTotal := po.value.total.value;
    if poTotal == 0.0 {
      return Some(ZeroPoTotal);
    }
    var variance := Variance(invoice.value.total, poTotal);
    if Abs(variance) > VarianceThreshold {
      state.discrepancies := state.discrepancies + [PriceMismatchFinding(invoice.value.total, poTotal, variance)];
    }
    return None;
  }
}
