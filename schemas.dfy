/**
 * The record shapes of the pipeline: an invoice's line items, the extracted
 * invoice, a discrepancy finding, a purchase-order record as loaded from
 * storage, and the state object every stage receives and updates in place.
 */
module Schemas {
  import opened Prelude

  /** One invoice line. Nothing constrains the numbers: the records are not validated beyond their types. */
  datatype LineItem = LineItem(
    description: string,
    quantity: real,
    unit: string,
    unitPrice: real,
    lineTotal: real,
    extractionConfidence: real)

  /** The structured invoice; `lineItems` keeps the document order. */
  datatype ExtractedInvoice = ExtractedInvoice(
    invoiceNumber: string,
    invoiceDate: string,
    supplier: string,
    poReference: Option<string>,
    currency: string,
    lineItems: seq<LineItem>,
    subtotal: real,
    vat: real,
    total: real)

  /** A finding; `kind` is the record's `type` field. The numeric context defaults to absent. */
  datatype Discrepancy = Discrepancy(
    kind: string,
    severity: string,
    details: string,
    invoiceTotal: Option<real> := None,
    poTotal: Option<real> := None,
    variancePercentage: Option<real> := None)

  /**
   * An element of a purchase order's `line_items` list: either a dict with a
   * string `description`, or anything else (reading its description raises).
   */
  datatype PoLineItem = Described(description: string) | Undescribed

  /**
   * A purchase order as a dict. `total` is absent when the key is missing;
   * `lineItems` is absent when the key is missing (a `null` value behaves as
   * an empty list everywhere and is written `Some([])`); `otherKeys` records
   * whether the dict holds any further key (a PO number, a supplier, ...),
   * which only matters for the dict's truthiness.
   */
  datatype PoRecord = PoRecord(total: Option<real>, lineItems: Option<seq<PoLineItem>>, otherKeys: bool)

  /** An entry of the loaded purchase-order list: a dict, or some other JSON value. */
  datatype PoEntry = NotADict | Dict(record: PoRecord)

  /** Python truthiness of `matched_po`: absent and the empty dict are false. */
  predicate Truthy(po: Option<PoRecord>)
    ensures Truthy(po) <==> po.Some? && po.value != PoRecord(None, None, false)
  {
    po.Some? && (po.value.total.Some? || po.value.lineItems.Some? || po.value.otherKeys)
  }

  /**
   * The state passed through the stages. Each stage writes its own fields in
   * place; the discrepancy list is a value, so no two states share it.
   */
  class AgentState {
    var filename: string
    var extractedInvoice: Option<ExtractedInvoice>
    var matchedPo: Option<PoRecord>
    var discrepancies: seq<Discrepancy>
    var extractionConfidence: real
    var poMatchConfidence: real
    var recommendedAction: Option<string>
    var agentReasoning: Option<string>

    /** A fresh state for one document: only the file name is given, everything else takes its default. */
    constructor (filename: string)
      ensures this.filename == filename
      ensures extractedInvoice == None && matchedPo == None && discrepancies == []
      ensures extractionConfidence == 0.0 && poMatchConfidence == 0.0
      ensures recommendedAction == None && agentReasoning == None
    {
      this.filename := filename;
      extractedInvoice := None;
      matchedPo := None;
      discrepancies := [];
      extractionConfidence := 0.0;
      poMatchConfidence := 0.0;
      recommendedAction := None;
      agentReasoning := None;
    }
  }
}
