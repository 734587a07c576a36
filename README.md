# Invoice reconciliation: matching and discrepancy detection

This project models the decision core of an invoice reconciliation pipeline.
One state object is passed from stage to stage. The pipeline graph runs
document extraction, then PO matching, then discrepancy detection, then
resolution. Two of these stages make decisions, and they are modelled here:

- **Matching** (`matching_agent`). It walks the purchase-order (PO) list once,
  in order, and skips entries that are not dicts. Each dict is first tried by
  its total: a total strictly within 0.01 of the invoice total selects it with
  confidence 1.0. Failing that, the same PO is tried by line-item overlap. The
  overlap count is the number of (invoice item, PO item) pairs where the
  lower-cased invoice description is a substring of the lower-cased PO
  description. If that count is at least `max(1, 0.5·n)`, the PO is selected
  with confidence 0.6. Here n is the number of invoice items. The first PO that
  passes either test wins. The stage writes only `matched_po` and
  `po_match_confidence`.
- **Discrepancy detection** (`discrepancy_agent`). Without a truthy matched PO
  it appends one `no_matching_po` finding, severity `high`. With one, it
  computes the signed variance `(invoice − PO) / PO · 100`. It appends one
  `price_mismatch` finding, severity `high`, exactly when the variance is
  strictly greater than 5 in absolute value. It writes only the discrepancy
  list, and only appends to it.
- **Records** (`utils/schemas.py`): `LineItem`, `ExtractedInvoice`,
  `Discrepancy` (its `type` field is called `kind`, since `type` is a Dafny
  keyword) and the `AgentState` class with its default field values.

Files:
- `prelude.dfy`: `Option`, `Abs`, `MaxReal`.
- `text.dfy`: `.lower()` and the substring test `in`.
- `schemas.dfy`: the records, PO dict shapes and `AgentState`.
- `matching.dfy`: the matcher, both as a function `Match` and as the method
  `MatchingAgent` that updates the state.
- `discrepancy.dfy`: the detector, both as a function `Detect` and as the
  method `DiscrepancyAgent`.
- `pipeline.dfy`: lemmas linking the two stages, and the two stages run in
  graph order.

Modelling choices:
- Money amounts are exact `real`s. The PO list is a parameter of the matcher
  and is not loaded from a file.
- A PO is `NotADict` or `Dict(PoRecord(total, lineItems, otherKeys))`. A
  missing key is `None`. A `null` line-item list behaves like an empty one
  everywhere, so it is written `Some([])`. `otherKeys` records whether the
  dict has any other key. That only matters for `if not po:` in the
  detector, where an empty dict `{}` counts as false.
- Python exceptions are error outcomes. Both stages write the state only just
  before they return, so an exception leaves the state as it was:
  - matcher: reading the description of a PO line item that is not a dict
    with a string `description` raises (`KeyError`/`TypeError`/`AttributeError`). This happens
    only when the invoice has at least one line item to compare
    (`DescriptionFault`, `Raised`).
  - detector: it raises when there is no extracted invoice
    (`AttributeError`, `InvoiceMissing`), when the matched PO has no `total`
    key (`KeyError`, `PoTotalMissing`), and when the PO total is zero
    (`ZeroDivisionError`, `ZeroPoTotal`).
- Four points where one might expect something else; the model follows the code:
  - One might expect every PO to be tried by total before any PO is tried
    by overlap. The code instead runs both tests on each PO in turn. So an
    earlier PO that matches by overlap beats a later PO that matches by total
    (`EarlierOverlapBeatsLaterTotal`).
  - One might expect `po_match_confidence` to be reset to 0.0 when nothing
    matches. The code leaves it as it was. On a fresh state the two are the
    same.
  - A zero PO total and a matched PO without a total are not handled by the
    code: the detector raises. The model makes these explicit faults.
  - The overlap count is not deduplicated. One invoice item found in several
    PO items counts once per PO item, so the count can exceed the number of
    invoice items (`OverlapCountIsPairCount`, `OverlapNotDeduplicated`).

## Records

The record types are datatypes in `schemas.dfy`:
- `Schemas.LineItem` models `LineItem` (utils/schemas.py:4-10): description, quantity, unit, unit price, line total and extraction confidence. The numbers are unconstrained, as in the source.
- `Schemas.ExtractedInvoice` models `ExtractedInvoice` (utils/schemas.py:12-21). Its line items are an ordered sequence, and `poReference` is optional.
- `Schemas.Discrepancy` models `Discrepancy` (utils/schemas.py:23-29). Type, severity and details are required. The invoice total, PO total and variance percentage default to `None`.
- `Schemas.PoRecord` and `Schemas.PoEntry` model the untyped PO dicts that the matcher reads (agents/matching_agent.py:13, 17, 23, 30), as described above.
- `Schemas.AgentState` is a class for `AgentState` (utils/schemas.py:31-39). Its row is below.

## Model

| member | source | states |
|---|---|---|
| `Text.Lower` | agents/matching_agent.py:30 | lower-casing keeps the length, turns each ASCII capital into its own small letter, keeps every other character, and leaves no ASCII capital |
| `Text.LowerIdempotent` | agents/matching_agent.py:30 | lower-casing twice is the same as lower-casing once |
| `Text.LowerIgnoresCase` | agents/matching_agent.py:30 | two strings whose characters are pairwise equal, or a capital and its small letter, lower to the same string |
| `Text.ContainsIff` | agents/matching_agent.py:30 | the substring test holds exactly when some window of the PO description equals the invoice description |
| `Text.Contains` | agents/matching_agent.py:30 | `in` on strings: a found needle is no longer than the text, and the empty needle is found in every text |
| `Schemas.Truthy` | agents/discrepancy_agent.py:7 | `not po` fails exactly for a present, non-empty dict: an absent PO and the empty dict are false, and a dict with any key is true |
| `Schemas.AgentState.constructor` | utils/schemas.py:31-39 | a fresh state has the given file name, no invoice, no matched PO, an empty finding list, both confidences 0.0 and no action or reasoning |
| `Matching.Hit` | agents/matching_agent.py:30 | a PO item is hit exactly when it has a description and the lower-cased invoice description occurs at some position in its lower-cased description |
| `Matching.RowCount` | agents/matching_agent.py:29-31 | the inner loop's count for one invoice item is at most the number of PO items, and 0 when no PO item has a description |
| `Matching.OverlapCount` | agents/matching_agent.py:27-31 | the `matches` counter is 0 when either list is empty |
| `Matching.RowPairsCount` | agents/matching_agent.py:29-31 | the inner loop's count for one invoice item is the number of PO items it hits |
| `Matching.OverlapCountIsPairCount` | agents/matching_agent.py:27-31 | the `matches` counter equals the number of hitting (invoice item, PO item) index pairs, with no deduplication |
| `Matching.OverlapCountBound` | agents/matching_agent.py:27-31 | the counter is at most (invoice items) × (PO items) |
| `Matching.OverlapNotDeduplicated` | agents/matching_agent.py:27-31 | one invoice item "bolt" against "Bolt M4" and "BOLT M6" counts 2, more than the number of invoice items |
| `Matching.CountOverlaps` | agents/matching_agent.py:27-31 | the nested loops raise exactly when the invoice has an item and some PO item has no description; otherwise they return the number of hitting pairs |
| `Matching.PoItems` | agents/matching_agent.py:23 | `po.get("line_items", [])`: the PO's line items, or the empty list when the key is absent |
| `Matching.ExactTotalMatch` | agents/matching_agent.py:17 | the strong test holds exactly when the PO has a total strictly between the invoice total minus 0.01 and plus 0.01 |
| `Matching.MeetsOverlapThreshold` | agents/matching_agent.py:33 | `matches >= max(1, 0.5·n)` holds exactly when there is at least one hit and twice the hits reach n |
| `Matching.Judge` | agents/matching_agent.py:13-36 | one PO entry: non-dicts are skipped; it passes by total exactly when the strong test holds; it raises exactly when it fails that test, has line items, the invoice has items and some PO item has no description; it passes by overlap exactly when it fails the strong test, has line items, raises nothing and the number of hitting pairs meets the threshold |
| `Matching.NoItemsOnlyByTotal` | agents/matching_agent.py:23-25 | a PO with missing or empty line items passes only by its total, and is skipped otherwise |
| `Matching.NoInvoiceItemsOnlyByTotal` | agents/matching_agent.py:28-33 | an invoice with no line items never matches by overlap and never raises in the count |
| `Matching.Scan` | agents/matching_agent.py:11-36 | no match exactly when every entry is skipped; otherwise every earlier entry is skipped, a selected entry is a dict that passed the total test (confidence 1.0) or the overlap test (confidence 0.6), and a raise happens at an entry with an undescribed item |
| `Matching.Match` | agents/matching_agent.py:8-36 | no match exactly when the invoice is absent or every entry is skipped (so also for an empty list); otherwise the decided entry is the first one not skipped, and a selected entry is a dict with confidence 1.0 or 0.6 |
| `Matching.MatchEffect` | agents/matching_agent.py:8-38 | the state is kept exactly when there is no invoice or every entry is skipped; an assigned PO is a dict of the list, with confidence 1.0 or 0.6 |
| `Matching.FirstPassingWins` | agents/matching_agent.py:11-36 | the first entry that passes either test is the one selected, with the confidence of the test it passed |
| `Matching.ExactTotalSelected` | agents/matching_agent.py:16-20 | a PO within 0.01 of the invoice total with no earlier selection is selected with confidence 1.0, whatever its line items |
| `Matching.EarlierOverlapBeatsLaterTotal` | agents/matching_agent.py:11-36 | an earlier overlap match beats a later exact-total match, with confidence 0.6 |
| `Matching.RaisedAtFirstFault` | agents/matching_agent.py:28-31 | if the first non-skipped entry has an undescribed item, the stage raises there |
| `Matching.Dicts` | agents/matching_agent.py:13-14 | the entries kept are exactly the dict entries of the list |
| `Matching.ScanIgnoresNonDicts` | agents/matching_agent.py:11-14 | dropping the entries that are not dicts does not change the outcome of the walk |
| `Matching.NonDictsIrrelevant` | agents/matching_agent.py:11-14 | entries that are not dicts never change what the stage does and are never selected |
| `Matching.MatchingAgent` | agents/matching_agent.py:3-38 | the outcome is `Match` of the invoice and the list; the stage writes `matched_po` and its confidence exactly when a PO is selected, and leaves them as they were otherwise (early return, no match, or a raise) |
| `Discrepancies.Variance` | agents/discrepancy_agent.py:18 | variance × PO total = (invoice − PO) × 100; with a positive PO total it is positive exactly when the invoice exceeds the PO, and zero exactly when they are equal |
| `Discrepancies.RoundHalfEven` | agents/discrepancy_agent.py:28 | the nearest integer, ties to the even one, exact on integers |
| `Discrepancies.Round2` | agents/discrepancy_agent.py:28 | a whole number of hundredths at most 0.005 from the variance; at an exact tie, the even number of hundredths |
| `Discrepancies.MismatchIffDeviation` | agents/discrepancy_agent.py:18-20 | absolute variance above 5 holds exactly when the total difference exceeds one twentieth of the PO total |
| `Discrepancies.NoPoFinding` | agents/discrepancy_agent.py:9-14 | type `no_matching_po`, severity `high`, the invoice total, and no PO total or variance |
| `Discrepancies.PriceMismatchFinding` | agents/discrepancy_agent.py:22-29 | type `price_mismatch`, severity `high`, both totals, and the variance rounded by `Round2`: the nearest whole number of hundredths, ties to even |
| `Discrepancies.Detect` | agents/discrepancy_agent.py:4-32 | the stage raises exactly when there is no invoice, or the PO is truthy and has no total or a zero total, and a missing invoice raises first; any finding has severity `high`, and it is `no_matching_po` exactly when the PO is not truthy and `price_mismatch` exactly when it is |
| `Discrepancies.NoPoRule` | agents/discrepancy_agent.py:7-16 | with an invoice, exactly one `no_matching_po` finding (severity `high`, invoice total, no PO total or variance) exactly when there is no truthy matched PO |
| `Discrepancies.PriceMismatchRule` | agents/discrepancy_agent.py:18-30 | with a non-zero PO total the call completes, and a `price_mismatch` finding (severity `high`, both totals, variance rounded by `Round2` to the nearest hundredth, ties to even) is appended exactly when the deviation exceeds 5 percent |
| `Discrepancies.FivePercentBoundary` | agents/discrepancy_agent.py:20 | against a PO total of 100, invoices of 105 and 95 give nothing and 105.01 gives a finding with variance 5.01 |
| `Discrepancies.TwentyPercentScenario` | agents/discrepancy_agent.py:18-30 | invoice 13476.0 against PO 11230.0 gives one `price_mismatch` finding with variance 20.0 |
| `Discrepancies.DiscrepancyAgent` | agents/discrepancy_agent.py:3-32 | appends the decided finding, if any, and changes nothing else; at most one finding is added and the old list is a prefix of the new one; a raise leaves the list unchanged |
| `Pipeline.MatchingIdempotent` | agents/matching_agent.py:11-38 | matching again with the same inputs does not change `matched_po` |
| `Pipeline.SelectedPoIsTruthy` | agents/matching_agent.py:17-36 | a selected PO has a total or line items, so it is truthy for the detector |
| `Pipeline.NoPoFindingIffUnmatched` | agents/discrepancy_agent.py:7-16 | on a fresh state, the detector records `no_matching_po` exactly when the matcher left `matched_po` unset, which includes the early return on an empty PO list |
| `Pipeline.ExactMatchRecordsNothing` | agents/discrepancy_agent.py:18-32 | a confidence-1.0 selection is within 0.01 of the invoice total, and for invoice totals of size at least 0.21 the detector records nothing |
| `Pipeline.ExactTotalScenario` | agents/matching_agent.py:17-20 | invoice 9573.0 against one PO of 9573.0 is matched with confidence 1.0 and yields no finding |
| `Pipeline.MatchThenDetect` | app/graph.py:17-18 | matching, then detection on the updated state; `matched_po` and `po_match_confidence` take the matcher's assignment or keep their values; a raise in matching ends the run before detection |

## Left out

- Loading the PO list (`utils/po_loader.py`, `utils/po_store.py`): file I/O and JSON parsing. The list is a parameter. The two loaders disagree on dict-shaped files, and that difference is not modelled.
- Document extraction (`agents/document_agent.py`, `utils/ocr.py`): a fixture table, PDF text extraction and OCR, all foreign calls. The invoice is read from the state as given.
- The resolution stage: `agents/resolution_agent.py` is not part of this model. The graph wiring in `app/graph.py` is reduced to the order of the two modelled stages.
- The command-line driver and `serialize` in `app/main.py`: printing and pydantic's `model_dump`.
- Floating point: totals are exact reals, so `< 0.01` and the 5 percent comparison are exact. Binary rounding near these boundaries is not modelled.
- Round2: models `round(variance, 2)` as round-half-to-even on the exact real, ties included. It does not model the binary float that Python actually rounds, so a decimal value such as 2.675, which as a float lies just below the tie, rounds down in Python but up here.
- Lower: lower-cases ASCII capitals only. Python's `str.lower()` also folds non-ASCII letters.
- PO totals that are present but not numbers, or `null`, make the Python code raise `TypeError`. They are not represented: a present total is always a number.
- Invoice line items whose description is not a string cannot occur, because the invoice record is typed. PO line items of any malformed shape are one case, `Undescribed`.
- Pydantic field validation and the copying of the `discrepancies` default: the state is a Dafny object whose list is a value, so no two states can share one list.
