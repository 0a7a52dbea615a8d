# Quotation workflow model

A Dafny model of the costing and status-workflow core of a SharePoint sales
application. The application takes a request for quotation (RFQ) through
these stages:

1. It enters the RFQ with its drawings and parts.
2. It prices the RFQ.
3. An approver approves or rejects the quotation.
4. It is sent to the customer.
5. The customer's decision is recorded as Won, Loss or Revised.
6. A revised quotation is re-priced and comes back for approval.
7. A won quotation gets a purchase order (PO).

The application stores everything in SharePoint lists:
- QuotationList
- QuotationRevision
- RFQList
- DrawingList
- PartList
- POList
- CustomerList
- MaterialList

The model has one module per concern:

- `Common`: `Option`, sums and means over sequences, list helpers (map, filter, replace at an index, drop by id).
- `Numeric`: `parseFloat(x || '0')` and `parseInt(x || "0", 10)` as one left-to-right scanner, and `toString` of revision numbers.
- `Costing`: a part's effective weight, rate and amount. Drawing totals are kept under two policies:
  - *averaged*, from the new-quotation screen;
  - *summed*, from the revision screen.

  `Costing` also holds the quotation-level totals.
- `Records`: the rows of the lists and the store they form. It also models how a screen action fans its writes out over the store:
  - writes are issued in order;
  - a failure that the action does not catch aborts the rest;
  - a write wrapped in its own try/catch only skips itself.
- `Resolver`: `fetchHighestRevisionRecord`, which picks the quotation version a screen shows.
  - The four variants are one function, parameterised by screen: status filter, fast path and fallback.
  - `Resolver` also covers normalising rows of both lists to one record shape.
- `Batch`: the serial-number dedup and batch loading of the approve, sent and result screens.
- `QuotationEntry`, `RevisionEntry`, `Approval`: the new-quotation, revision, approve, sent and result screens as store transitions.
- `RfqEntry`, `PoEntry`, `CustomerEntry`, `MasterEntry`: the RFQ, PO, customer and material-master screens.

SharePoint calls, clocks and failures are parameters:
- a read list is an `Option` (None when the read fails);
- "now" and "today" are strings;
- which writes fail is a set of write indices, or a `fails` flag.

Dates are opaque strings, with "" standing for no date.

Five behaviours of the code that a reader might not expect:

- **Result screen with a revision 0 row and a revision 2 row, both Waiting.** The result screen's fast path returns the Waiting revision 0 QuotationList row and never reads QuotationRevision, so it wins over a Waiting revision 2 QuotationRevision row (`Resolver.WaitingRevisionZeroWins`). Only the revision screen, which has no fast path, returns revision 2.
- **Ties.** The highest-revision scan compares with a strict `>`. Among rows with equal revisions the first one scanned wins, and QuotationList is scanned first (`Resolver.TieGoesToQuotationList`).
- **Revision numbers.** `saveEdit` writes `parseInt` of the record's revision text, as loaded or as typed, and nothing increments it (`RevisionEntry.AddRevisionRow`, `RevisionEntry.SaveKeepsResolvedRevision`).
- **Shared drawings on the revision screen.** `handleEdit` copies the record with `{ ...record }`, so the edit form and the listed record share one drawing array. A part edit shows in the list at once, survives Cancel and a failed save, and is what a later confirm writes to DrawingList (`RevisionEntry.CancelKeepsEdit`, `RevisionEntry.ConfirmWritesSharedTotals`).
- **One RFQ number on the RFQ screen.** The RFQ form, the drawing form and the part dialog all use the screen's single `rfqNumber`. Submit RFQ clears it but leaves the drawing form open, so a drawing or part submitted next is written with an empty RFQ number. The new RFQ then neither counts nor deletes that row (`RfqEntry.EntryAfterRfqIsOrphaned`).

## Model

| member | source | states |
|---|---|---|
| Numeric.EmptyIsZero | QuotationScreen.tsx:781-793 | An empty field reads as 0 both as a cost (`parseFloat('' \|\| '0')`) and as a revision number |
| Numeric.NumOfPrefix | QuotationScreen.tsx:781-793 | Only the leading number of a field counts ("3kg" is 3); text with no leading number (NaN in the source) reads as 0 |
| Numeric.NumOfDecimal | QuotationScreen.tsx:781-793 | A decimal field is read with its fraction digits |
| Numeric.SignAndPoint | Quotationrevisionscreen.tsx:588 | Leading space and sign are accepted, and `parseInt` stops at the decimal point where `parseFloat` reads on |
| Numeric.FormatNat | Quotationrevisionscreen.tsx:691 | `toString` of a natural number yields a non-empty string of digits |
| Numeric.DigitsFromFormat | Quotationrevisionscreen.tsx:691 | The digits of `n.toString()` spell n |
| Numeric.ScanFormat | Quotationrevisionscreen.tsx:588 | A formatted natural number is scanned back exactly, with or without a decimal part |
| Numeric.Num | QuotationScreen.tsx:781-793 | `parseFloat(x \|\| '0')`: an empty field reads as 0 |
| Numeric.Rev | Quotationrevisionscreen.tsx:588 | `parseInt(x \|\| "0", 10)`: an empty revision reads as 0 |
| Numeric.NumAndRevReadParses | Quotationapprove.tsx:76 | Away from the empty text the conversions are the parses, NaN reading as 0 for a cost and -1 for a revision; the empty text itself does not parse |
| Numeric.FormatInt | Quotationrevisionscreen.tsx:691 | `n.toString()` is non-empty and `parseInt` reads it back as n, for every integer n |
| Numeric.RevOfFormat | Quotationrevisionscreen.tsx:691 | A resolved revision number survives the round trip through the record's text field |
| Numeric.NumOfFormat | QuotationScreen.tsx:781-793 | `parseFloat` reads a formatted natural number back as the same number |
| Costing.EffectiveWeight | QuotationScreen.tsx:781-785 | `totalWeight(part)`: with an empty overhead it is the parsed weight, with an empty weight the parsed overhead |
| Costing.EffectiveRate | QuotationScreen.tsx:787-793 | `totalRate(part)`: with labour, laser cut and primer empty it is the parsed rate; with all four empty it is 0 |
| Costing.PartAmount | Quotationrevisionscreen.tsx:1011-1013 | `calculatePartTotal(part)` is effective weight × effective rate, 0 when either is 0 |
| Costing.EmptyFieldsCountZero | QuotationScreen.tsx:768-793 | A part with weight "" and overhead "5" weighs 5; with every cost field empty its rate and amount are 0 |
| Costing.AveragedOf | QuotationScreen.tsx:846-863 | Averaged policy: weight is the sum of weights, rate × part count is the sum of rates, and amount = rate × weight; an empty drawing gives (0, 0, 0) |
| Costing.SummedOf | Quotationrevisionscreen.tsx:986-993 | Summed policy: weight and amount are the sums over parts, rate × count the sum of rates; an empty drawing gives (0, 0, 0) |
| Costing.Mean | QuotationScreen.tsx:846-859 | The mean times the part count is the sum, and the mean of no parts is 0 (no division by zero) |
| Costing.MeanRate | QuotationScreen.tsx:846-859 | The mean effective rate of a drawing, 0 when it has no parts |
| Costing.AveragedTotals | QuotationScreen.tsx:846-863 | `calculateDrawingTotals` of the new-quotation screen: Σ effective weight, the mean effective rate (0 for no parts), and amount = mean rate × total weight |
| Costing.SummedTotals | Quotationrevisionscreen.tsx:986-993 | `calculateDrawingTotals` of the revision screen: Σ effective weight, the mean effective rate (0 for no parts) and Σ part amount |
| Costing.AveragedAmountOf | QuotationScreen.tsx:846-863 | Under the averaged policy, amount × part count = Σ weight × Σ rate |
| Costing.UniformRateOf | QuotationScreen.tsx:846-863 | When every part's amount is rate × weight and every rate is the same, the two policies give equal totals |
| Costing.PoliciesAgreeOnUniformRate | Quotationrevisionscreen.tsx:986-993 | The two drawing policies coincide on a drawing whose parts share one effective rate |
| Costing.OrderFreeOf | QuotationScreen.tsx:846-863 | Both policies depend only on the multiset of parts |
| Costing.TotalsIgnorePartOrder | Quotationrevisionscreen.tsx:986-993 | Reordering a drawing's parts changes neither policy's totals |
| Costing.TwoPartsOf | QuotationScreen.tsx:846-863 | A two-part drawing: averaged amount (w1 + w2)(r1 + r2)/2, summed amount a1 + a2 |
| Costing.FirstExamplePart | QuotationScreen.tsx:768-793 | Part A (weight 10, rate 10) weighs 10, costs 10 per unit and amounts to 100 |
| Costing.SecondExamplePart | QuotationScreen.tsx:768-793 | Part B (weight 20, overhead 5, rate 2) weighs 25, costs 2 per unit and amounts to 50 |
| Costing.PoliciesDiffer | Quotationrevisionscreen.tsx:986-993 | On the drawing of parts A and B the averaged policy gives 210 and the summed policy 150 |
| Costing.NestedSum | QuotationScreen.tsx:831-838 | The nested `reduce` over drawings and parts is the sum over all parts |
| Costing.NestedSumByDrawing | QuotationScreen.tsx:840-844 | The nested `reduce` is also the sum over drawings of each drawing's sum |
| Costing.QuotationWeight | QuotationScreen.tsx:831-838 | `calculateTotalWeight` is Σ effective weight over every part of every drawing |
| Costing.QuotationAmount | QuotationScreen.tsx:840-844 | `calculateTotalAmount` is the sum of the drawings' averaged amounts (mean rate × total weight) |
| Costing.PartCount | QuotationScreen.tsx:464-472 | The nested part count is the number of parts over all drawings |
| Costing.NestedMean | QuotationScreen.tsx:464-472 | `calculateAverageRate`: nested sum over nested count, times the count is the sum, 0 with no parts |
| Costing.AverageRawRate | QuotationScreen.tsx:464-472 | The record's average rate is the mean of the raw rate field over all parts taken as one list |
| Costing.SaveTotals | Quotationrevisionscreen.tsx:869-885 | Save writes Σ effective weight, Σ effective rate and Σ part amount over every part |
| Costing.SaveTotalsOfDrawings | Quotationrevisionscreen.tsx:869-885 | The saved weight and amount are the sums of the drawings' summed-policy weights and amounts |
| Costing.SavedRateIsSum | Quotationrevisionscreen.tsx:875-879 | The saved rate is a sum, not a mean: n parts times the mean effective rate |
| Records.RunSwallowed | Quotationrevisionscreen.tsx:222-260 | When every failing write catches its own error the action completes and the store holds exactly the writes that did not fail |
| Records.RunLast | Quotationrevisionscreen.tsx:890-913 | Self-catching writes followed by an uncaught last write that goes through: the action completes, and the last write applies to what the others made |
| Records.RunAborts | Quotationapprove.tsx:159-230 | The first uncaught failure aborts the action: earlier writes stay, later ones are not made |
| Records.ApplyAllPrefix | Quotationrevisionscreen.tsx:860-933 | Writes before a skipped index do not depend on writes after it |
| Records.ApplyAllKeeps | Rfqscreen.tsx:491-534 | A view of the store that no write changes is unchanged by the whole sequence |
| Records.RunKeeps | Rfqscreen.tsx:491-534 | The same for a run that stops early |
| Records.FirstQuotation | QuotationScreen.tsx:523-531 | `items.filter(...)[0]`: the first QuotationList row of a serial number, None exactly when there is none |
| Records.FirstRfq | QuotationScreen.tsx:553-560 | The first RFQList row of an RFQ number, None exactly when there is none |
| Records.SetFirstRfqStatus | QuotationScreen.tsx:553-565 | Only the first RFQList row of the number changes, and only its status |
| Records.SetAllRfqStatus | Quotationapprove.tsx:204-221 | Every RFQList row of the number takes the status; other rows and lists are kept |
| Records.FirstDrawing | QuotationScreen.tsx:495-503 | The first DrawingList row of a drawing of an RFQ, None exactly when there is none |
| Records.SetDrawingTotals | Quotationrevisionscreen.tsx:763-778 | Totals go on the drawing's first row; nothing is written, and no row added, when it has none |
| Records.UpsertDrawingTotals | QuotationScreen.tsx:490-521 | Update the first row or add one; either way the drawing's first row then holds the totals, no row changes its key, and other rows and lists are kept |
| Records.HoldsTotalsOnDrawings | QuotationScreen.tsx:490-521 | Whether a drawing's first row holds given totals depends on DrawingList alone |
| Records.UpsertKeepsOtherDrawings | QuotationScreen.tsx:490-521 | An upsert for one drawing leaves every other drawing's first row where it was, with its totals |
| Records.UpdateQuotations | Quotationapprove.tsx:164-182 | Every QuotationList row of the serial is transformed, the others kept |
| Records.UpdateRevisions | Quotationapprove.tsx:184-202 | Every QuotationRevision row of the serial is transformed, the others kept |
| Records.SetFirstQuotationStatus | Quotationrevisionscreen.tsx:780-792 | Only the first QuotationList row of the serial changes, and only its status |
| Resolver.FromQuotation | Quotationapprove.tsx:36-50 | A QuotationList row normalised: id, serial, parsed revision, status and QuotationDate carried over |
| Resolver.FromRevision | Quotationrevisionscreen.tsx:628-640 | A QuotationRevision row normalised: its date is RevisionDate and its status Statuss |
| Resolver.QuotationCandidates | Quotationrevisionscreen.tsx:570-574 | The QuotationList query results, normalised, in list order |
| Resolver.RevisionCandidates | Quotationrevisionscreen.tsx:577-581 | The QuotationRevision query results, normalised, in list order |
| Resolver.QuotationCandidateIsRow | Quotationrevisionscreen.tsx:570-574 | Every QuotationList candidate is an admitted row |
| Resolver.QuotationRowIsCandidate | Quotationrevisionscreen.tsx:570-574 | Every admitted QuotationList row is a candidate |
| Resolver.RevisionCandidateIsRow | Quotationrevisionscreen.tsx:577-581 | Every QuotationRevision candidate is an admitted row |
| Resolver.RevisionRowIsCandidate | Quotationrevisionscreen.tsx:577-581 | Every admitted QuotationRevision row is a candidate |
| Resolver.HighestIndex | Quotationapprove.tsx:71-94 | The strict-`>` scan from 0: None exactly when no revision is positive; otherwise a maximal revision that is strictly above everything before it (the first maximum) |
| Resolver.RevisionZero | Quotationapprove.tsx:30-34 | The first revision-0 row with the given status, None exactly when there is none |
| Resolver.FastPathTaken | Quotationapprove.tsx:30-50 | The fast path applies exactly when an admitted revision-0 row with the screen's fast-path status exists |
| Resolver.CandidateAt | Quotationrevisionscreen.tsx:584-607 | A scanned candidate comes from QuotationList or QuotationRevision according to its position |
| Resolver.PositiveCandidateIsRow | Quotationrevisionscreen.tsx:584-607 | A candidate with a positive revision comes from an admitted row with that revision |
| Resolver.PositiveQuotationIsCandidate | Quotationrevisionscreen.tsx:587-593 | An admitted QuotationList row with a positive revision yields a positive candidate |
| Resolver.PositiveRevisionIsCandidate | Quotationrevisionscreen.tsx:595-601 | An admitted QuotationRevision row with a positive revision yields a positive candidate |
| Resolver.PositiveRowIsCandidate | Quotationrevisionscreen.tsx:584-607 | Some admitted positive row in either list yields a positive candidate |
| Resolver.ScanFindsPositive | Quotationapprove.tsx:71-94 | The scan finds a winner exactly when some admitted row has a positive revision |
| Resolver.FallbackFindsZero | Quotationrevisionscreen.tsx:603-621 | The revision screen's fallback finds a row exactly when an admitted QuotationList row has revision 0 |
| Resolver.ResolveNullIff | Quotationrevisionscreen.tsx:567-648 | The resolver returns null exactly when a read fails, or no fast row, no positive revision and (revision screen) no revision-0 row exist |
| Resolver.FastPathIgnoresRevisions | QuotationResult.tsx:29-54 | On the fast path QuotationRevision is not read: same result whatever it holds, a revision-0 fast row with its loss reason |
| Resolver.ResolveScan | Quotationsentscreen.tsx:60-94 | Without a fast row and with a scan winner, the resolver returns the winner |
| Resolver.QuotationRowBelowWinner | Quotationrevisionscreen.tsx:584-607 | An admitted QuotationList row is no higher than the winner, and strictly lower when a revision row wins |
| Resolver.RevisionRowBelowWinner | Quotationrevisionscreen.tsx:584-607 | An admitted QuotationRevision row is no higher than the winner |
| Resolver.ResolvedIsHighest | Quotationrevisionscreen.tsx:584-607 | The result has the highest revision among admitted rows of both lists, and a revision row wins only when every QuotationList row is strictly lower |
| Resolver.ResolvedIsRow | Quotationrevisionscreen.tsx:584-643 | Whatever is returned is an admitted row, normalised; a revision-0 QuotationRevision row is never returned |
| Resolver.ResultScreenKeepsRevisionZero | QuotationResult.tsx:29-54 | Revision 0 and revision 2, both Waiting: the result screen returns revision 0 through its fast path |
| Resolver.RevisionScreenTakesRevisionTwo | Quotationrevisionscreen.tsx:584-607 | The same rows, both Revised, resolve to revision 2 on the revision screen |
| Resolver.WaitingRevisionZeroWins | QuotationResult.tsx:26-102 | Revision 0 wins on the result screen where revision 2 wins on the revision screen |
| Resolver.TieGoesToQuotationList | Quotationapprove.tsx:60-92 | Equal revisions in both lists: the QuotationList row is returned |
| Batch.Distinct | Quotationapprove.tsx:130-139 | The kept serial numbers are non-empty and pairwise distinct, and are exactly the non-empty input values |
| Batch.DedupSerials | Quotationsentscreen.tsx:125-134 | The dedup loop with its seen-set computes `Distinct` |
| Batch.DistinctKeepsFirstOrder | Quotationapprove.tsx:130-139 | Values appear in the order of their first occurrence |
| Batch.Present | Quotationapprove.tsx:149 | Dropping null resolutions keeps exactly the non-null values |
| Batch.ResolveEach | Quotationapprove.tsx:142-147 | Each serial number is resolved on its own reads |
| Batch.LoadBatch | QuotationResult.tsx:104-140 | The batch list has at most one entry per distinct serial number |
| Batch.PresentSnoc | Quotationapprove.tsx:149 | One more resolution adds its value, if any, at the end |
| Batch.LoadBatchSnoc | Quotationapprove.tsx:128-149 | One more serial number adds nothing when empty, seen or resolved to null, and otherwise exactly its resolution at the end: one entry per resolving serial number, in first-occurrence order |
| Batch.FailedReadSkipped | Quotationapprove.tsx:95-98 | A serial number whose QuotationList read fails contributes nothing, and the rest of the batch is kept |
| Batch.LoadBatchMembers | Quotationapprove.tsx:111-152 | A quotation is listed exactly when it is the resolution of a non-empty serial number of the input |
| QuotationEntry.NewRecord | QuotationScreen.tsx:360-397 | The new record has status Todo, the RFQ's date, the first QuotationList row's revision and reason ("0" and none without one), and the quotation totals |
| QuotationEntry.Select | QuotationScreen.tsx:338-424 | None exactly for an empty selection, a failed read, or a missing RFQ; otherwise the first record with that serial is replaced, or the new record appended |
| QuotationEntry.SelectTwiceKeepsOne | QuotationScreen.tsx:399-413 | Selecting the same RFQ twice keeps one record for it, holding the fresh values |
| QuotationEntry.MasterFor | QuotationScreen.tsx:437-440 | The first master entry whose part number is the part name, None exactly when there is none |
| QuotationEntry.FillPart | QuotationScreen.tsx:437-446 | Only material and rate change: each takes the master's value when non-empty and otherwise stays |
| QuotationEntry.FillPartIdempotent | QuotationScreen.tsx:437-446 | Filling a part twice gives the same part as filling once |
| QuotationEntry.FillRecord | QuotationScreen.tsx:430-460 | Every part of every drawing is filled and nothing else changes |
| QuotationEntry.PutQuotation | QuotationScreen.tsx:523-551 | The first QuotationList row of the serial is updated, or one added, to WorkingDone with the record's revision and totals, and its date when it has one; without one, an updated row keeps its old date and an added row has none; other rows and lists kept |
| QuotationEntry.SubmitWrites | QuotationScreen.tsx:490-565 | Submit issues one write per drawing plus two, none catching its own error |
| QuotationEntry.MarkWorkingDone | QuotationScreen.tsx:567-572 | Locally only the records with the submitted id change, to WorkingDone |
| QuotationEntry.Submit | QuotationScreen.tsx:483-580 | The local list changes exactly when every write went through |
| QuotationEntry.SubmitRunsAll | QuotationScreen.tsx:490-565 | With no failure the drawing upserts, the quotation upsert and the RFQ status write are all made, in order |
| QuotationEntry.QuotationThenRfq | QuotationScreen.tsx:523-565 | After the last two writes the first QuotationList row is WorkingDone with the record's revision and amount, and the first RFQList row is WorkingDone |
| QuotationEntry.DrawingWritesHold | QuotationScreen.tsx:490-521 | With distinct drawing numbers, after the first m drawing writes each of those drawings has its averaged totals on its first row |
| QuotationEntry.SubmitCompletes | QuotationScreen.tsx:483-580 | A successful submit leaves the quotation and RFQ in WorkingDone, marks the record locally, and (with distinct drawing numbers) leaves each drawing's averaged totals on its first DrawingList row |
| QuotationEntry.SubmitHoldsTotals | QuotationScreen.tsx:490-521 | With distinct drawing numbers a completed submit leaves each drawing's averaged totals on its first DrawingList row |
| QuotationEntry.SubmitAborts | QuotationScreen.tsx:483-580 | A failure at write k keeps the writes before k, makes none after, and leaves the local list |
| RevisionEntry.Select | Quotationrevisionscreen.tsx:651-725 | For an empty selection or a null resolution the result is None; otherwise the first record of the serial takes the resolved revision, date, status and totals, or a new record is appended |
| RevisionEntry.SelectedRevisionReadsBack | Quotationrevisionscreen.tsx:691 | The selected record's revision text parses back to the resolved revision |
| RevisionEntry.SetField | Quotationrevisionscreen.tsx:950-954 | `{...part, [name]: value}` sets the named field and keeps every other |
| RevisionEntry.EditPart | Quotationrevisionscreen.tsx:947-969 | Only that part changes, only its drawing's stored totals are recomputed (summed policy), and the record totals become the sums of stored totals |
| RevisionEntry.EditHeader | Quotationrevisionscreen.tsx:970-978 | Typing into the quotation date, revision date or revision number changes that field only |
| RevisionEntry.EditPartKeepsConsistent | Quotationrevisionscreen.tsx:956-967 | Editing a part keeps a consistent record consistent |
| RevisionEntry.ConsistentTotalsAreSaveTotals | Quotationrevisionscreen.tsx:869-885 | In a consistent record the weight and amount are the ones save computes |
| RevisionEntry.WithSaveTotals | Quotationrevisionscreen.tsx:869-885 | Save sets weight, rate and amount to the sums over every part and changes nothing else |
| RevisionEntry.FirstPartRow | Quotationrevisionscreen.tsx:230-241 | The first PartList row of the RFQ with that part name; None exactly when no row matches |
| RevisionEntry.UpdatePartRow | Quotationrevisionscreen.tsx:222-259 | Only the first matching PartList row changes, taking the part's seven cost fields and keeping its id, RFQ, drawing and name; with no match nothing changes |
| RevisionEntry.StoredRevision | Quotationrevisionscreen.tsx:907 | The number column holds `parseInt` of the revision text, empty when that is NaN |
| RevisionEntry.AddRevisionRow | Quotationrevisionscreen.tsx:904-913 | The add's effect once its arguments are built: one QuotationRevision row is appended, in WorkingDone, with the record's RFQ, revision, date and totals; existing rows and other lists kept |
| RevisionEntry.SaveWrites | Quotationrevisionscreen.tsx:890-913 | One part write per part, each catching its own error, then the revision add, which does not |
| RevisionEntry.PartWritesKeepRevisions | Quotationrevisionscreen.tsx:222-260 | A part write leaves QuotationRevision alone |
| RevisionEntry.PartWritesKeep | Quotationrevisionscreen.tsx:890-903 | All part writes together leave QuotationRevision alone |
| RevisionEntry.SaveFailing | Quotationrevisionscreen.tsx:904-908 | The add counts as failing when the store refuses it or when the revision date is empty, since `new Date("").toISOString()` throws before the add; no other write changes |
| RevisionEntry.Save | Quotationrevisionscreen.tsx:860-933 | The edited record takes the save totals; the local list takes it by id only when every write went through, and otherwise stays as the shared edits left it |
| RevisionEntry.SaveRunsAll | Quotationrevisionscreen.tsx:890-913 | With a revision date and an add the store accepts, every part write that does not fail is made and the add comes last |
| RevisionEntry.SaveAppendsOneRevision | Quotationrevisionscreen.tsx:904-913 | With a revision date and an add the store accepts, save appends exactly one WorkingDone row with the record's date and the save totals, never changes an existing revision row, and the list takes the saved record by id |
| RevisionEntry.SaveAddFails | Quotationrevisionscreen.tsx:904-931 | When the add fails or the revision date is empty, QuotationRevision and the local list are unchanged |
| RevisionEntry.SaveKeepsResolvedRevision | Quotationrevisionscreen.tsx:907 | Saving without editing the revision writes back the revision the resolver returned (no increment) |
| RevisionEntry.ConfirmWrites | Quotationrevisionscreen.tsx:763-819 | Confirm issues one write per drawing plus three, none catching its own error |
| RevisionEntry.MarkWorkingDone | Quotationrevisionscreen.tsx:820-829 | Locally only the records with the confirmed id change, to WorkingDone |
| RevisionEntry.Confirm | Quotationrevisionscreen.tsx:755-837 | The local list changes exactly when every write went through |
| RevisionEntry.ConfirmNeverAddsDrawings | Quotationrevisionscreen.tsx:763-778 | Confirm never adds or removes a DrawingList row, whatever fails |
| RevisionEntry.StatusWrites | Quotationrevisionscreen.tsx:780-819 | The first QuotationList row, the first RFQList row and every revision row of the RFQ end in WorkingDone |
| RevisionEntry.ConfirmRunsAll | Quotationrevisionscreen.tsx:763-819 | With no failure every confirm write is made, in order |
| RevisionEntry.DrawingWritesKeepLists | Quotationrevisionscreen.tsx:763-778 | The drawing writes touch only DrawingList |
| RevisionEntry.OpenEdit | Quotationrevisionscreen.tsx:744-746 | The form opens on a copy of the listed record that shares its drawings |
| RevisionEntry.EditShared | Quotationrevisionscreen.tsx:948-969 | A part edit changes the form's record as `EditPart` says and the listed record's drawings with it, but not the listed record's weight and amount or any other listed record; the sharing is kept |
| RevisionEntry.EditHeaderShared | Quotationrevisionscreen.tsx:970-978 | A header edit builds a fresh object: the list does not see it and the drawings stay shared |
| RevisionEntry.CancelKeepsEdit | Quotationrevisionscreen.tsx:936-938 | Cancel after a part edit leaves the listed record with the edited part and recomputed drawing totals, so an edit that changed the field is not undone |
| RevisionEntry.SaveKeepsSharing | Quotationrevisionscreen.tsx:915-931 | Save keeps the form and the listed record sharing their drawings, whether it completes or fails |
| RevisionEntry.FailedSaveKeepsEdit | Quotationrevisionscreen.tsx:928-931 | After a part edit and a failed revision add (refused, or an empty revision date), the list still shows the edited part and its drawing's recomputed totals |
| RevisionEntry.ConfirmWritesSharedTotals | Quotationrevisionscreen.tsx:763-776 | Confirming the listed record after a part edit writes the summed totals of the edited drawing, saved or not |
| RevisionEntry.ConfirmCompletes | Quotationrevisionscreen.tsx:755-837 | A successful confirm sets the first QuotationList row, the first RFQList row and every revision row to WorkingDone and marks the record |
| Approval.StatusWrites | Quotationapprove.tsx:159-230 | A status change is three uncaught writes: QuotationList rows, QuotationRevision rows, RFQList rows |
| Approval.StopAt | Quotationapprove.tsx:159-230 | The action stops at the first failing step, or runs all three |
| Approval.Dismiss | Quotationapprove.tsx:223-226 | The store is the run's; on completion exactly the shown quotations with another id stay, otherwise the list is unchanged |
| Approval.StatusRun | Quotationapprove.tsx:159-230 | A status change makes exactly the updates before the first failing step, and completes exactly when none fails |
| Approval.ApproveCompletes | Quotationapprove.tsx:159-230 | A completed approval marks every row of the serial in all three lists Approved, with the date on the first two, changes nothing else, and drops exactly that id from the list |
| Approval.FirstStepFailureWritesNothing | Quotationapprove.tsx:159-230 | An action failing at its first step writes nothing and keeps the list |
| Approval.RejectStopsAtRfq | Quotationapprove.tsx:246-314 | A rejection failing at the RFQList step leaves the other two lists rejected, RFQList untouched and the quotation listed |
| Approval.RejectWritesTypedReason | Quotationapprove.tsx:256-288 | The reject dialog's text, or "No reason provided" when empty, is the reason written with status Todo |
| Approval.EditRejectReason | Quotationapprove.tsx:390-407 | The typed text becomes the reason of the quotation being rejected, in the list and in the dialog |
| Approval.SendChangesOnlyStatus | Quotationsentscreen.tsx:155-223 | Sending changes only status fields, and only on rows of that serial |
| Approval.SendIdempotent | Quotationsentscreen.tsx:155-223 | Sending twice leaves the lists as sending once |
| Approval.Decide | QuotationResult.tsx:152-154 | A missing serial number aborts before any write |
| Approval.DecideCompletes | QuotationResult.tsx:146-242 | Status to all three lists, LossReason (or "No reason provided") to QuotationList, and every listed quotation of the serial updated, the others kept |
| Approval.SubmitLoss | QuotationResult.tsx:253-267 | Without a selected reason nothing is written and the list is unchanged |
| Approval.LossRecordsReason | QuotationResult.tsx:24 | A loss with an offered reason marks every QuotationList row Loss with that reason |
| Approval.QueueSerials | Quotationapprove.tsx:115-139 | The queue has at most one entry per read row; off the approval screen every entry is the serial of a QuotationList row carrying the screen's status |
| Approval.QueueSerialsMembers | Quotationapprove.tsx:115-127 | A serial is queued exactly when one of its rows carries the status the screen queries |
| Approval.ApproveMovesToSent | Quotationsentscreen.tsx:108-134 | A completed approval takes the serial off the approve screen and puts it on the sent screen |
| Approval.SendMovesToResult | QuotationResult.tsx:104-117 | A completed send takes the serial off the sent screen and puts it on the result screen |
| Approval.RejectLeavesApproval | Quotationapprove.tsx:115-127 | A completed rejection takes the serial off the approve screen |
| Approval.DecideLeavesResult | QuotationResult.tsx:104-117 | A completed Won, Loss or Revised decision takes the serial off the result screen |
| RfqEntry.ContactMap | Rfqscreen.tsx:143-147 | The map has exactly the customer names, each with a non-empty contact person |
| RfqEntry.ContactMapLastWins | Rfqscreen.tsx:143-147 | A name maps to the contact person of its last row, "N/A" when that is empty |
| RfqEntry.ContactFor | Rfqscreen.tsx:225 | An unknown customer's contact person is "N/A" |
| RfqEntry.CountOf | Rfqscreen.tsx:201-213 | The drawing count is the length of the DrawingList rows filtered by RFQ number |
| RfqEntry.DrawingTotal | Rfqscreen.tsx:201-213 | `getTotalDrawingsForRfq` is the number of the RFQ's DrawingList rows, 0 when they cannot be read |
| RfqEntry.LoadItem | Rfqscreen.tsx:222-236 | A listed RFQ copies its row's id, number, customer, project and subject, takes today for a missing date, and has the customer's contact person ("N/A" when unknown) and its drawing count |
| RfqEntry.AddRfq | Rfqscreen.tsx:313-344 | With a required field missing nothing happens; otherwise one RFQList row with the form's values is appended, and the form is cleared, its RFQ number included, while the drawing and part inputs are kept |
| RfqEntry.AddedRfqCanBeQuoted | Rfqscreen.tsx:313-344 | An added RFQ can be selected on the quotation screen |
| RfqEntry.EntryAfterRfqIsOrphaned | Rfqscreen.tsx:333-361 | A drawing or part submitted right after Submit RFQ is written with an empty RFQ number, and the new RFQ's drawing count does not change |
| RfqEntry.AddDrawing | Rfqscreen.tsx:346-382 | A drawing needs quantity and number; it takes the parts entered since the last one, which are cleared, and one DrawingList row is added under the RFQ form's current number |
| RfqEntry.AddPart | Rfqscreen.tsx:385-412 | A part needs material, name, quantity and drawing; it is appended to the waiting parts, the inputs are cleared, and one PartList row is added under the RFQ form's current number |
| RfqEntry.EnteredPartsKept | Rfqscreen.tsx:346-412 | Adding a drawing neither loses nor repeats an entered part; adding a part enters exactly that part |
| RfqEntry.AddDrawingCounts | Rfqscreen.tsx:346-382 | Adding a drawing raises the RFQ's drawing count by one |
| RfqEntry.SaveEditedRfq | Rfqscreen.tsx:441-474 | Only the RFQList rows and listed RFQs with the selected id take the edited fields; nothing changes without a selection or on failure |
| RfqEntry.FoldAppend | Rfqscreen.tsx:491-534 | Applying two step lists in turn is applying their concatenation |
| RfqEntry.FoldDrawingDrops | Rfqscreen.tsx:503-505 | Deleting drawings one id at a time drops all of those ids |
| RfqEntry.FoldPartDrops | Rfqscreen.tsx:512-514 | Deleting parts one id at a time drops all of those ids |
| RfqEntry.DeleteSteps | Rfqscreen.tsx:491-534 | The RFQ row is deleted last and by no earlier step |
| RfqEntry.ApplyAllSteps | Rfqscreen.tsx:491-534 | Running the delete steps as writes is applying them in order |
| RfqEntry.DeleteRfq | Rfqscreen.tsx:493 | With nothing selected nothing happens |
| RfqEntry.DeleteFold | Rfqscreen.tsx:499-517 | The steps drop the queried drawing and part ids and then the RFQ id |
| RfqEntry.DeleteFindsRows | Rfqscreen.tsx:499-510 | Every DrawingList and PartList row of the RFQ number is among the queried ids |
| RfqEntry.DeleteCascades | Rfqscreen.tsx:499-526 | A complete delete removes every drawing and part of the RFQ and its RFQList row, keeps the other lists, and drops exactly that id from the screen |
| RfqEntry.FilterKeeps | Rfqscreen.tsx:520-526 | The screen's list after a delete holds exactly the items with another id |
| RfqEntry.DeletePrefixKeeps | Rfqscreen.tsx:499-517 | No step before the last touches RFQList, QuotationList, QuotationRevision or POList |
| RfqEntry.DeleteAbortKeepsRfq | Rfqscreen.tsx:529-532 | A failure part way keeps RFQList and the screen's list unchanged |
| PoEntry.WonSerialsMembers | PoScreen.tsx:53-59 | A serial number is offered exactly when one of its QuotationList rows is Won |
| PoEntry.FirstPo | PoScreen.tsx:150-159 | The first POList row of a serial number, None exactly when there is none |
| PoEntry.Select | PoScreen.tsx:68-116 | An empty selection clears the record; the record shows the first quotation's serial and totals with the first PO row's number, date and rate, each "N/A" when missing or empty; with no quotation row there is none |
| PoEntry.PutPo | PoScreen.tsx:150-179 | Update the first POList row of the serial or add one; other rows and lists kept, and the first row then holds the form's values |
| PoEntry.SavePo | PoScreen.tsx:138-191 | With a field empty nothing happens; otherwise only the record's PO fields change and the form is cleared and closed |
| PoEntry.SaveAddsAtMostOne | PoScreen.tsx:150-179 | A save adds at most one POList row and touches no other list |
| PoEntry.SaveThenSelectShowsPo | PoScreen.tsx:138-191 | Selecting the serial after a save shows the saved PO fields |
| PoEntry.SaveIdempotent | PoScreen.tsx:150-179 | Saving the same PO again leaves POList as it is |
| CustomerEntry.FirstSep | Customerscreen.tsx:100 | The first ", " at or after a position, as `split` finds it |
| CustomerEntry.Split | Customerscreen.tsx:100 | `split(", ")` always yields at least one piece |
| CustomerEntry.Join | Customerscreen.tsx:68 | `join(", ")` of one number is that number |
| CustomerEntry.LoadMobiles | Customerscreen.tsx:100 | An empty column loads as no numbers, and only an empty column does |
| CustomerEntry.JoiningSepIsFirst | Customerscreen.tsx:68 | After a number without the separator, the joining separator is the first one |
| CustomerEntry.SplitJoin | Customerscreen.tsx:68 | Splitting a join gives back the numbers when none contains the separator |
| CustomerEntry.MobilesRoundTrip | Customerscreen.tsx:176 | The stored column loads back as the numbers written, except that the form's single blank number loads as none |
| CustomerEntry.Load | Customerscreen.tsx:87-111 | Every row is loaded, with its id, name and split numbers |
| CustomerEntry.StoredCustomerReadsBack | Customerscreen.tsx:65-111 | A customer stored and loaded is the same customer under its new id |
| CustomerEntry.LowerChar | Customerscreen.tsx:268 | `toLowerCase` leaves no upper-case ASCII letter and changes nothing else |
| CustomerEntry.Lower | Customerscreen.tsx:268 | `toLowerCase` maps each character |
| CustomerEntry.LowerTwice | Customerscreen.tsx:268 | Lower-casing is idempotent |
| CustomerEntry.Search | Customerscreen.tsx:265-270 | The shown customers are exactly those whose lower-cased name contains the lower-cased query |
| CustomerEntry.SearchQueries | Customerscreen.tsx:265-270 | An empty query shows everyone, and the query's case does not matter |
| CustomerEntry.ShownIndex | Customerscreen.tsx:333-344 | The k-th shown customer's index in the full list |
| CustomerEntry.AddMobileNumber | Customerscreen.tsx:272-279 | One blank number is appended and nothing else changes |
| CustomerEntry.ChangeMobile | Customerscreen.tsx:281-287 | Only number i changes |
| CustomerEntry.AddThenTypeMobile | Customerscreen.tsx:272-287 | Adding a number and typing into it appends exactly the typed value |
| CustomerEntry.UpdateRow | Customerscreen.tsx:168-191 | Without an id nothing is written; otherwise the rows with that id take the customer |
| CustomerEntry.AddRow | Customerscreen.tsx:65-85 | One row with the next id is appended |
| CustomerEntry.AddOrUpdate | Customerscreen.tsx:117-153 | With no name nothing happens; otherwise an edit replaces the entry at the editing index and an add appends one, then the form is reset |
| CustomerEntry.AddedCustomerLoads | Customerscreen.tsx:117-153 | An added customer loads back as the form's customer under its new id |
| CustomerEntry.DeleteCustomer | Customerscreen.tsx:235-259 | Only the entry at the delete index leaves the list; nothing happens without an index or without an id |
| CustomerEntry.AskDeleteAsWritten | Customerscreen.tsx:221-226 | The delete index is the table's row index, as written |
| CustomerEntry.EditAsWritten | Customerscreen.tsx:213-219 | The form opens the full list's entry at the table's row index, as written |
| CustomerEntry.AsWrittenHitsHiddenCustomer | Customerscreen.tsx:333-344 | With customers "a" and "b" and query "b", deleting the one row shown removes "a", and editing it opens "a" |
| CustomerEntry.AskDelete | Customerscreen.tsx:221-226 | The delete index points at the customer the row shows |
| CustomerEntry.EditCustomer | Customerscreen.tsx:213-219 | The form opens the customer the row shows, at its index in the full list |
| CustomerEntry.DeleteShownRemovesShown | Customerscreen.tsx:235-259 | Deleting a shown row removes the customer that row shows |
| CustomerEntry.EditShownUnchangedKeepsList | Customerscreen.tsx:117-153 | Saving an opened row unchanged leaves the list as it was |
| MasterEntry.FormRoundTrip | Masterscreen.tsx:212-226 | A material read into the form and saved under its id is the same material |
| MasterEntry.Load | Masterscreen.tsx:94-122 | Every row is loaded, a missing date read as the time of loading |
| MasterEntry.UpdateRow | Masterscreen.tsx:127-152 | Without an id nothing is written; otherwise the rows with that id take the material |
| MasterEntry.AddRow | Masterscreen.tsx:71-92 | One row with the next id is appended |
| MasterEntry.DeleteRow | Masterscreen.tsx:154-169 | Without an id nothing is deleted; otherwise exactly the rows with that id go |
| MasterEntry.EditMaterial | Masterscreen.tsx:212-226 | The form takes the material at the index and the screen remembers the index |
| MasterEntry.AddMaterial | Masterscreen.tsx:171-210 | Without a date nothing happens; an edit replaces only the entry at the index under its own id and clears the index; an add writes a row and reloads; then the form is reset and closed |
| MasterEntry.EditUnchangedKeepsList | Masterscreen.tsx:178-185 | Opening a material and saving it unchanged keeps the list and rewrites its own row |
| MasterEntry.AddedMaterialListed | Masterscreen.tsx:189-196 | An added material is in the reloaded list under the id it got |
| MasterEntry.AskDelete | Masterscreen.tsx:229-231 | The confirmation opens for that material |
| MasterEntry.ConfirmDelete | Masterscreen.tsx:233-248 | With no material or no id nothing happens; otherwise exactly the materials with that id leave the list and the confirmation closes |
| MasterEntry.ConfirmDeleteTwice | Masterscreen.tsx:239 | Deleting the same material twice changes nothing the second time |

## Left out

- SharePoint I/O: list reads and writes are functions on an abstract store. OData filter strings are not modelled.
- SharePoint failures: a failed read or write is a parameter (an `Option`, a set of failing write indices, or a `fails` flag).
- `Promise.all` fan-out: its steps are treated as sequential.
- Clocks: `new Date()` and `toISOString` are opaque string inputs.
- PDF generation with jsPDF and autoTable is not modelled. This includes the display-only overhead column.
- React rendering, modals, alerts and console logging are not modelled.
- Floating point: amounts are `real`, with no IEEE rounding and no `toFixed`.
- NaN: NaN from `parseFloat` reads as 0 (`Numeric.Num`), and NaN from `parseInt` reads as revision -1 (`Numeric.Rev`). Every comparison the resolvers make (`> h` with h >= 0, and `=== 0`) is false for both NaN and -1.
- Number text: exponent notation and hexadecimal text are not parsed.
- The sent and result screens filter QuotationRevision on a field named `Status`, which its rows do not have. `Approval.QueueSerials` takes that query as returning no rows. It does not model a query error.
- The new-quotation screen's material map is keyed by a field the query does not select. The material master entries are an input to `QuotationEntry.FillRecord`.
- The new-quotation screen's `saveEdit`, `updatePartList`, `updateMaterialList`, `addToRateDatePairList`, local delete and field edits are not among the modelled operations.
- `loadRFQNumbersFromSharePoint` and `fetchCustomerDetailsForSpecificRFQ` only feed dropdowns and the PDF.
- `fetchDrawingAndPartDetailsBySerialNumber` is modelled only by its result: the drawings are an input to `QuotationEntry.Select` and `RevisionEntry.Select`.
- RevisionEntry.OpenEdit: the source shares object references between the form and the list; the model ties the form to the listed record by its position and states the sharing as equal drawings there (`RevisionEntry.Shares`). A list reloaded while the form is open is not modelled.
- RevisionEntry.SaveFailing: only an empty revision date is taken as one `toISOString` rejects; the date input gives either an empty string or a well-formed date, and dates are otherwise opaque strings.
- The new-quotation screen's `handleChange` also writes into a part list shared with the listed record (QuotationScreen.tsx:817-823); like the rest of that screen's field edits it is not modelled.
- Approval.Approve, Approval.Reject, Approval.Send: their contracts are stated by `Approval.ApproveCompletes`, `Approval.RejectWritesTypedReason`, `Approval.SendChangesOnlyStatus` and `Approval.StatusRun`, not on the functions themselves.
- Resolver.Resolve: its contract is stated by the lemmas `Resolver.ResolveNullIff`, `Resolver.ResolvedIsHighest`, `Resolver.ResolvedIsRow` and `Resolver.FastPathIgnoresRevisions`.
- CustomerEntry.AddOrUpdate: when the editing index is past the end of the list, the model keeps the list. JavaScript would instead write the entry past the end and leave holes.
- CustomerEntry.Lower: `toLowerCase` is modelled on ASCII letters only.
- CustomerEntry.MobilesRoundTrip: a stored number that itself contains ", " splits into several numbers on loading. The round trip is proved only for numbers without it.
- MasterEntry.AddMaterial: an editing index past the end of the list makes the source throw a TypeError before anything changes. The model returns the input unchanged.
- Per-row partial completion inside one list update is not modelled. A list update is one write, and it either happens in full or not at all.

## Findings

| source | as written | input that shows it | evidently intended | confidence | as-written member | corrected member |
|---|---|---|---|---|---|---|
| Customerscreen.tsx:333-344 | The table renders the searched customers. Its Edit and Delete buttons pass the row's index in that view. `editCustomer` (Customerscreen.tsx:213-219) and `deleteCustomer` (Customerscreen.tsx:235-259) use that index on the full list. | Take customers "a" (id 1) and "b" (id 2) with the query "b". The table shows only "b". Deleting its row removes "a", and editing it opens "a". | The row's index is mapped to the full list, so the customer that row shows is edited or deleted. | not executed | CustomerEntry.AsWrittenHitsHiddenCustomer | CustomerEntry.DeleteShownRemovesShown |
