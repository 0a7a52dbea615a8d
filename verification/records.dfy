/** The SharePoint lists the screens read and write, as an abstract store of
    rows, and the way a screen action fans its writes out over them.

    Every screen action is a sequence of writes issued one after another. A
    write either succeeds or fails. A failure that the action does not catch
    itself aborts the rest of the action: the writes already made stay in the
    store, the later ones are not made and the screen's local state is not
    updated. A few writes sit in their own try/catch; their failure only skips
    that write. */
module Records {
  import opened Common
  import opened Costing

  /** Workflow status, as stored in `Status` (QuotationList, RFQList) and
      `Statuss` (QuotationRevision). `Unset` is an empty or missing value. */
  datatype Status = Unset | Todo | WorkingDone | Approved | Waiting | Won | Loss | Revised

  /** A QuotationList row: the quotation as first submitted (revision "0") or
      as last updated. */
  datatype QuotationRow = QuotationRow(
    id: nat,
    serial: string,
    revision: string,
    quotationDate: string,
    totalWeight: real,
    totalRate: real,
    totalAmount: real,
    status: Status,
    reason: string,
    lossReason: string,
    approvalDate: string)

  /** A QuotationRevision row: one saved revision. Its status field is named
      `Statuss` and its date `RevisionDate`. */
  datatype RevisionRow = RevisionRow(
    id: nat,
    serial: string,
    revision: string,
    revisionDate: string,
    totalWeight: real,
    totalRate: real,
    totalAmount: real,
    statuss: Status,
    reason: string,
    approvalDate: string)

  /** An RFQList row. */
  datatype RfqRow = RfqRow(
    id: nat,
    rfqNumber: string,
    customer: string,
    project: string,
    subject: string,
    date: string,
    status: Status)

  /** A DrawingList row with the totals last written for it. */
  datatype DrawingRow = DrawingRow(
    id: nat,
    rfqNumber: string,
    drawingNumber: string,
    quantity: string,
    totals: Totals)

  /** A PartList row: a part of a drawing of an RFQ. */
  datatype PartRow = PartRow(id: nat, rfqNumber: string, drawingNumber: string, part: Part)

  /** A POList row. */
  datatype PoRow = PoRow(id: nat, serial: string, poNumber: string, poDate: string, rateByCustomer: string)

  /** The lists. `nextId` is the id the list service gives the next added row. */
  datatype Store = Store(
    quotations: seq<QuotationRow>,
    revisions: seq<RevisionRow>,
    rfqs: seq<RfqRow>,
    drawings: seq<DrawingRow>,
    parts: seq<PartRow>,
    pos: seq<PoRow>,
    nextId: nat)

  // ---------------------------------------------------------------------------
  // Fan-out
  // ---------------------------------------------------------------------------

  /** One write of an action. `swallows` marks a write wrapped in its own
      try/catch. */
  datatype Write = Write(apply: Store -> Store, swallows: bool)

  /** The store after an action, and whether the action ran to its end (false
      when an uncaught failure aborted it). */
  datatype Outcome = Outcome(store: Store, completed: bool)

  /** Issue the writes in order; the writes whose indices are in `failing`
      fail. */
  function Run(s: Store, ws: seq<Write>, failing: set<nat>): (o: Outcome)
    decreases |ws|
  {
    if |ws| == 0 then Outcome(s, true)
    else
      var o := Run(s, ws[..|ws| - 1], failing);
      var w := ws[|ws| - 1];
      if !o.completed then o
      else if |ws| - 1 in failing then (if w.swallows then o else Outcome(o.store, false))
      else Outcome(w.apply(o.store), true)
  }

  /** Reference semantics: every write not in `skipped`, applied in order. */
  function ApplyAll(s: Store, ws: seq<Write>, skipped: set<nat>): Store
    decreases |ws|
  {
    if |ws| == 0 then s
    else
      var t := ApplyAll(s, ws[..|ws| - 1], skipped);
      if |ws| - 1 in skipped then t else ws[|ws| - 1].apply(t)
  }

  /** When every failing write is one that catches its own error, the action
      completes, and the store holds exactly the writes that did not fail.
      With no failure at all, that is every write. */
  lemma {:induction false} RunSwallowed(s: Store, ws: seq<Write>, failing: set<nat>)
    requires forall i :: 0 <= i < |ws| && i in failing ==> ws[i].swallows
    ensures Run(s, ws, failing) == Outcome(ApplyAll(s, ws, failing), true)
    decreases |ws|
  {
    if |ws| > 0 {
      RunSwallowed(s, ws[..|ws| - 1], failing);
    }
  }

  /** The last two writes, when neither is skipped, apply in order to what
      the earlier ones made. */
  lemma ApplyAllLastTwo(s: Store, ws: seq<Write>, skipped: set<nat>)
    requires |ws| >= 2 && |ws| - 1 !in skipped && |ws| - 2 !in skipped
    ensures ApplyAll(s, ws, skipped) == ws[|ws| - 1].apply(ws[|ws| - 2].apply(ApplyAll(s, ws[..|ws| - 2], skipped)))
  {
    assert ws[..|ws| - 1][..|ws| - 2] == ws[..|ws| - 2];
  }

  /** Self-catching writes followed by a last write that goes through: the
      action completes, and the last write applies to what the others made. */
  lemma RunLast(s: Store, ws: seq<Write>, failing: set<nat>)
    requires |ws| > 0 && |ws| - 1 !in failing
    requires forall i :: 0 <= i < |ws| - 1 && i in failing ==> ws[i].swallows
    ensures Run(s, ws, failing) == Outcome(ws[|ws| - 1].apply(ApplyAll(s, ws[..|ws| - 1], failing)), true)
  {
    RunSwallowed(s, ws[..|ws| - 1], failing);
  }

  /** The first failure that is not caught aborts the action. Everything
      written before it stays in the store and nothing after it is written. */
  lemma {:induction false} RunAborts(s: Store, ws: seq<Write>, failing: set<nat>, k: nat)
    requires k < |ws| && k in failing && !ws[k].swallows
    requires forall i :: 0 <= i < k && i in failing ==> ws[i].swallows
    ensures Run(s, ws, failing) == Outcome(ApplyAll(s, ws[..k], failing), false)
    decreases |ws|
  {
    if k == |ws| - 1 {
      assert ws[..|ws| - 1] == ws[..k];
      RunSwallowed(s, ws[..k], failing);
    } else {
      assert ws[..|ws| - 1][..k] == ws[..k];
      RunAborts(s, ws[..|ws| - 1], failing, k);
    }
  }

  /** Writes made before a skipped index do not depend on writes after it. */
  lemma {:induction false} ApplyAllPrefix(s: Store, ws: seq<Write>, skipped: set<nat>, k: nat)
    requires k <= |ws|
    requires forall i :: k <= i < |ws| ==> i in skipped
    ensures ApplyAll(s, ws, skipped) == ApplyAll(s, ws[..k], skipped)
    decreases |ws|
  {
    if |ws| > k {
      assert ws[..|ws| - 1][..k] == ws[..k];
      ApplyAllPrefix(s, ws[..|ws| - 1], skipped, k);
    } else {
      assert ws[..k] == ws;
    }
  }

  // ---------------------------------------------------------------------------
  // Row updates shared by several screens
  // ---------------------------------------------------------------------------

  /** Index of the first QuotationList row for an RFQ serial number, as
      `items.filter(RFQSerialNumber eq …)[0]` picks it. */
  function FirstQuotation(s: Store, serial: string): (r: Option<nat>)
    ensures r.Some? ==> r.value < |s.quotations| && s.quotations[r.value].serial == serial
    ensures r.None? <==> forall i :: 0 <= i < |s.quotations| ==> s.quotations[i].serial != serial
  {
    FirstIndex(s.quotations, (q: QuotationRow) => q.serial == serial)
  }

  /** Index of the first RFQList row with a given RFQ number. */
  function FirstRfq(s: Store, rfqNumber: string): (r: Option<nat>)
    ensures r.Some? ==> r.value < |s.rfqs| && s.rfqs[r.value].rfqNumber == rfqNumber
    ensures r.None? <==> forall i :: 0 <= i < |s.rfqs| ==> s.rfqs[i].rfqNumber != rfqNumber
  {
    FirstIndex(s.rfqs, (r: RfqRow) => r.rfqNumber == rfqNumber)
  }

  /** Set the status of the first RFQList row with that number, if any. */
  function SetFirstRfqStatus(s: Store, rfqNumber: string, st: Status): (t: Store)
    ensures |t.rfqs| == |s.rfqs|
    ensures t == s.(rfqs := t.rfqs)
    ensures forall i :: 0 <= i < |s.rfqs| ==>
      t.rfqs[i] == (if Some(i) == FirstRfq(s, rfqNumber) then s.rfqs[i].(status := st) else s.rfqs[i])
  {
    match FirstRfq(s, rfqNumber)
    case None => s
    case Some(i) => s.(rfqs := ReplaceAt(s.rfqs, i, s.rfqs[i].(status := st)))
  }

  /** After the status write, the RFQ's first row, if any, has the status;
      QuotationList is untouched. */
  lemma SetFirstRfqStatusHolds(s: Store, rfqNumber: string, st: Status)
    ensures var t := SetFirstRfqStatus(s, rfqNumber, st);
      t.quotations == s.quotations
      && (FirstRfq(t, rfqNumber).Some? ==> t.rfqs[FirstRfq(t, rfqNumber).value].status == st)
  {
    var t := SetFirstRfqStatus(s, rfqNumber, st);
    if FirstRfq(t, rfqNumber).Some? {
      assert FirstRfq(s, rfqNumber).Some?;
      assert FirstRfq(t, rfqNumber) == FirstRfq(s, rfqNumber);
    }
  }

  /** Set the status of every RFQList row with that number. */
  function SetAllRfqStatus(s: Store, rfqNumber: string, st: Status): (t: Store)
    ensures |t.rfqs| == |s.rfqs|
    ensures t == s.(rfqs := t.rfqs)
    ensures forall i :: 0 <= i < |s.rfqs| ==>
      t.rfqs[i] == (if s.rfqs[i].rfqNumber == rfqNumber then s.rfqs[i].(status := st) else s.rfqs[i])
  {
    s.(rfqs := MapWhere(s.rfqs, (r: RfqRow) => r.rfqNumber == rfqNumber, (r: RfqRow) => r.(status := st)))
  }

  /** Index of the first DrawingList row of a drawing of an RFQ. */
  function FirstDrawing(s: Store, rfqNumber: string, number: string): (r: Option<nat>)
    ensures r.Some? ==>
      r.value < |s.drawings| && s.drawings[r.value].rfqNumber == rfqNumber && s.drawings[r.value].drawingNumber == number
    ensures r.None? <==> forall i :: 0 <= i < |s.drawings| ==>
      !(s.drawings[i].rfqNumber == rfqNumber && s.drawings[i].drawingNumber == number)
    ensures r.Some? ==> forall i :: 0 <= i < r.value ==>
      !(s.drawings[i].rfqNumber == rfqNumber && s.drawings[i].drawingNumber == number)
  {
    FirstIndex(s.drawings, (d: DrawingRow) => d.rfqNumber == rfqNumber && d.drawingNumber == number)
  }

  /** Write a drawing's totals on its first DrawingList row; nothing when the
      drawing has no row. */
  function SetDrawingTotals(s: Store, rfqNumber: string, number: string, t: Totals): (u: Store)
    ensures u == s.(drawings := u.drawings) && |u.drawings| == |s.drawings|
    ensures FirstDrawing(s, rfqNumber, number).None? ==> u == s
    ensures FirstDrawing(s, rfqNumber, number).Some? ==>
      var k := FirstDrawing(s, rfqNumber, number).value;
      u.drawings[k] == s.drawings[k].(totals := t)
      && forall i :: 0 <= i < |s.drawings| && i != k ==> u.drawings[i] == s.drawings[i]
  {
    match FirstDrawing(s, rfqNumber, number)
    case None => s
    case Some(k) => s.(drawings := ReplaceAt(s.drawings, k, s.drawings[k].(totals := t)))
  }

  /** Write a drawing's totals on its first DrawingList row, or add a row for
      it. Afterwards the drawing's first row holds the totals. */
  function UpsertDrawingTotals(s: Store, rfqNumber: string, number: string, t: Totals): (u: Store)
    ensures u.quotations == s.quotations && u.revisions == s.revisions && u.rfqs == s.rfqs
    ensures u.parts == s.parts && u.pos == s.pos
    ensures FirstDrawing(s, rfqNumber, number).Some? ==> |u.drawings| == |s.drawings|
    ensures FirstDrawing(s, rfqNumber, number).None? ==> |u.drawings| == |s.drawings| + 1
    ensures forall i :: 0 <= i < |s.drawings| && Some(i) != FirstDrawing(s, rfqNumber, number) ==> u.drawings[i] == s.drawings[i]
    ensures forall i :: 0 <= i < |s.drawings| ==>
      u.drawings[i].rfqNumber == s.drawings[i].rfqNumber && u.drawings[i].drawingNumber == s.drawings[i].drawingNumber
    ensures FirstDrawing(u, rfqNumber, number).Some?
    ensures u.drawings[FirstDrawing(u, rfqNumber, number).value].totals == t
  {
    match FirstDrawing(s, rfqNumber, number)
    case Some(k) =>
      var u := SetDrawingTotals(s, rfqNumber, number, t);
      assert FirstDrawing(u, rfqNumber, number) == Some(k) by {
        var f := FirstDrawing(u, rfqNumber, number);
        assert f.Some?;
      }
      u
    case None =>
      var u := s.(drawings := s.drawings + [DrawingRow(s.nextId, rfqNumber, number, "", t)], nextId := s.nextId + 1);
      assert forall i :: 0 <= i < |s.drawings| ==> u.drawings[i] == s.drawings[i];
      assert FirstDrawing(u, rfqNumber, number) == Some(|s.drawings|) by {
        var f := FirstDrawing(u, rfqNumber, number);
        assert u.drawings[|s.drawings|].rfqNumber == rfqNumber;
        assert f.Some?;
      }
      u
  }

  /** The first DrawingList row of a drawing of an RFQ holds the totals. */
  predicate HoldsTotals(s: Store, rfqNumber: string, number: string, t: Totals)
  {
    FirstDrawing(s, rfqNumber, number).Some? && s.drawings[FirstDrawing(s, rfqNumber, number).value].totals == t
  }

  /** Whether a drawing's first row holds some totals depends on DrawingList
      alone. */
  lemma HoldsTotalsOnDrawings(a: Store, b: Store, rfqNumber: string, number: string, t: Totals)
    requires a.drawings == b.drawings
    ensures HoldsTotals(a, rfqNumber, number, t) == HoldsTotals(b, rfqNumber, number, t)
  {
    assert FirstDrawing(a, rfqNumber, number) == FirstDrawing(b, rfqNumber, number);
  }

  /** An upsert for one drawing leaves the first row of every other drawing
      of the RFQ where it was, with the totals it had. */
  lemma UpsertKeepsOtherDrawings(s: Store, rfqNumber: string, number: string, t: Totals, other: string, held: Totals)
    requires other != number
    requires HoldsTotals(s, rfqNumber, other, held)
    ensures HoldsTotals(UpsertDrawingTotals(s, rfqNumber, number, t), rfqNumber, other, held)
  {
    var u := UpsertDrawingTotals(s, rfqNumber, number, t);
    var k := FirstDrawing(s, rfqNumber, other).value;
    assert Some(k) != FirstDrawing(s, rfqNumber, number);
    assert u.drawings[k] == s.drawings[k];
    var f := FirstDrawing(u, rfqNumber, other);
    assert f.Some?;
    assert f.value == k;
  }

  /** Apply `f` to every QuotationList row of a serial number; nothing else
      changes. */
  function UpdateQuotations(s: Store, serial: string, f: QuotationRow -> QuotationRow): (t: Store)
    ensures t == s.(quotations := t.quotations) && |t.quotations| == |s.quotations|
    ensures forall i :: 0 <= i < |s.quotations| ==>
      t.quotations[i] == if s.quotations[i].serial == serial then f(s.quotations[i]) else s.quotations[i]
  {
    s.(quotations := MapWhere(s.quotations, (q: QuotationRow) => q.serial == serial, f))
  }

  /** Apply `f` to every QuotationRevision row of a serial number; nothing
      else changes. */
  function UpdateRevisions(s: Store, serial: string, f: RevisionRow -> RevisionRow): (t: Store)
    ensures t == s.(revisions := t.revisions) && |t.revisions| == |s.revisions|
    ensures forall i :: 0 <= i < |s.revisions| ==>
      t.revisions[i] == if s.revisions[i].serial == serial then f(s.revisions[i]) else s.revisions[i]
  {
    s.(revisions := MapWhere(s.revisions, (v: RevisionRow) => v.serial == serial, f))
  }

  /** Set the status of the first QuotationList row of a serial number. */
  function SetFirstQuotationStatus(s: Store, serial: string, st: Status): (t: Store)
    ensures t == s.(quotations := t.quotations) && |t.quotations| == |s.quotations|
    ensures forall i :: 0 <= i < |s.quotations| ==>
      t.quotations[i] == (if Some(i) == FirstQuotation(s, serial) then s.quotations[i].(status := st) else s.quotations[i])
  {
    match FirstQuotation(s, serial)
    case None => s
    case Some(i) => s.(quotations := ReplaceAt(s.quotations, i, s.quotations[i].(status := st)))
  }

  /** Views of the store, for the lemmas below. */
  function Quotations(t: Store): seq<QuotationRow> { t.quotations }

  function Revisions(t: Store): seq<RevisionRow> { t.revisions }

  function Rfqs(t: Store): seq<RfqRow> { t.rfqs }

  function Pos(t: Store): seq<PoRow> { t.pos }

  function DrawingCount(t: Store): nat { |t.drawings| }

  /** A view of the store (one list, a length, ...) that no write of a
      sequence changes is not changed by the sequence. */
  lemma {:induction false} ApplyAllKeeps<T>(s: Store, ws: seq<Write>, skipped: set<nat>, view: Store -> T)
    requires forall i, t :: 0 <= i < |ws| ==> view(ws[i].apply(t)) == view(t)
    ensures view(ApplyAll(s, ws, skipped)) == view(s)
    decreases |ws|
  {
    if |ws| > 0 {
      ApplyAllKeeps(s, ws[..|ws| - 1], skipped, view);
    }
  }

  /** The same for a run that may stop early. */
  lemma {:induction false} RunKeeps<T>(s: Store, ws: seq<Write>, failing: set<nat>, view: Store -> T)
    requires forall i, t :: 0 <= i < |ws| ==> view(ws[i].apply(t)) == view(t)
    ensures view(Run(s, ws, failing).store) == view(s)
    decreases |ws|
  {
    if |ws| > 0 {
      RunKeeps(s, ws[..|ws| - 1], failing, view);
    }
  }
}
