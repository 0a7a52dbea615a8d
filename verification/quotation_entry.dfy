/** The quotation entry screen: the first costing of an RFQ. Selecting an RFQ
    builds a local record (status Todo) from the RFQList row, the QuotationList
    row if any, and the RFQ's drawings; editing fills part materials and rates
    from the material master; submitting writes drawing totals, the quotation
    and the RFQ status (Todo -> WorkingDone). */
module QuotationEntry {
  import opened Common
  import opened Costing
  import opened Records

  /** A quotation as this screen holds it. */
  datatype Record = Record(
    id: nat,
    serial: string,
    rfqNumber: string,
    revision: string,
    quotationDate: string,
    status: Status,
    reason: string,
    drawings: seq<Drawing>,
    totalWeight: real,
    totalAmount: real,
    avgRate: real)

  /** A MaterialList entry as this screen loads it. */
  datatype MaterialRef = MaterialRef(partNumber: string, material: string, rate: string)

  // ---------------------------------------------------------------------------
  // Selecting an RFQ
  // ---------------------------------------------------------------------------

  /** The record built for a selected RFQ: the RFQ's date, the first
      QuotationList row's reason and revision (none and "0" without one),
      status Todo, and the three quotation totals. */
  function NewRecord(id: nat, serial: string, s: Store, rfq: RfqRow, drawings: seq<Drawing>): (r: Record)
    ensures r.id == id && r.serial == serial && r.rfqNumber == serial && r.status == Todo
    ensures r.quotationDate == rfq.date && r.drawings == drawings
    ensures FirstQuotation(s, serial).None? ==> r.revision == "0" && r.reason == ""
    ensures FirstQuotation(s, serial).Some? ==>
      r.revision == s.quotations[FirstQuotation(s, serial).value].revision
      && r.reason == s.quotations[FirstQuotation(s, serial).value].reason
    ensures r.totalWeight == QuotationWeight(drawings) && r.totalAmount == QuotationAmount(drawings)
    ensures r.avgRate == AverageRawRate(drawings)
  {
    var q := FirstQuotation(s, serial);
    Record(id, serial, serial,
           if q.Some? then s.quotations[q.value].revision else "0",
           rfq.date, Todo,
           if q.Some? then s.quotations[q.value].reason else "",
           drawings,
           QuotationWeight(drawings), QuotationAmount(drawings), AverageRawRate(drawings))
  }

  predicate HasSerial(serial: string, r: Record) { r.serial == serial }

  /** `handleSerialNumberChange`. Nothing happens (None) for an empty
      selection, when a read inside the handler's `try` fails (`readable`
      false: the catch only alerts), or for an RFQ number with no RFQList
      row. Otherwise the new record
      (id one more than the number of records) replaces the first record with
      that serial number, or is appended. `drawings` stands for the RFQ's
      drawings as read from DrawingList and PartList. */
  function Select(records: seq<Record>, serial: string, s: Store, drawings: seq<Drawing>, readable: bool): (r: Option<seq<Record>>)
    ensures r.None? <==> serial == "" || !readable || FirstRfq(s, serial).None?
    ensures r.Some? ==>
      var n := NewRecord(|records| + 1, serial, s, s.rfqs[FirstRfq(s, serial).value], drawings);
      match FirstIndex(records, (x: Record) => HasSerial(serial, x))
      case Some(k) =>
        |r.value| == |records| && r.value[k] == n
        && (forall j :: 0 <= j < |records| && j != k ==> r.value[j] == records[j])
        && (forall j :: 0 <= j < k ==> records[j].serial != serial)
      case None =>
        r.value == records + [n] && forall j :: 0 <= j < |records| ==> records[j].serial != serial
  {
    if serial == "" || !readable then None
    else match FirstRfq(s, serial)
      case None => None
      case Some(i) =>
        Some(UpsertFirst(records, (x: Record) => HasSerial(serial, x), NewRecord(|records| + 1, serial, s, s.rfqs[i], drawings)))
  }

  /** Selecting the same RFQ again (same lists) keeps one record for it: the
      list does not grow, and the record it holds is the fresh one. */
  lemma SelectTwiceKeepsOne(records: seq<Record>, serial: string, s: Store, drawings: seq<Drawing>)
    requires Select(records, serial, s, drawings, true).Some?
    ensures var once := Select(records, serial, s, drawings, true).value;
      var twice := Select(once, serial, s, drawings, true);
      twice.Some? && |twice.value| == |once|
      && FirstIndex(once, (x: Record) => HasSerial(serial, x)).Some?
      && twice.value[FirstIndex(once, (x: Record) => HasSerial(serial, x)).value]
         == NewRecord(|once| + 1, serial, s, s.rfqs[FirstRfq(s, serial).value], drawings)
  {
    var rfq := s.rfqs[FirstRfq(s, serial).value];
    var p := (x: Record) => HasSerial(serial, x);
    UpsertFirstFinds(records, p, NewRecord(|records| + 1, serial, s, rfq, drawings));
  }

  // ---------------------------------------------------------------------------
  // Filling parts from the material master
  // ---------------------------------------------------------------------------

  /** The first master entry whose part number is the part's name
      (`indexOf` on the part numbers). */
  function MasterFor(ms: seq<MaterialRef>, name: string): (r: Option<nat>)
    ensures r.Some? ==> r.value < |ms| && ms[r.value].partNumber == name
    ensures r.None? <==> forall i :: 0 <= i < |ms| ==> ms[i].partNumber != name
    ensures r.Some? ==> forall i :: 0 <= i < r.value ==> ms[i].partNumber != name
  {
    FirstIndex(ms, (m: MaterialRef) => m.partNumber == name)
  }

  /** `handleEdit` on one part: material and rate come from the master entry
      when it has a non-empty value, and otherwise stay as they were. */
  function FillPart(p: Part, ms: seq<MaterialRef>): (q: Part)
    ensures q.(material := p.material, rate := p.rate) == p
    ensures MasterFor(ms, p.name).None? ==> q == p
    ensures MasterFor(ms, p.name).Some? ==>
      var m := ms[MasterFor(ms, p.name).value];
      (m.material != "" ==> q.material == m.material) && (m.material == "" ==> q.material == p.material)
      && (m.rate != "" ==> q.rate == m.rate) && (m.rate == "" ==> q.rate == p.rate)
  {
    match MasterFor(ms, p.name)
    case None => p
    case Some(i) => p.(material := OrElse(ms[i].material, p.material), rate := OrElse(ms[i].rate, p.rate))
  }

  /** Filling is idempotent: the name it looks up is not changed, and a second
      fill finds the same values. */
  lemma FillPartIdempotent(p: Part, ms: seq<MaterialRef>)
    ensures FillPart(FillPart(p, ms), ms) == FillPart(p, ms)
  {
  }

  /** `handleEdit`: every part of every drawing filled, nothing else changed. */
  function FillRecord(r: Record, ms: seq<MaterialRef>): (f: Record)
    ensures f.(drawings := r.drawings) == r
    ensures |f.drawings| == |r.drawings|
    ensures forall i :: 0 <= i < |r.drawings| ==>
      f.drawings[i].(parts := r.drawings[i].parts) == r.drawings[i]
      && |f.drawings[i].parts| == |r.drawings[i].parts|
      && forall j :: 0 <= j < |r.drawings[i].parts| ==> f.drawings[i].parts[j] == FillPart(r.drawings[i].parts[j], ms)
  {
    r.(drawings := Map(r.drawings, (d: Drawing) => d.(parts := Map(d.parts, (p: Part) => FillPart(p, ms)))))
  }

  // ---------------------------------------------------------------------------
  // Submitting
  // ---------------------------------------------------------------------------

  /** Step 2 of `confirmSubmit`: the first QuotationList row of the serial gets
      the record's date, revision, weight, amount and status WorkingDone; with
      no row, one is added with those fields (the rate column is not written).
      A record without a date sends the date as `undefined`, which the update
      leaves out, so the row keeps the date it had; an added row has none. */
  function PutQuotation(s: Store, r: Record): (u: Store)
    ensures u.revisions == s.revisions && u.rfqs == s.rfqs && u.drawings == s.drawings
    ensures u.parts == s.parts && u.pos == s.pos
    ensures FirstQuotation(s, r.serial).Some? ==> |u.quotations| == |s.quotations|
    ensures FirstQuotation(s, r.serial).None? ==> |u.quotations| == |s.quotations| + 1
    ensures forall i :: 0 <= i < |s.quotations| && Some(i) != FirstQuotation(s, r.serial) ==> u.quotations[i] == s.quotations[i]
    ensures FirstQuotation(u, r.serial).Some?
    ensures var q := u.quotations[FirstQuotation(u, r.serial).value];
      q.status == WorkingDone && q.revision == r.revision
      && q.totalWeight == r.totalWeight && q.totalAmount == r.totalAmount
    ensures r.quotationDate != "" ==> u.quotations[FirstQuotation(u, r.serial).value].quotationDate == r.quotationDate
    ensures r.quotationDate == "" && FirstQuotation(s, r.serial).Some? ==>
      u.quotations[FirstQuotation(u, r.serial).value].quotationDate == s.quotations[FirstQuotation(s, r.serial).value].quotationDate
    ensures r.quotationDate == "" && FirstQuotation(s, r.serial).None? ==>
      u.quotations[FirstQuotation(u, r.serial).value].quotationDate == ""
  {
    match FirstQuotation(s, r.serial)
    case Some(k) =>
      var q := s.quotations[k].(quotationDate := OrElse(r.quotationDate, s.quotations[k].quotationDate), revision := r.revision,
                                totalWeight := r.totalWeight, totalAmount := r.totalAmount, status := WorkingDone);
      var u := s.(quotations := s.quotations[k := q]);
      assert FirstQuotation(u, r.serial) == Some(k) by {
        assert u.quotations[k].serial == r.serial;
        assert FirstQuotation(u, r.serial).Some?;
      }
      u
    case None =>
      var q := QuotationRow(s.nextId, r.serial, r.revision, r.quotationDate, r.totalWeight, 0.0, r.totalAmount,
                            WorkingDone, "", "", "");
      var u := s.(quotations := s.quotations + [q], nextId := s.nextId + 1);
      assert forall i :: 0 <= i < |s.quotations| ==> u.quotations[i] == s.quotations[i];
      assert FirstQuotation(u, r.serial) == Some(|s.quotations|) by {
        assert u.quotations[|s.quotations|].serial == r.serial;
        assert FirstQuotation(u, r.serial).Some?;
      }
      u
  }

  /** The writes of `confirmSubmit`, in order: one DrawingList upsert per
      drawing (averaged totals), the QuotationList upsert, the RFQList status.
      None of them catches its own error. */
  function SubmitWrites(r: Record): (ws: seq<Write>)
    ensures |ws| == |r.drawings| + 2
    ensures forall i :: 0 <= i < |ws| ==> !ws[i].swallows
  {
    Map(r.drawings, (d: Drawing) =>
          Write((s: Store) => UpsertDrawingTotals(s, r.rfqNumber, d.number, AveragedTotals(d)), false))
    + [Write((s: Store) => PutQuotation(s, r), false),
       Write((s: Store) => SetFirstRfqStatus(s, r.serial, WorkingDone), false)]
  }

  /** The local list after a successful submit: the records with the
      submitted id get status WorkingDone. */
  function MarkWorkingDone(records: seq<Record>, id: nat): (rs: seq<Record>)
    ensures |rs| == |records|
    ensures forall i :: 0 <= i < |records| ==>
      rs[i] == if records[i].id == id then records[i].(status := WorkingDone) else records[i]
  {
    MapWhere(records, (x: Record) => x.id == id, (x: Record) => x.(status := WorkingDone))
  }

  datatype Submitted = Submitted(store: Store, records: seq<Record>)

  /** `confirmSubmit` with the writes whose indices are in `failing` failing
      (a failed read counts as a failure of the write it precedes). The local
      list changes only when every write went through. */
  function Submit(s: Store, records: seq<Record>, r: Record, failing: set<nat>): (out: Submitted)
    ensures var o := Run(s, SubmitWrites(r), failing);
      out.store == o.store && (o.completed ==> out.records == MarkWorkingDone(records, r.id))
      && (!o.completed ==> out.records == records)
  {
    var o := Run(s, SubmitWrites(r), failing);
    Submitted(o.store, if o.completed then MarkWorkingDone(records, r.id) else records)
  }

  /** With no failure every write of submit is made, in order. */
  lemma SubmitRunsAll(s: Store, r: Record)
    ensures Run(s, SubmitWrites(r), {})
            == Outcome(SetFirstRfqStatus(PutQuotation(ApplyAll(s, SubmitWrites(r)[..|r.drawings|], {}), r), r.serial, WorkingDone), true)
  {
    var ws := SubmitWrites(r);
    var n := |ws|;
    RunSwallowed(s, ws, {});
    ApplyAllLastTwo(s, ws, {});
    assert ws[n - 2].apply == (u: Store) => PutQuotation(u, r);
    assert ws[n - 1].apply == (u: Store) => SetFirstRfqStatus(u, r.serial, WorkingDone);
  }

  /** The last two writes of submit, on whatever the drawing writes left. */
  lemma QuotationThenRfq(t: Store, r: Record)
    ensures var last := SetFirstRfqStatus(PutQuotation(t, r), r.serial, WorkingDone);
      FirstQuotation(last, r.serial).Some?
      && last.quotations[FirstQuotation(last, r.serial).value].status == WorkingDone
      && last.quotations[FirstQuotation(last, r.serial).value].revision == r.revision
      && last.quotations[FirstQuotation(last, r.serial).value].totalAmount == r.totalAmount
      && (FirstRfq(last, r.serial).Some? ==> last.rfqs[FirstRfq(last, r.serial).value].status == WorkingDone)
  {
    var mid := PutQuotation(t, r);
    SetFirstRfqStatusHolds(mid, r.serial, WorkingDone);
    var last := SetFirstRfqStatus(mid, r.serial, WorkingDone);
    assert FirstQuotation(last, r.serial) == FirstQuotation(mid, r.serial);
  }

  /** No two drawings of the record share a drawing number. */
  predicate DistinctNumbers(ds: seq<Drawing>)
  {
    forall i, j :: 0 <= i < j < |ds| ==> ds[i].number != ds[j].number
  }

  /** After the first m drawing writes of submit, each of those m drawings
      has its averaged totals on its first DrawingList row. */
  lemma {:induction false} DrawingWritesHold(s: Store, r: Record, m: nat)
    requires m <= |r.drawings| && DistinctNumbers(r.drawings)
    ensures forall j :: 0 <= j < m ==>
      HoldsTotals(ApplyAll(s, SubmitWrites(r)[..m], {}), r.rfqNumber, r.drawings[j].number, AveragedTotals(r.drawings[j]))
    decreases m
  {
    if m > 0 {
      DrawingWritesHold(s, r, m - 1);
      var ws := SubmitWrites(r);
      var d := r.drawings[m - 1];
      assert ws[..m][..m - 1] == ws[..m - 1];
      var t := ApplyAll(s, ws[..m - 1], {});
      assert ws[m - 1].apply == (u: Store) => UpsertDrawingTotals(u, r.rfqNumber, d.number, AveragedTotals(d));
      assert ApplyAll(s, ws[..m], {}) == UpsertDrawingTotals(t, r.rfqNumber, d.number, AveragedTotals(d));
      forall j | 0 <= j < m - 1
        ensures HoldsTotals(ApplyAll(s, ws[..m], {}), r.rfqNumber, r.drawings[j].number, AveragedTotals(r.drawings[j]))
      {
        UpsertKeepsOtherDrawings(t, r.rfqNumber, d.number, AveragedTotals(d), r.drawings[j].number, AveragedTotals(r.drawings[j]));
      }
    }
  }

  /** With no failure, submit leaves the first QuotationList row of the serial
      in WorkingDone with the record's revision and totals, puts the first
      RFQList row in WorkingDone, and marks the record locally. When the
      record's drawing numbers are distinct, each drawing's first
      DrawingList row holds its averaged totals. */
  lemma SubmitCompletes(s: Store, records: seq<Record>, r: Record)
    ensures var out := Submit(s, records, r, {});
      out.records == MarkWorkingDone(records, r.id)
      && FirstQuotation(out.store, r.serial).Some?
      && out.store.quotations[FirstQuotation(out.store, r.serial).value].status == WorkingDone
      && out.store.quotations[FirstQuotation(out.store, r.serial).value].revision == r.revision
      && out.store.quotations[FirstQuotation(out.store, r.serial).value].totalAmount == r.totalAmount
      && (FirstRfq(out.store, r.serial).Some? ==> out.store.rfqs[FirstRfq(out.store, r.serial).value].status == WorkingDone)
    ensures DistinctNumbers(r.drawings) ==>
      forall j :: 0 <= j < |r.drawings| ==>
        HoldsTotals(Submit(s, records, r, {}).store, r.rfqNumber, r.drawings[j].number, AveragedTotals(r.drawings[j]))
  {
    SubmitRunsAll(s, r);
    QuotationThenRfq(ApplyAll(s, SubmitWrites(r)[..|r.drawings|], {}), r);
    if DistinctNumbers(r.drawings) {
      SubmitHoldsTotals(s, r);
    }
  }

  /** The drawing part of a completed submit: the quotation and RFQ writes
      after the drawing writes leave DrawingList alone. */
  lemma SubmitHoldsTotals(s: Store, r: Record)
    requires DistinctNumbers(r.drawings)
    ensures forall j :: 0 <= j < |r.drawings| ==>
      HoldsTotals(Run(s, SubmitWrites(r), {}).store, r.rfqNumber, r.drawings[j].number, AveragedTotals(r.drawings[j]))
  {
    SubmitRunsAll(s, r);
    var t := ApplyAll(s, SubmitWrites(r)[..|r.drawings|], {});
    DrawingWritesHold(s, r, |r.drawings|);
    var last := Run(s, SubmitWrites(r), {}).store;
    assert last.drawings == t.drawings;
    forall j | 0 <= j < |r.drawings|
      ensures HoldsTotals(last, r.rfqNumber, r.drawings[j].number, AveragedTotals(r.drawings[j]))
    {
      HoldsTotalsOnDrawings(t, last, r.rfqNumber, r.drawings[j].number, AveragedTotals(r.drawings[j]));
    }
  }

  /** A failure that aborts submit at write k: the writes before it stay in
      the store, nothing after it is written, and the local list is
      unchanged. */
  lemma SubmitAborts(s: Store, records: seq<Record>, r: Record, failing: set<nat>, k: nat)
    requires k < |r.drawings| + 2 && k in failing
    requires forall i :: 0 <= i < k ==> i !in failing
    ensures Submit(s, records, r, failing) == Submitted(ApplyAll(s, SubmitWrites(r)[..k], failing), records)
  {
    RunAborts(s, SubmitWrites(r), failing, k);
  }
}
