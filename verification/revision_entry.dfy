/** The revision screen: re-costing a quotation the customer sent back
    (status Revised). Selecting an RFQ loads the highest revision; editing a
    part field recomputes that drawing's totals (summed policy) and the
    record's totals; saving writes the parts back and appends one
    QuotationRevision row; confirming moves the quotation to WorkingDone. */
module RevisionEntry {
  import opened Common
  import opened Numeric
  import opened Costing
  import opened Records
  import opened Resolver

  /** A quotation as this screen holds it. Each drawing keeps its own stored
      totals. */
  datatype Record = Record(
    id: nat,
    serial: string,
    rfqNumber: string,
    revision: string,
    quotationDate: string,
    revisionDate: string,
    status: Status,
    drawings: seq<Drawing>,
    totalWeight: real,
    totalRate: real,
    totalAmount: real)

  predicate HasSerial(serial: string, r: Record) { r.serial == serial }

  // ---------------------------------------------------------------------------
  // Selecting an RFQ
  // ---------------------------------------------------------------------------

  /** `handleSerialNumberChange`. Nothing happens for an empty selection or
      when the resolver (status Revised) returns null. Otherwise the first
      record with the serial number takes the resolved revision (as text),
      date, status, weight and amount, today's date as revision date and the
      RFQ's drawings; its rate is kept. Without such a record a new one is
      appended, with the resolved rate as well. */
  function Select(records: seq<Record>, serial: string, ql: Option<seq<QuotationRow>>, qr: Option<seq<RevisionRow>>,
                  drawings: seq<Drawing>, today: string): (r: Option<seq<Record>>)
    ensures r.None? <==> serial == "" || Resolve(RevisionScreen, serial, ql, qr).None?
    ensures r.Some? ==>
      var h := Resolve(RevisionScreen, serial, ql, qr).value;
      match FirstIndex(records, (x: Record) => HasSerial(serial, x))
      case Some(k) =>
        |r.value| == |records|
        && (forall j :: 0 <= j < |records| && j != k ==> r.value[j] == records[j])
        && r.value[k] == records[k].(drawings := drawings, revision := FormatInt(h.revision), quotationDate := h.date,
                                     status := h.status, totalWeight := h.totalWeight, totalAmount := h.totalAmount,
                                     revisionDate := today)
      case None =>
        |r.value| == |records| + 1 && r.value[..|records|] == records
        && r.value[|records|] == Record(|records| + 1, serial, serial, FormatInt(h.revision), h.date, today, h.status,
                                        drawings, h.totalWeight, h.totalRate, h.totalAmount)
  {
    if serial == "" then None
    else match Resolve(RevisionScreen, serial, ql, qr)
      case None => None
      case Some(h) =>
        match FirstIndex(records, (x: Record) => HasSerial(serial, x))
        case Some(k) =>
          Some(records[k := records[k].(drawings := drawings, revision := FormatInt(h.revision), quotationDate := h.date,
                                        status := h.status, totalWeight := h.totalWeight, totalAmount := h.totalAmount,
                                        revisionDate := today)])
        case None =>
          Some(records + [Record(|records| + 1, serial, serial, FormatInt(h.revision), h.date, today, h.status,
                                 drawings, h.totalWeight, h.totalRate, h.totalAmount)])
  }

  /** The selected record's revision text reads back as the resolved
      revision number. */
  lemma SelectedRevisionReadsBack(records: seq<Record>, serial: string, ql: Option<seq<QuotationRow>>, qr: Option<seq<RevisionRow>>,
                                  drawings: seq<Drawing>, today: string)
    requires Select(records, serial, ql, qr, drawings, today).Some?
    ensures var rs := Select(records, serial, ql, qr, drawings, today).value;
      exists k :: 0 <= k < |rs| && rs[k].serial == serial
        && Rev(rs[k].revision) == Resolve(RevisionScreen, serial, ql, qr).value.revision
  {
    var h := Resolve(RevisionScreen, serial, ql, qr).value;
    RevOfFormat(h.revision);
    var rs := Select(records, serial, ql, qr, drawings, today).value;
    match FirstIndex(records, (x: Record) => HasSerial(serial, x))
    case Some(k) =>
      assert rs[k].serial == serial && Rev(rs[k].revision) == h.revision;
    case None =>
      assert rs[|records|].serial == serial && Rev(rs[|records|].revision) == h.revision;
  }

  // ---------------------------------------------------------------------------
  // Editing a part
  // ---------------------------------------------------------------------------

  /** The part fields a form input can name. */
  datatype Field = Name | Material | Grade | Weight | Overhead | Rate | Labour | LaserCut | Primer | Quantity

  function Get(p: Part, f: Field): string
  {
    match f
    case Name => p.name
    case Material => p.material
    case Grade => p.grade
    case Weight => p.weight
    case Overhead => p.overhead
    case Rate => p.rate
    case Labour => p.labour
    case LaserCut => p.laserCut
    case Primer => p.primer
    case Quantity => p.quantity
  }

  /** `{ ...part, [name]: value }`: the named field set, every other field
      kept. */
  function SetField(p: Part, f: Field, v: string): (q: Part)
    ensures Get(q, f) == v
    ensures forall g :: g != f ==> Get(q, g) == Get(p, g)
  {
    match f
    case Name => p.(name := v)
    case Material => p.(material := v)
    case Grade => p.(grade := v)
    case Weight => p.(weight := v)
    case Overhead => p.(overhead := v)
    case Rate => p.(rate := v)
    case Labour => p.(labour := v)
    case LaserCut => p.(laserCut := v)
    case Primer => p.(primer := v)
    case Quantity => p.(quantity := v)
  }

  function StoredWeight(d: Drawing): real { d.stored.weight }

  function StoredAmount(d: Drawing): real { d.stored.amount }

  /** `handleChange` on a part field: the part changes, its drawing's stored
      totals are recomputed under the summed policy, and the record's weight
      and amount become the sums of the stored drawing totals. */
  function EditPart(r: Record, di: nat, pi: nat, f: Field, v: string): (e: Record)
    requires di < |r.drawings| && pi < |r.drawings[di].parts|
    ensures e.(drawings := r.drawings, totalWeight := r.totalWeight, totalAmount := r.totalAmount) == r
    ensures |e.drawings| == |r.drawings|
    ensures forall i :: 0 <= i < |r.drawings| && i != di ==> e.drawings[i] == r.drawings[i]
    ensures var d := e.drawings[di];
      d.number == r.drawings[di].number && d.quantity == r.drawings[di].quantity
      && |d.parts| == |r.drawings[di].parts| && d.parts[pi] == SetField(r.drawings[di].parts[pi], f, v)
      && (forall j :: 0 <= j < |d.parts| && j != pi ==> d.parts[j] == r.drawings[di].parts[j])
      && d.stored == SummedTotals(d)
    ensures e.totalWeight == SumOf(e.drawings, StoredWeight) && e.totalAmount == SumOf(e.drawings, StoredAmount)
  {
    var d := r.drawings[di];
    var d1 := d.(parts := d.parts[pi := SetField(d.parts[pi], f, v)]);
    var ds := r.drawings[di := d1.(stored := SummedTotals(d1))];
    r.(drawings := ds, totalWeight := SumOf(ds, StoredWeight), totalAmount := SumOf(ds, StoredAmount))
  }

  /** The record fields the form's header inputs name: the quotation date,
      the revision date and the revision number. */
  datatype HeaderField = QuotationDate | RevisionDate | RevisionNumber

  function Header(r: Record, h: HeaderField): string
  {
    match h
    case QuotationDate => r.quotationDate
    case RevisionDate => r.revisionDate
    case RevisionNumber => r.revision
  }

  /** `handleChange` on a header field: `{ ...record, [name]: value }`, the
      named field set and every other field kept. */
  function EditHeader(r: Record, h: HeaderField, v: string): (e: Record)
    ensures Header(e, h) == v
    ensures forall g :: g != h ==> Header(e, g) == Header(r, g)
    ensures e.(quotationDate := r.quotationDate, revisionDate := r.revisionDate, revision := r.revision) == r
  {
    match h
    case QuotationDate => r.(quotationDate := v)
    case RevisionDate => r.(revisionDate := v)
    case RevisionNumber => r.(revision := v)
  }

  /** Every drawing's stored totals are its summed totals, and the record's
      weight and amount are the sums of the stored totals. */
  predicate Consistent(r: Record)
  {
    (forall i :: 0 <= i < |r.drawings| ==> r.drawings[i].stored == SummedTotals(r.drawings[i]))
    && r.totalWeight == SumOf(r.drawings, StoredWeight)
    && r.totalAmount == SumOf(r.drawings, StoredAmount)
  }

  /** Editing a part keeps a consistent record consistent. */
  lemma EditPartKeepsConsistent(r: Record, di: nat, pi: nat, f: Field, v: string)
    requires di < |r.drawings| && pi < |r.drawings[di].parts|
    requires Consistent(r)
    ensures Consistent(EditPart(r, di, pi, f, v))
  {
  }

  /** In a consistent record the weight and amount are the ones save
      computes from the parts: Σ effective weight and Σ part amount over every
      part. */
  lemma ConsistentTotalsAreSaveTotals(r: Record)
    requires Consistent(r)
    ensures r.totalWeight == SaveTotals(r.drawings).weight
    ensures r.totalAmount == SaveTotals(r.drawings).amount
  {
    SaveTotalsOfDrawings(r.drawings);
    SumOfCongruent(r.drawings, StoredWeight, (d: Drawing) => SummedTotals(d).weight);
    SumOfCongruent(r.drawings, StoredAmount, (d: Drawing) => SummedTotals(d).amount);
  }

  // ---------------------------------------------------------------------------
  // Saving
  // ---------------------------------------------------------------------------

  /** The record with the totals save computes: Σ weight, Σ rate (a sum, not
      a mean) and Σ amount over every part. */
  function WithSaveTotals(r: Record): (s: Record)
    ensures s.(totalWeight := r.totalWeight, totalRate := r.totalRate, totalAmount := r.totalAmount) == r
    ensures s.totalWeight == SumOf(AllParts(r.drawings), EffectiveWeight)
    ensures s.totalRate == SumOf(AllParts(r.drawings), EffectiveRate)
    ensures s.totalAmount == SumOf(AllParts(r.drawings), PartAmount)
  {
    var t := SaveTotals(r.drawings);
    r.(totalWeight := t.weight, totalRate := t.rate, totalAmount := t.amount)
  }

  /** Index of the first PartList row of an RFQ with a given part name. */
  function FirstPartRow(s: Store, rfqNumber: string, name: string): (r: Option<nat>)
    ensures r.Some? ==> r.value < |s.parts| && s.parts[r.value].rfqNumber == rfqNumber && s.parts[r.value].part.name == name
    ensures r.None? <==> forall i :: 0 <= i < |s.parts| ==> !(s.parts[i].rfqNumber == rfqNumber && s.parts[i].part.name == name)
    ensures r.Some? ==> forall i :: 0 <= i < r.value ==> !(s.parts[i].rfqNumber == rfqNumber && s.parts[i].part.name == name)
  {
    FirstIndex(s.parts, (x: PartRow) => x.rfqNumber == rfqNumber && x.part.name == name)
  }

  /** `updatePartDetailsInList`: the first PartList row of the RFQ with the
      part's name takes the part's cost fields; nothing happens without one. */
  function UpdatePartRow(s: Store, rfqNumber: string, p: Part): (t: Store)
    ensures t == s.(parts := t.parts) && |t.parts| == |s.parts|
    ensures forall i :: 0 <= i < |s.parts| ==>
      t.parts[i].id == s.parts[i].id && t.parts[i].rfqNumber == s.parts[i].rfqNumber
      && t.parts[i].drawingNumber == s.parts[i].drawingNumber && t.parts[i].part.name == s.parts[i].part.name
    ensures FirstPartRow(s, rfqNumber, p.name).None? ==> t == s
    ensures forall i :: 0 <= i < |s.parts| && Some(i) != FirstPartRow(s, rfqNumber, p.name) ==> t.parts[i] == s.parts[i]
    ensures FirstPartRow(s, rfqNumber, p.name).Some? ==>
      var q := t.parts[FirstPartRow(s, rfqNumber, p.name).value].part;
      q.material == p.material && q.weight == p.weight && q.overhead == p.overhead && q.rate == p.rate
      && q.labour == p.labour && q.laserCut == p.laserCut && q.primer == p.primer
  {
    match FirstPartRow(s, rfqNumber, p.name)
    case None => s
    case Some(k) =>
      var was := s.parts[k].part;
      var q := was.(material := p.material, weight := p.weight, overhead := p.overhead, rate := p.rate,
                    labour := p.labour, laserCut := p.laserCut, primer := p.primer);
      s.(parts := s.parts[k := s.parts[k].(part := q)])
  }

  /** The number column takes `parseInt(revision)`; NaN leaves it empty. */
  function StoredRevision(text: string): (v: string)
    ensures ParseInt(text).Some? ==> Rev(v) == ParseInt(text).value
    ensures ParseInt(text).None? ==> v == ""
  {
    match ParseInt(text)
    case Some(n) =>
      RevOfFormat(n);
      FormatInt(n)
    case None => ""
  }

  /** The QuotationRevision row save adds: the record's RFQ number, revision
      number, revision date and totals, with Statuss WorkingDone. */
  function AddRevisionRow(s: Store, r: Record): (t: Store)
    ensures t.quotations == s.quotations && t.rfqs == s.rfqs && t.drawings == s.drawings
    ensures t.parts == s.parts && t.pos == s.pos
    ensures |t.revisions| == |s.revisions| + 1 && t.revisions[..|s.revisions|] == s.revisions
    ensures var v := t.revisions[|s.revisions|];
      v.serial == r.rfqNumber && v.statuss == WorkingDone && v.revision == StoredRevision(r.revision)
      && v.revisionDate == r.revisionDate
      && v.totalWeight == r.totalWeight && v.totalRate == r.totalRate && v.totalAmount == r.totalAmount
  {
    s.(revisions := s.revisions + [RevisionRow(s.nextId, r.rfqNumber, StoredRevision(r.revision), r.revisionDate,
                                                r.totalWeight, r.totalRate, r.totalAmount, WorkingDone, "", "")],
       nextId := s.nextId + 1)
  }

  /** The writes of `saveEdit`: one part update per part (each catching its
      own error), then the QuotationRevision add. */
  function SaveWrites(r: Record): (ws: seq<Write>)
    ensures |ws| == |AllParts(r.drawings)| + 1
    ensures forall i :: 0 <= i < |ws| - 1 ==> ws[i].swallows
    ensures !ws[|ws| - 1].swallows
  {
    var s := WithSaveTotals(r);
    Map(AllParts(r.drawings), (p: Part) => Write((t: Store) => UpdatePartRow(t, r.rfqNumber, p), true))
    + [Write((t: Store) => AddRevisionRow(t, s), false)]
  }

  /** The part writes touch only PartList. */
  lemma PartWritesKeepRevisions(r: Record, t: Store, i: nat)
    requires i < |AllParts(r.drawings)|
    ensures SaveWrites(r)[i].apply(t).revisions == t.revisions
  {
    var ps := AllParts(r.drawings);
    assert SaveWrites(r)[i].apply == (u: Store) => UpdatePartRow(u, r.rfqNumber, ps[i]);
  }

  /** The writes of save that fail: those in `failing`, and also the revision
      add when the revision date is empty. The add's arguments are built
      with `new Date(revisionDate).toISOString()`, which throws on the
      Invalid Date that an empty date input gives, after the part updates
      and before the add is sent. */
  function SaveFailing(r: Record, failing: set<nat>): (f: set<nat>)
    ensures r.revisionDate != "" ==> f == failing
    ensures r.revisionDate == "" ==> |AllParts(r.drawings)| in f
    ensures forall i :: i != |AllParts(r.drawings)| ==> (i in f <==> i in failing)
  {
    if r.revisionDate == "" then failing + {|AllParts(r.drawings)|} else failing
  }

  datatype Saved = Saved(store: Store, records: seq<Record>, current: Record)

  /** `saveEdit`. The record being edited takes the save totals whatever
      happens; the local list takes it (by id) only when every write went
      through, which an empty revision date prevents. */
  function Save(s: Store, records: seq<Record>, r: Record, failing: set<nat>): (out: Saved)
    ensures out.current == WithSaveTotals(r)
    ensures |out.records| == |records|
    ensures var o := Run(s, SaveWrites(r), SaveFailing(r, failing));
      out.store == o.store
      && (o.completed ==>
            |out.records| == |records|
            && forall i :: 0 <= i < |records| ==>
                 out.records[i] == if records[i].id == r.id then WithSaveTotals(r) else records[i])
      && (!o.completed ==> out.records == records)
  {
    var c := WithSaveTotals(r);
    var o := Run(s, SaveWrites(r), SaveFailing(r, failing));
    Saved(o.store, if o.completed then MapWhere(records, (x: Record) => x.id == r.id, (x: Record) => c) else records, c)
  }

  /** The part writes of save leave QuotationRevision alone. */
  lemma PartWritesKeep(s: Store, r: Record, failing: set<nat>)
    ensures ApplyAll(s, SaveWrites(r)[..|AllParts(r.drawings)|], failing).revisions == s.revisions
  {
    var ps := SaveWrites(r)[..|AllParts(r.drawings)|];
    forall i, t | 0 <= i < |ps|
      ensures Revisions(ps[i].apply(t)) == Revisions(t)
    {
      PartWritesKeepRevisions(r, t, i);
    }
    ApplyAllKeeps(s, ps, failing, Revisions);
  }

  /** With a revision date and an add the store accepts, every write of save
      that does not fail is made, and the add is the last. */
  lemma SaveRunsAll(s: Store, r: Record, failing: set<nat>)
    requires r.revisionDate != "" && |AllParts(r.drawings)| !in failing
    ensures Run(s, SaveWrites(r), SaveFailing(r, failing))
            == Outcome(AddRevisionRow(ApplyAll(s, SaveWrites(r)[..|AllParts(r.drawings)|], failing), WithSaveTotals(r)), true)
  {
    var ws := SaveWrites(r);
    var n := |AllParts(r.drawings)|;
    RunLast(s, ws, failing);
    assert ws[n].apply == (u: Store) => AddRevisionRow(u, WithSaveTotals(r));
  }

  /** With a revision date and an add the store accepts (part updates may
      fail), save completes: it appends exactly one QuotationRevision row, in
      WorkingDone, with the record's revision number and date and the save
      totals, leaves the existing revision rows untouched, and the local list
      takes the saved record by id. */
  lemma SaveAppendsOneRevision(s: Store, records: seq<Record>, r: Record, failing: set<nat>)
    requires r.revisionDate != "" && |AllParts(r.drawings)| !in failing
    ensures var out := Save(s, records, r, failing);
      |out.records| == |records|
      && (forall i :: 0 <= i < |records| ==>
            out.records[i] == if records[i].id == r.id then WithSaveTotals(r) else records[i])
      && |out.store.revisions| == |s.revisions| + 1 && out.store.revisions[..|s.revisions|] == s.revisions
      && var v := out.store.revisions[|s.revisions|];
         v.statuss == WorkingDone && v.serial == r.rfqNumber && v.revisionDate == r.revisionDate
         && (ParseInt(r.revision).Some? ==> Rev(v.revision) == ParseInt(r.revision).value)
         && v.totalWeight == SaveTotals(r.drawings).weight && v.totalRate == SaveTotals(r.drawings).rate
         && v.totalAmount == SaveTotals(r.drawings).amount
  {
    SaveRunsAll(s, r, failing);
    PartWritesKeep(s, r, failing);
  }

  /** When the revision add fails, or the revision date is empty so that
      building the add throws, save stops there: the part updates stay made,
      but QuotationRevision is unchanged and so is the local list. */
  lemma SaveAddFails(s: Store, records: seq<Record>, r: Record, failing: set<nat>)
    requires |AllParts(r.drawings)| in failing || r.revisionDate == ""
    ensures var out := Save(s, records, r, failing);
      out.store.revisions == s.revisions && out.records == records
  {
    var ws := SaveWrites(r);
    var n := |ws|;
    var fs := SaveFailing(r, failing);
    RunAborts(s, ws, fs, n - 1);
    PartWritesKeep(s, r, fs);
  }

  /** Selecting then saving without editing the revision number: the
      appended row reads back as the revision the resolver returned. */
  lemma SaveKeepsResolvedRevision(n: int)
    ensures Rev(StoredRevision(FormatInt(n))) == n
  {
  }

  // ---------------------------------------------------------------------------
  // Confirming
  // ---------------------------------------------------------------------------

  /** The writes of `confirmSubmit`: each drawing's stored totals on its
      existing DrawingList row (none is added), the first QuotationList row
      and the first RFQList row to WorkingDone, and every QuotationRevision row
      of the RFQ to Statuss WorkingDone. */
  function ConfirmWrites(r: Record): (ws: seq<Write>)
    ensures |ws| == |r.drawings| + 3
    ensures forall i :: 0 <= i < |ws| ==> !ws[i].swallows
  {
    Map(r.drawings, (d: Drawing) => Write((s: Store) => SetDrawingTotals(s, r.rfqNumber, d.number, d.stored), false))
    + [Write((s: Store) => SetFirstQuotationStatus(s, r.rfqNumber, WorkingDone), false),
       Write((s: Store) => SetFirstRfqStatus(s, r.rfqNumber, WorkingDone), false),
       Write((s: Store) => UpdateRevisions(s, r.rfqNumber, (v: RevisionRow) => v.(statuss := WorkingDone)), false)]
  }

  function MarkWorkingDone(records: seq<Record>, id: nat): (rs: seq<Record>)
    ensures |rs| == |records|
    ensures forall i :: 0 <= i < |records| ==>
      rs[i] == if records[i].id == id then records[i].(status := WorkingDone) else records[i]
  {
    MapWhere(records, (x: Record) => x.id == id, (x: Record) => x.(status := WorkingDone))
  }

  datatype Confirmed = Confirmed(store: Store, records: seq<Record>)

  /** `confirmSubmit`; the local list changes only when every write went
      through. */
  function Confirm(s: Store, records: seq<Record>, r: Record, failing: set<nat>): (out: Confirmed)
    ensures var o := Run(s, ConfirmWrites(r), failing);
      out.store == o.store && (o.completed ==> out.records == MarkWorkingDone(records, r.id))
      && (!o.completed ==> out.records == records)
  {
    var o := Run(s, ConfirmWrites(r), failing);
    Confirmed(o.store, if o.completed then MarkWorkingDone(records, r.id) else records)
  }

  /** Confirm never adds or removes a DrawingList row, whatever fails. */
  lemma ConfirmNeverAddsDrawings(s: Store, records: seq<Record>, r: Record, failing: set<nat>)
    ensures |Confirm(s, records, r, failing).store.drawings| == |s.drawings|
  {
    var ws := ConfirmWrites(r);
    forall i, t | 0 <= i < |ws|
      ensures DrawingCount(ws[i].apply(t)) == DrawingCount(t)
    {
      if i < |r.drawings| {
        var d := r.drawings[i];
        assert ws[i].apply == (u: Store) => SetDrawingTotals(u, r.rfqNumber, d.number, d.stored);
      }
    }
    RunKeeps(s, ws, failing, DrawingCount);
  }

  /** The last three writes of confirm, on whatever the drawing writes left. */
  lemma StatusWrites(t: Store, serial: string)
    ensures var last := UpdateRevisions(SetFirstRfqStatus(SetFirstQuotationStatus(t, serial, WorkingDone), serial, WorkingDone),
                                        serial, (v: RevisionRow) => v.(statuss := WorkingDone));
      |last.quotations| == |t.quotations| && |last.rfqs| == |t.rfqs| && |last.revisions| == |t.revisions|
      && (FirstQuotation(t, serial).Some? ==> last.quotations[FirstQuotation(t, serial).value].status == WorkingDone)
      && (FirstRfq(t, serial).Some? ==> last.rfqs[FirstRfq(t, serial).value].status == WorkingDone)
      && forall i :: 0 <= i < |t.revisions| && t.revisions[i].serial == serial ==> last.revisions[i].statuss == WorkingDone
  {
    var a := SetFirstQuotationStatus(t, serial, WorkingDone);
    assert FirstRfq(a, serial) == FirstRfq(t, serial);
  }

  /** With no failure every write of confirm is made, in order. */
  lemma ConfirmRunsAll(s: Store, r: Record)
    ensures Run(s, ConfirmWrites(r), {}) == Outcome(
      UpdateRevisions(SetFirstRfqStatus(SetFirstQuotationStatus(ApplyAll(s, ConfirmWrites(r)[..|r.drawings|], {}),
                                                                r.rfqNumber, WorkingDone), r.rfqNumber, WorkingDone),
                      r.rfqNumber, (v: RevisionRow) => v.(statuss := WorkingDone)),
      true)
  {
    var ws := ConfirmWrites(r);
    var n := |ws|;
    var k := |r.drawings|;
    RunSwallowed(s, ws, {});
    assert ws[k].apply == (u: Store) => SetFirstQuotationStatus(u, r.rfqNumber, WorkingDone);
    assert ws[k + 1].apply == (u: Store) => SetFirstRfqStatus(u, r.rfqNumber, WorkingDone);
    assert ws[k + 2].apply == (u: Store) => UpdateRevisions(u, r.rfqNumber, (v: RevisionRow) => v.(statuss := WorkingDone));
    var t0 := ApplyAll(s, ws[..k], {});
    assert ws[..k + 1][..k] == ws[..k];
    var t1 := ApplyAll(s, ws[..k + 1], {});
    assert t1 == SetFirstQuotationStatus(t0, r.rfqNumber, WorkingDone);
    assert ws[..k + 2][..k + 1] == ws[..k + 1];
    var t2 := ApplyAll(s, ws[..k + 2], {});
    assert t2 == SetFirstRfqStatus(t1, r.rfqNumber, WorkingDone);
    assert ws[..k + 2] == ws[..n - 1];
  }

  /** The drawing writes of confirm touch only DrawingList. */
  lemma DrawingWritesKeepLists(s: Store, r: Record)
    ensures var t := ApplyAll(s, ConfirmWrites(r)[..|r.drawings|], {});
      t.quotations == s.quotations && t.rfqs == s.rfqs && t.revisions == s.revisions
  {
    var ws := ConfirmWrites(r)[..|r.drawings|];
    forall i, t | 0 <= i < |ws|
      ensures Quotations(ws[i].apply(t)) == Quotations(t)
      ensures Rfqs(ws[i].apply(t)) == Rfqs(t)
      ensures Revisions(ws[i].apply(t)) == Revisions(t)
    {
      var d := r.drawings[i];
      assert ws[i].apply == (u: Store) => SetDrawingTotals(u, r.rfqNumber, d.number, d.stored);
    }
    ApplyAllKeeps(s, ws, {}, Quotations);
    ApplyAllKeeps(s, ws, {}, Rfqs);
    ApplyAllKeeps(s, ws, {}, Revisions);
  }

  /** With no failure, confirm puts the first QuotationList row, the first
      RFQList row and every QuotationRevision row of the RFQ in WorkingDone
      and marks the record locally. */
  lemma ConfirmCompletes(s: Store, records: seq<Record>, r: Record)
    ensures var out := Confirm(s, records, r, {});
      out.records == MarkWorkingDone(records, r.id)
      && |out.store.quotations| == |s.quotations| && |out.store.rfqs| == |s.rfqs| && |out.store.revisions| == |s.revisions|
      && (FirstQuotation(s, r.rfqNumber).Some? ==> out.store.quotations[FirstQuotation(s, r.rfqNumber).value].status == WorkingDone)
      && (FirstRfq(s, r.rfqNumber).Some? ==> out.store.rfqs[FirstRfq(s, r.rfqNumber).value].status == WorkingDone)
      && forall i :: 0 <= i < |s.revisions| && s.revisions[i].serial == r.rfqNumber ==> out.store.revisions[i].statuss == WorkingDone
  {
    ConfirmRunsAll(s, r);
    DrawingWritesKeepLists(s, r);
    var t := ApplyAll(s, ConfirmWrites(r)[..|r.drawings|], {});
    assert FirstQuotation(t, r.rfqNumber) == FirstQuotation(s, r.rfqNumber);
    assert FirstRfq(t, r.rfqNumber) == FirstRfq(s, r.rfqNumber);
    StatusWrites(t, r.rfqNumber);
  }

  // ---------------------------------------------------------------------------
  // The edit form and the list
  // ---------------------------------------------------------------------------

  /** The listed records with the edit form open on `current`, copied from
      the listed record at `from`. `handleEdit` copies the record with
      `{ ...record }`: its fields are copied but its drawing array is not, so
      the form and the listed record share their drawings and parts, and a
      part edit writes into both. */
  datatype Session = Session(records: seq<Record>, current: Record, from: nat)

  /** The form's record and the listed one it came from share their drawings
      (and, since neither edits them, their id and RFQ number). */
  predicate Shares(e: Session)
  {
    e.from < |e.records| && e.records[e.from].drawings == e.current.drawings
    && e.records[e.from].id == e.current.id && e.records[e.from].rfqNumber == e.current.rfqNumber
  }

  /** `handleEdit` on the listed record at k: the form opens on a copy that
      shares the record's drawings. */
  function OpenEdit(records: seq<Record>, k: nat): (e: Session)
    requires k < |records|
    ensures Shares(e) && e.records == records && e.from == k
    ensures e.current == records[k]
  {
    Session(records, records[k], k)
  }

  /** `handleChange` on a part field. The form's record changes as EditPart
      says. Since the drawing array is shared, the listed record it came from
      shows the same parts and drawing totals at once; its own weight and
      amount, fields of the list's object, stay as they were. No other listed
      record changes. */
  function EditShared(e: Session, di: nat, pi: nat, f: Field, v: string): (n: Session)
    requires e.from < |e.records|
    requires di < |e.current.drawings| && pi < |e.current.drawings[di].parts|
    ensures n.from == e.from && n.current == EditPart(e.current, di, pi, f, v)
    ensures |n.records| == |e.records|
    ensures forall i :: 0 <= i < |e.records| && i != e.from ==> n.records[i] == e.records[i]
    ensures n.records[e.from] == e.records[e.from].(drawings := n.current.drawings)
    ensures Shares(e) ==> Shares(n)
  {
    var c := EditPart(e.current, di, pi, f, v);
    Session(e.records[e.from := e.records[e.from].(drawings := c.drawings)], c, e.from)
  }

  /** `handleChange` on a header field builds a fresh object: the list does
      not see it, and the drawings stay shared. */
  function EditHeaderShared(e: Session, h: HeaderField, v: string): (n: Session)
    ensures n.records == e.records && n.from == e.from
    ensures Header(n.current, h) == v
    ensures n.current.drawings == e.current.drawings
    ensures Shares(e) ==> Shares(n)
  {
    e.(current := EditHeader(e.current, h, v))
  }

  /** `cancelEdit`: the form closes and the list stays as it is. */
  function CancelEdit(e: Session): seq<Record>
  {
    e.records
  }

  /** Cancelling after a part edit does not undo it: the listed record keeps
      the edited part and the recomputed drawing totals (its own weight and
      amount are the old ones), so an edit that changed the field leaves the
      list different from the one the form was opened on. */
  lemma CancelKeepsEdit(records: seq<Record>, k: nat, di: nat, pi: nat, f: Field, v: string)
    requires k < |records|
    requires di < |records[k].drawings| && pi < |records[k].drawings[di].parts|
    ensures var listed := CancelEdit(EditShared(OpenEdit(records, k), di, pi, f, v))[k];
      listed.drawings[di].parts[pi] == SetField(records[k].drawings[di].parts[pi], f, v)
      && listed.drawings[di].stored == SummedTotals(listed.drawings[di])
      && listed.totalWeight == records[k].totalWeight && listed.totalAmount == records[k].totalAmount
    ensures Get(records[k].drawings[di].parts[pi], f) != v ==>
      CancelEdit(EditShared(OpenEdit(records, k), di, pi, f, v)) != records
  {
    var listed := CancelEdit(EditShared(OpenEdit(records, k), di, pi, f, v))[k];
    if Get(records[k].drawings[di].parts[pi], f) != v {
      assert Get(listed.drawings[di].parts[pi], f) == v;
      assert listed != records[k];
    }
  }

  /** `saveEdit` from the form keeps the sharing whatever happens: when every
      write goes through, the listed record takes the saved record, drawings
      included; when one fails, the list is left as the edits made it. */
  lemma SaveKeepsSharing(s: Store, e: Session, failing: set<nat>)
    requires Shares(e)
    ensures var out := Save(s, e.records, e.current, failing);
      Shares(Session(out.records, out.current, e.from))
  {
    var out := Save(s, e.records, e.current, failing);
    assert out.records[e.from].drawings == e.current.drawings;
  }

  /** A part edit followed by a failed save (a refused add or an empty
      revision date): the list still shows the edited
      part and its drawing's recomputed totals. */
  lemma FailedSaveKeepsEdit(s: Store, e: Session, di: nat, pi: nat, f: Field, v: string, failing: set<nat>)
    requires Shares(e)
    requires di < |e.current.drawings| && pi < |e.current.drawings[di].parts|
    requires |AllParts(EditShared(e, di, pi, f, v).current.drawings)| in failing || e.current.revisionDate == ""
    ensures var n := EditShared(e, di, pi, f, v);
      var listed := Save(s, n.records, n.current, failing).records[e.from];
      listed.drawings[di].parts[pi] == SetField(e.current.drawings[di].parts[pi], f, v)
      && listed.drawings[di].stored == SummedTotals(listed.drawings[di])
  {
    var n := EditShared(e, di, pi, f, v);
    SaveAddFails(s, n.records, n.current, failing);
  }

  /** Confirming the listed record writes, for each drawing, the totals the
      shared drawing holds. So a part edit that was cancelled, or whose save
      failed, still reaches DrawingList as the summed totals of the edited
      parts. */
  lemma ConfirmWritesSharedTotals(e: Session, di: nat, pi: nat, f: Field, v: string, t: Store)
    requires Shares(e)
    requires di < |e.current.drawings| && pi < |e.current.drawings[di].parts|
    ensures var n := EditShared(e, di, pi, f, v);
      var d := n.current.drawings[di];
      d.parts[pi] == SetField(e.current.drawings[di].parts[pi], f, v)
      && ConfirmWrites(n.records[e.from])[di].apply(t) == SetDrawingTotals(t, e.current.rfqNumber, d.number, SummedTotals(d))
  {
    var n := EditShared(e, di, pi, f, v);
    var r := n.records[e.from];
    var d := r.drawings[di];
    assert ConfirmWrites(r)[di].apply == (u: Store) => SetDrawingTotals(u, r.rfqNumber, d.number, d.stored);
  }
}
