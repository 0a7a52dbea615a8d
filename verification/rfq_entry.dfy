/** The RFQ screen: entering an RFQ, its drawings and their parts, listing the
    RFQs with their drawing counts and contact persons, editing an RFQ and
    deleting one together with its drawings and parts.

    The add helpers for RFQs, drawings and parts catch their own failures (an
    alert is all that happens), so the screen clears its form and updates its
    local lists whether or not the row was written. Editing and deleting do
    not catch inside: a failure leaves the screen's list as it was. */
module RfqEntry {
  import opened Common
  import opened Costing
  import opened Records
  import QuotationEntry

  /** Shown for a contact person that is not known. */
  const Unknown: string := "N/A"

  // ---------------------------------------------------------------------------
  // Listing
  // ---------------------------------------------------------------------------

  /** An RFQ as the screen lists it. */
  datatype RfqItem = RfqItem(
    id: nat,
    rfqNumber: string,
    customer: string,
    project: string,
    subject: string,
    date: string,
    totalDrawings: nat,
    contactPerson: string)

  /** The customer-to-contact map built from the CustomerList rows (name,
      contact person): a missing contact person is "N/A", and a later row for
      the same name replaces an earlier one. */
  function ContactMap(customers: seq<(string, string)>): (m: map<string, string>)
    ensures forall name :: name in m <==> exists i :: 0 <= i < |customers| && customers[i].0 == name
    ensures forall name :: name in m ==> m[name] != ""
    decreases |customers|
  {
    if |customers| == 0 then map[]
    else
      var m := ContactMap(customers[..|customers| - 1]);
      var last := customers[|customers| - 1];
      m[last.0 := OrElse(last.1, Unknown)]
  }

  /** The contact person a customer maps to is the one on its last row. */
  lemma {:induction false} ContactMapLastWins(customers: seq<(string, string)>, j: nat)
    requires j < |customers|
    requires forall i :: j < i < |customers| ==> customers[i].0 != customers[j].0
    ensures customers[j].0 in ContactMap(customers)
    ensures ContactMap(customers)[customers[j].0] == OrElse(customers[j].1, Unknown)
    decreases |customers|
  {
    if j < |customers| - 1 {
      ContactMapLastWins(customers[..|customers| - 1], j);
    }
  }

  /** The contact person shown for a customer name: "N/A" when unknown. */
  function ContactFor(m: map<string, string>, customer: string): (c: string)
    ensures c != ""
    ensures customer !in m ==> c == Unknown
    ensures customer in m && m[customer] != "" ==> c == m[customer]
  {
    if customer in m then OrElse(m[customer], Unknown) else Unknown
  }

  predicate OfRfq(rfqNumber: string, d: DrawingRow)
  {
    d.rfqNumber == rfqNumber
  }

  /** `getTotalDrawingsForRfq`: the number of DrawingList rows of the RFQ; 0
      when they cannot be read. */
  function DrawingTotal(s: Store, rfqNumber: string, readable: bool): (n: nat)
    ensures n <= |s.drawings|
    ensures readable ==> n == |Filter(s.drawings, (d: DrawingRow) => OfRfq(rfqNumber, d))|
    ensures !readable ==> n == 0
    ensures (forall i :: 0 <= i < |s.drawings| ==> !OfRfq(rfqNumber, s.drawings[i])) ==> n == 0
  {
    if readable then CountOf(s.drawings, rfqNumber) else 0
  }

  /** The number of rows of the RFQ: the length of the filtered list. */
  function CountOf(ds: seq<DrawingRow>, rfqNumber: string): (n: nat)
    ensures n == |Filter(ds, (d: DrawingRow) => OfRfq(rfqNumber, d))|
    ensures n <= |ds|
    ensures (forall i :: 0 <= i < |ds| ==> !OfRfq(rfqNumber, ds[i])) ==> n == 0
    decreases |ds|
  {
    if |ds| == 0 then 0
    else
      var init := ds[..|ds| - 1];
      assert ds == init + [ds[|ds| - 1]];
      FilterSnoc(init, ds[|ds| - 1], (d: DrawingRow) => OfRfq(rfqNumber, d));
      CountOf(init, rfqNumber) + (if OfRfq(rfqNumber, ds[|ds| - 1]) then 1 else 0)
  }

  /** `loadRfqFromSharePoint` for one RFQList row: the row's fields copied,
      today's date for a row without one, the drawing count, and the
      customer's contact person. */
  function LoadItem(s: Store, row: RfqRow, contacts: map<string, string>, readable: bool, today: string): (it: RfqItem)
    ensures it.id == row.id && it.rfqNumber == row.rfqNumber && it.customer == row.customer
    ensures it.project == row.project && it.subject == row.subject
    ensures row.date != "" ==> it.date == row.date
    ensures row.date == "" ==> it.date == today
    ensures it.contactPerson == ContactFor(contacts, row.customer) && it.contactPerson != ""
    ensures it.totalDrawings == DrawingTotal(s, row.rfqNumber, readable)
  {
    RfqItem(row.id, row.rfqNumber, row.customer, row.project, row.subject, OrElse(row.date, today),
            DrawingTotal(s, row.rfqNumber, readable), ContactFor(contacts, row.customer))
  }

  // ---------------------------------------------------------------------------
  // Adding an RFQ
  // ---------------------------------------------------------------------------

  /** The RFQ form; an empty date stands for no date picked. */
  datatype RfqForm = RfqForm(rfqNumber: string, customer: string, project: string, subject: string, date: string)

  const EmptyRfqForm: RfqForm := RfqForm("", "", "", "", "")

  /** Everything but the subject is required. */
  predicate RfqFormComplete(f: RfqForm)
  {
    f.rfqNumber != "" && f.customer != "" && f.project != "" && f.date != ""
  }

  /** A part as entered for the drawing being built. */
  datatype EnteredPart = EnteredPart(name: string, material: string, quantity: string)

  /** A drawing added on the screen, with the parts entered before it. */
  datatype EnteredDrawing = EnteredDrawing(quantity: string, number: string, parts: seq<EnteredPart>)

  /** The screen's entry state: the RFQ form, the drawing and part inputs, and
      the lists of added drawings and of parts entered since the last drawing.
      There is one RFQ number on the screen, the form's: adding a drawing or a
      part writes it too. */
  datatype Entry = Entry(
    form: RfqForm,
    drawingNumber: string,
    drawingQuantity: string,
    partName: string,
    material: string,
    quantity: string,
    drawings: seq<EnteredDrawing>,
    current: seq<EnteredPart>)

  /** Every part entered so far: those of the added drawings, in order, then
      the ones waiting for the next drawing. */
  function AllEntered(ds: seq<EnteredDrawing>): seq<EnteredPart>
    decreases |ds|
  {
    if |ds| == 0 then [] else AllEntered(ds[..|ds| - 1]) + ds[|ds| - 1].parts
  }

  function Entered(e: Entry): seq<EnteredPart>
  {
    AllEntered(e.drawings) + e.current
  }

  /** `addRfq`. With a required field missing nothing happens. Otherwise one
      RFQList row is added (unless the add fails) and the form is cleared in
      either case, its RFQ number included; the drawing and part inputs stay
      as they were. The new row has no status yet. */
  function AddRfq(s: Store, e: Entry, fails: bool): (r: (Store, Entry))
    ensures !RfqFormComplete(e.form) ==> r == (s, e)
    ensures RfqFormComplete(e.form) ==> r.1 == e.(form := EmptyRfqForm)
    ensures RfqFormComplete(e.form) && fails ==> r.0 == s
    ensures RfqFormComplete(e.form) && !fails ==>
      r.0.quotations == s.quotations && r.0.revisions == s.revisions && r.0.drawings == s.drawings
      && r.0.parts == s.parts && r.0.pos == s.pos
      && |r.0.rfqs| == |s.rfqs| + 1 && r.0.rfqs[..|s.rfqs|] == s.rfqs
      && var f := e.form; var row := r.0.rfqs[|s.rfqs|];
         row.rfqNumber == f.rfqNumber && row.customer == f.customer && row.project == f.project
         && row.subject == f.subject && row.date == f.date && row.status == Unset
  {
    var f := e.form;
    if !RfqFormComplete(f) then (s, e)
    else if fails then (s, e.(form := EmptyRfqForm))
    else
      (s.(rfqs := s.rfqs + [RfqRow(s.nextId, f.rfqNumber, f.customer, f.project, f.subject, f.date, Unset)],
          nextId := s.nextId + 1),
       e.(form := EmptyRfqForm))
  }

  /** Once an RFQ is added, the quotation screen can select it. */
  lemma AddedRfqCanBeQuoted(s: Store, e: Entry, records: seq<QuotationEntry.Record>, drawings: seq<Drawing>)
    requires RfqFormComplete(e.form)
    ensures QuotationEntry.Select(records, e.form.rfqNumber, AddRfq(s, e, false).0, drawings, true).Some?
  {
    var t := AddRfq(s, e, false).0;
    assert t.rfqs[|s.rfqs|].rfqNumber == e.form.rfqNumber;
  }

  /** `addDrawing`. A drawing needs a quantity and a number. The new drawing
      takes the parts entered since the last one, which are then cleared; the
      DrawingList row is added unless the add fails. The drawing inputs are
      kept. */
  function AddDrawing(s: Store, e: Entry, fails: bool): (r: (Store, Entry))
    ensures e.drawingQuantity == "" || e.drawingNumber == "" ==> r == (s, e)
    ensures e.drawingQuantity != "" && e.drawingNumber != "" ==>
      r.1 == e.(drawings := e.drawings + [EnteredDrawing(e.drawingQuantity, e.drawingNumber, e.current)], current := [])
    ensures e.drawingQuantity != "" && e.drawingNumber != "" && !fails ==>
      r.0 == s.(drawings := r.0.drawings, nextId := r.0.nextId)
      && |r.0.drawings| == |s.drawings| + 1 && r.0.drawings[..|s.drawings|] == s.drawings
      && r.0.drawings[|s.drawings|].rfqNumber == e.form.rfqNumber
      && r.0.drawings[|s.drawings|].drawingNumber == e.drawingNumber
      && r.0.drawings[|s.drawings|].quantity == e.drawingQuantity
    ensures fails ==> r.0 == s
  {
    if e.drawingQuantity == "" || e.drawingNumber == "" then (s, e)
    else
      var e' := e.(drawings := e.drawings + [EnteredDrawing(e.drawingQuantity, e.drawingNumber, e.current)], current := []);
      if fails then (s, e')
      else
        (s.(drawings := s.drawings + [DrawingRow(s.nextId, e.form.rfqNumber, e.drawingNumber, e.drawingQuantity, Totals(0.0, 0.0, 0.0))],
            nextId := s.nextId + 1),
         e')
  }

  /** `addPart`. A part needs a material, a name, a quantity and a drawing
      number. It joins the parts waiting for the next drawing and the part
      inputs are cleared; the PartList row is added unless the add fails. */
  function AddPart(s: Store, e: Entry, fails: bool): (r: (Store, Entry))
    ensures e.material == "" || e.partName == "" || e.quantity == "" || e.drawingNumber == "" ==> r == (s, e)
    ensures e.material != "" && e.partName != "" && e.quantity != "" && e.drawingNumber != "" ==>
      r.1 == e.(current := e.current + [EnteredPart(e.partName, e.material, e.quantity)],
                partName := "", material := "", quantity := "")
    ensures e.material != "" && e.partName != "" && e.quantity != "" && e.drawingNumber != "" && !fails ==>
      r.0 == s.(parts := r.0.parts, nextId := r.0.nextId)
      && |r.0.parts| == |s.parts| + 1 && r.0.parts[..|s.parts|] == s.parts
      && var row := r.0.parts[|s.parts|];
         row.rfqNumber == e.form.rfqNumber && row.drawingNumber == e.drawingNumber
         && row.part.name == e.partName && row.part.material == e.material && row.part.quantity == e.quantity
    ensures fails ==> r.0 == s
  {
    if e.material == "" || e.partName == "" || e.quantity == "" || e.drawingNumber == "" then (s, e)
    else
      var e' := e.(current := e.current + [EnteredPart(e.partName, e.material, e.quantity)],
                   partName := "", material := "", quantity := "");
      if fails then (s, e')
      else
        (s.(parts := s.parts + [PartRow(s.nextId, e.form.rfqNumber, e.drawingNumber,
                                        Part(e.partName, e.material, "", "", "", "", "", "", "", e.quantity))],
            nextId := s.nextId + 1),
         e')
  }

  /** Adding a drawing neither loses nor repeats an entered part; adding a
      part enters exactly that part. */
  lemma EnteredPartsKept(s: Store, e: Entry, fails: bool)
    ensures Entered(AddDrawing(s, e, fails).1) == Entered(e)
    ensures var r := AddPart(s, e, fails).1;
      Entered(r) == Entered(e) || Entered(r) == Entered(e) + [EnteredPart(e.partName, e.material, e.quantity)]
  {
    var r := AddDrawing(s, e, fails).1;
    if r != e {
      var ds := r.drawings;
      assert ds[..|ds| - 1] == e.drawings;
      assert AllEntered(ds) == AllEntered(e.drawings) + e.current;
    }
  }

  /** A drawing added for an RFQ raises its drawing count by exactly one. */
  lemma AddDrawingCounts(s: Store, e: Entry)
    requires e.drawingQuantity != "" && e.drawingNumber != ""
    ensures DrawingTotal(AddDrawing(s, e, false).0, e.form.rfqNumber, true) == DrawingTotal(s, e.form.rfqNumber, true) + 1
  {
    var t := AddDrawing(s, e, false).0;
    assert t.drawings[..|t.drawings| - 1] == s.drawings;
  }

  /** Submitting the RFQ clears the one RFQ number on the screen, and the
      drawing form stays open beside it: a drawing or part submitted next is
      written with an empty RFQ number, so the RFQ just added does not count
      it and its delete does not find it. */
  lemma EntryAfterRfqIsOrphaned(s: Store, e: Entry, fails: bool)
    requires RfqFormComplete(e.form)
    requires e.drawingQuantity != "" && e.drawingNumber != ""
    requires e.material != "" && e.partName != "" && e.quantity != ""
    ensures var (t, e1) := AddRfq(s, e, fails);
      var u := AddDrawing(t, e1, false).0;
      u.drawings[|t.drawings|].rfqNumber == ""
      && DrawingTotal(u, e.form.rfqNumber, true) == DrawingTotal(t, e.form.rfqNumber, true)
    ensures var (t, e1) := AddRfq(s, e, fails);
      AddPart(t, e1, false).0.parts[|t.parts|].rfqNumber == ""
  {
    var (t, e1) := AddRfq(s, e, fails);
    assert e1.form.rfqNumber == "";
    var u := AddDrawing(t, e1, false).0;
    assert u.drawings == t.drawings + [u.drawings[|t.drawings|]];
    FilterSnoc(t.drawings, u.drawings[|t.drawings|], (d: DrawingRow) => OfRfq(e.form.rfqNumber, d));
  }

  // ---------------------------------------------------------------------------
  // Editing an RFQ
  // ---------------------------------------------------------------------------

  /** The edit dialog's fields. */
  datatype RfqEdit = RfqEdit(customer: string, project: string, date: string)

  /** `saveEditedRfq`. Nothing happens without a selected RFQ or when the
      update fails. Otherwise the RFQList rows with the selected id and the
      listed RFQ with that id take the edited customer, project and date, and
      the subject as the dialog edited it on the selection; no other row or
      item changes. The contact person and
      drawing count shown are not recomputed. */
  function SaveEditedRfq(s: Store, items: seq<RfqItem>, selected: Option<RfqItem>, edit: RfqEdit, fails: bool): (r: (Store, seq<RfqItem>))
    ensures selected.None? || fails ==> r == (s, items)
    ensures selected.Some? && !fails ==>
      var sel := selected.value;
      r.0 == s.(rfqs := r.0.rfqs) && |r.0.rfqs| == |s.rfqs|
      && (forall i :: 0 <= i < |s.rfqs| ==>
            r.0.rfqs[i] == if s.rfqs[i].id == sel.id
                           then s.rfqs[i].(customer := edit.customer, project := edit.project, subject := sel.subject, date := edit.date)
                           else s.rfqs[i])
      && |r.1| == |items|
      && (forall i :: 0 <= i < |items| ==>
            r.1[i] == if items[i].id == sel.id
                      then items[i].(customer := edit.customer, project := edit.project, subject := sel.subject, date := edit.date)
                      else items[i])
  {
    match selected
    case None => (s, items)
    case Some(sel) =>
      if fails then (s, items)
      else
        (s.(rfqs := MapWhere(s.rfqs, (x: RfqRow) => x.id == sel.id,
                             (x: RfqRow) => x.(customer := edit.customer, project := edit.project, subject := sel.subject, date := edit.date))),
         MapWhere(items, (x: RfqItem) => x.id == sel.id,
                  (x: RfqItem) => x.(customer := edit.customer, project := edit.project, subject := sel.subject, date := edit.date)))
  }

  // ---------------------------------------------------------------------------
  // Deleting an RFQ
  // ---------------------------------------------------------------------------

  /** One step of `deleteRfq`: reading a list (which can fail like a write)
      or deleting one row by id. */
  datatype DeleteStep = ReadStep | DropDrawing(drawingId: nat) | DropPart(partId: nat) | DropRfq(rfqId: nat)

  function DrawingId(d: DrawingRow): nat { d.id }

  function PartId(p: PartRow): nat { p.id }

  function RfqId(r: RfqRow): nat { r.id }

  function DrawingDrop(i: nat): DeleteStep { DropDrawing(i) }

  function PartDrop(i: nat): DeleteStep { DropPart(i) }

  function ApplyDelete(t: Store, st: DeleteStep): Store
  {
    match st
    case ReadStep => t
    case DropDrawing(i) => t.(drawings := DropIds(t.drawings, DrawingId, {i}))
    case DropPart(i) => t.(parts := DropIds(t.parts, PartId, {i}))
    case DropRfq(i) => t.(rfqs := DropIds(t.rfqs, RfqId, {i}))
  }

  /** The steps applied in order. */
  function Fold(t: Store, steps: seq<DeleteStep>): Store
    decreases |steps|
  {
    if |steps| == 0 then t else ApplyDelete(Fold(t, steps[..|steps| - 1]), steps[|steps| - 1])
  }

  lemma {:induction false} FoldAppend(t: Store, a: seq<DeleteStep>, b: seq<DeleteStep>)
    ensures Fold(t, a + b) == Fold(Fold(t, a), b)
    decreases |b|
  {
    if |b| == 0 {
      assert a + b == a;
    } else {
      assert (a + b)[..|a + b| - 1] == a + b[..|b| - 1];
      FoldAppend(t, a, b[..|b| - 1]);
    }
  }

  /** Deleting drawings one id at a time drops all of those ids. */
  lemma {:induction false} FoldDrawingDrops(t: Store, ids: seq<nat>)
    ensures Fold(t, Map(ids, DrawingDrop)) == t.(drawings := DropIds(t.drawings, DrawingId, IdSet(ids)))
    decreases |ids|
  {
    var ss := Map(ids, DrawingDrop);
    if |ids| == 0 {
      DropNothing(t.drawings, DrawingId);
      assert IdSet(ids) == {};
    } else {
      var n := |ids| - 1;
      var a := IdSet(ids[..n]);
      var t' := Fold(t, ss[..n]);
      assert t' == t.(drawings := DropIds(t.drawings, DrawingId, a)) by {
        assert ss[..n] == Map(ids[..n], DrawingDrop);
        FoldDrawingDrops(t, ids[..n]);
      }
      assert Fold(t, ss) == t'.(drawings := DropIds(t'.drawings, DrawingId, {ids[n]})) by {
        assert ss[n] == DropDrawing(ids[n]);
      }
      assert DropIds(t'.drawings, DrawingId, {ids[n]}) == DropIds(t.drawings, DrawingId, IdSet(ids)) by {
        DropIdsTwice(t.drawings, DrawingId, a, {ids[n]});
        assert a + {ids[n]} == IdSet(ids);
      }
    }
  }

  /** Deleting parts one id at a time drops all of those ids. */
  lemma {:induction false} FoldPartDrops(t: Store, ids: seq<nat>)
    ensures Fold(t, Map(ids, PartDrop)) == t.(parts := DropIds(t.parts, PartId, IdSet(ids)))
    decreases |ids|
  {
    var ss := Map(ids, PartDrop);
    if |ids| == 0 {
      DropNothing(t.parts, PartId);
      assert IdSet(ids) == {};
    } else {
      var n := |ids| - 1;
      var a := IdSet(ids[..n]);
      var t' := Fold(t, ss[..n]);
      assert t' == t.(parts := DropIds(t.parts, PartId, a)) by {
        assert ss[..n] == Map(ids[..n], PartDrop);
        FoldPartDrops(t, ids[..n]);
      }
      assert Fold(t, ss) == t'.(parts := DropIds(t'.parts, PartId, {ids[n]})) by {
        assert ss[n] == DropPart(ids[n]);
      }
      assert DropIds(t'.parts, PartId, {ids[n]}) == DropIds(t.parts, PartId, IdSet(ids)) by {
        DropIdsTwice(t.parts, PartId, a, {ids[n]});
        assert a + {ids[n]} == IdSet(ids);
      }
    }
  }

  /** The ids of the DrawingList and PartList rows of an RFQ number, as the
      two queries of `deleteRfq` return them. (The PartList query runs after
      the drawings are deleted, which does not change PartList.) */
  function DrawingIdsOf(s: Store, rfqNumber: string): seq<nat>
  {
    Map(Filter(s.drawings, (d: DrawingRow) => d.rfqNumber == rfqNumber), DrawingId)
  }

  function PartIdsOf(s: Store, rfqNumber: string): seq<nat>
  {
    Map(Filter(s.parts, (p: PartRow) => p.rfqNumber == rfqNumber), PartId)
  }

  /** The steps of `deleteRfq`: read the drawings, delete them one by one,
      read the parts, delete them one by one, delete the RFQ row. */
  function DeleteSteps(s: Store, sel: RfqItem): (steps: seq<DeleteStep>)
    ensures |steps| >= 3 && steps[|steps| - 1] == DropRfq(sel.id)
    ensures forall i :: 0 <= i < |steps| - 1 ==> !steps[i].DropRfq?
  {
    var dd := Map(DrawingIdsOf(s, sel.rfqNumber), DrawingDrop);
    var pd := Map(PartIdsOf(s, sel.rfqNumber), PartDrop);
    var steps := [ReadStep] + dd + [ReadStep] + pd + [DropRfq(sel.id)];
    assert forall i :: 0 <= i < |dd| ==> dd[i].DropDrawing?;
    assert forall i :: 0 <= i < |pd| ==> pd[i].DropPart?;
    steps
  }

  function StepWrite(st: DeleteStep): Write
  {
    Write((t: Store) => ApplyDelete(t, st), false)
  }

  lemma {:induction false} ApplyAllSteps(s: Store, steps: seq<DeleteStep>)
    ensures ApplyAll(s, Map(steps, StepWrite), {}) == Fold(s, steps)
    decreases |steps|
  {
    if |steps| > 0 {
      var n := |steps| - 1;
      assert Map(steps, StepWrite)[..n] == Map(steps[..n], StepWrite);
      ApplyAllSteps(s, steps[..n]);
    }
  }

  /** `deleteRfq`: with nothing selected nothing happens; otherwise the steps
      run in order, the first failing one aborts the rest, and only a complete
      run drops the RFQ (by id) from the screen's list. */
  function DeleteRfq(s: Store, items: seq<RfqItem>, selected: Option<RfqItem>, failing: set<nat>): (r: (Store, seq<RfqItem>))
    ensures selected.None? ==> r == (s, items)
  {
    match selected
    case None => (s, items)
    case Some(sel) =>
      var o := Run(s, Map(DeleteSteps(s, sel), StepWrite), failing);
      (o.store, if o.completed then Filter(items, (x: RfqItem) => x.id != sel.id) else items)
  }

  /** The delete steps, applied in order, drop the RFQ's drawings and parts
      by id and then the RFQ row by id. */
  lemma DeleteFold(s: Store, sel: RfqItem)
    ensures Fold(s, DeleteSteps(s, sel))
            == s.(drawings := DropIds(s.drawings, DrawingId, IdSet(DrawingIdsOf(s, sel.rfqNumber))),
                  parts := DropIds(s.parts, PartId, IdSet(PartIdsOf(s, sel.rfqNumber))),
                  rfqs := DropIds(s.rfqs, RfqId, {sel.id}))
  {
    var dIds := DrawingIdsOf(s, sel.rfqNumber);
    var pIds := PartIdsOf(s, sel.rfqNumber);
    var dd := Map(dIds, DrawingDrop);
    var pd := Map(pIds, PartDrop);
    var steps := DeleteSteps(s, sel);
    assert steps == [ReadStep] + dd + [ReadStep] + pd + [DropRfq(sel.id)];
    FoldAppend(s, [ReadStep] + dd + [ReadStep] + pd, [DropRfq(sel.id)]);
    FoldAppend(s, [ReadStep] + dd + [ReadStep], pd);
    FoldAppend(s, [ReadStep] + dd, [ReadStep]);
    FoldAppend(s, [ReadStep], dd);
    assert [ReadStep][..0] == [] && [DropRfq(sel.id)][..0] == [];
    assert Fold(s, [ReadStep]) == s;
    FoldDrawingDrops(s, dIds);
    var t1 := s.(drawings := DropIds(s.drawings, DrawingId, IdSet(dIds)));
    assert Fold(t1, [ReadStep]) == t1;
    FoldPartDrops(t1, pIds);
    var t2 := t1.(parts := DropIds(s.parts, PartId, IdSet(pIds)));
    assert Fold(t2, [DropRfq(sel.id)]) == t2.(rfqs := DropIds(s.rfqs, RfqId, {sel.id}));
  }

  /** Every row of the RFQ number is among the ids the delete queries return. */
  lemma DeleteFindsRows(s: Store, sel: RfqItem)
    ensures forall d :: d in s.drawings && d.rfqNumber == sel.rfqNumber ==> d.id in DrawingIdsOf(s, sel.rfqNumber)
    ensures forall p :: p in s.parts && p.rfqNumber == sel.rfqNumber ==> p.id in PartIdsOf(s, sel.rfqNumber)
  {
    var dIds := DrawingIdsOf(s, sel.rfqNumber);
    var pIds := PartIdsOf(s, sel.rfqNumber);
    var fd := Filter(s.drawings, (d: DrawingRow) => d.rfqNumber == sel.rfqNumber);
    forall d | d in s.drawings && d.rfqNumber == sel.rfqNumber
      ensures d.id in dIds
    {
      var j :| 0 <= j < |s.drawings| && s.drawings[j] == d;
      assert d in fd;
      var k :| 0 <= k < |fd| && fd[k] == d;
      assert dIds[k] == d.id;
    }
    var fp := Filter(s.parts, (p: PartRow) => p.rfqNumber == sel.rfqNumber);
    forall p | p in s.parts && p.rfqNumber == sel.rfqNumber
      ensures p.id in pIds
    {
      var j :| 0 <= j < |s.parts| && s.parts[j] == p;
      assert p in fp;
      var k :| 0 <= k < |fp| && fp[k] == p;
      assert pIds[k] == p.id;
    }
  }

  /** A complete delete removes every DrawingList and PartList row of the RFQ
      number and the RFQList row with the selected id, keeps every other row
      (unless it shares an id with a deleted one), changes no other list, and
      drops exactly the items with that id from the screen's list. */
  lemma DeleteCascades(s: Store, items: seq<RfqItem>, sel: RfqItem)
    ensures var (t, shown) := DeleteRfq(s, items, Some(sel), {});
      t.drawings == DropIds(s.drawings, DrawingId, IdSet(DrawingIdsOf(s, sel.rfqNumber)))
      && t.parts == DropIds(s.parts, PartId, IdSet(PartIdsOf(s, sel.rfqNumber)))
      && t.rfqs == DropIds(s.rfqs, RfqId, {sel.id})
      && t.quotations == s.quotations && t.revisions == s.revisions && t.pos == s.pos
      && (forall d :: d in t.drawings ==> d.rfqNumber != sel.rfqNumber)
      && (forall p :: p in t.parts ==> p.rfqNumber != sel.rfqNumber)
      && (forall x :: x in shown <==> x in items && x.id != sel.id)
  {
    var steps := DeleteSteps(s, sel);
    RunSwallowed(s, Map(steps, StepWrite), {});
    ApplyAllSteps(s, steps);
    DeleteFold(s, sel);
    DeleteFindsRows(s, sel);
    FilterKeeps(items, sel.id);
  }

  lemma FilterKeeps(items: seq<RfqItem>, id: nat)
    ensures forall x :: x in Filter(items, (y: RfqItem) => y.id != id) <==> x in items && x.id != id
  {
    forall x | x in items && x.id != id
      ensures x in Filter(items, (y: RfqItem) => y.id != id)
    {
      var k :| 0 <= k < |items| && items[k] == x;
    }
  }

  /** Only the last step touches RFQList, and no step touches QuotationList,
      QuotationRevision or POList. */
  lemma DeletePrefixKeeps(s: Store, steps: seq<DeleteStep>, failing: set<nat>, k: nat)
    requires k <= |steps|
    requires forall i :: 0 <= i < k ==> !steps[i].DropRfq?
    ensures var t := ApplyAll(s, Map(steps, StepWrite)[..k], failing);
      t.rfqs == s.rfqs && t.quotations == s.quotations && t.revisions == s.revisions && t.pos == s.pos
  {
    var pre := Map(steps, StepWrite)[..k];
    assert forall i :: 0 <= i < |pre| ==> pre[i] == StepWrite(steps[i]);
    ApplyAllKeeps(s, pre, failing, Rfqs);
    ApplyAllKeeps(s, pre, failing, Quotations);
    ApplyAllKeeps(s, pre, failing, Revisions);
    ApplyAllKeeps(s, pre, failing, Pos);
  }

  /** A delete that fails part way keeps the RFQList untouched and the
      screen's list as it was, while the drawings and parts deleted before
      the failure stay deleted. */
  lemma DeleteAbortKeepsRfq(s: Store, items: seq<RfqItem>, sel: RfqItem, failing: set<nat>, k: nat)
    requires k < |DeleteSteps(s, sel)| && k in failing
    requires forall i :: 0 <= i < k ==> i !in failing
    ensures var (t, shown) := DeleteRfq(s, items, Some(sel), failing);
      t.rfqs == s.rfqs && shown == items
      && t.quotations == s.quotations && t.revisions == s.revisions && t.pos == s.pos
  {
    var steps := DeleteSteps(s, sel);
    RunAborts(s, Map(steps, StepWrite), failing, k);
    DeletePrefixKeeps(s, steps, failing, k);
  }
}
