/** The purchase-order screen: it offers the serial numbers of won
    quotations, shows the selected quotation's totals with its PO details,
    and saves a PO as an upsert on POList keyed by serial number. */
module PoEntry {
  import opened Common
  import opened Records

  /** Shown for a PO field that has no value yet. */
  const NotSet: string := "N/A"

  /** The serial numbers offered: those of the QuotationList rows in Won, in
      list order (a serial number with two such rows appears twice). */
  function WonSerials(s: Store): (r: seq<string>)
    ensures |r| <= |s.quotations|
  {
    Map(Filter(s.quotations, (q: QuotationRow) => q.status == Won), (q: QuotationRow) => q.serial)
  }

  /** A serial number is offered exactly when one of its rows is Won. */
  lemma WonSerialsMembers(s: Store, serial: string)
    ensures serial in WonSerials(s) <==>
      exists i :: 0 <= i < |s.quotations| && s.quotations[i].serial == serial && s.quotations[i].status == Won
  {
    MapFilterMembers(s.quotations, (q: QuotationRow) => q.status == Won, (q: QuotationRow) => q.serial, serial);
  }

  /** The record the screen shows. */
  datatype PoRecord = PoRecord(
    serial: string,
    rfqNumber: string,
    totalRate: real,
    totalWeight: real,
    totalAmount: real,
    poNumber: string,
    poDate: string,
    rateByCustomer: string)

  /** A record spread from nothing: the fields a PO save leaves unset. */
  const Blank: PoRecord := PoRecord("", "", 0.0, 0.0, 0.0, "", "", "")

  /** The PO form. */
  datatype PoForm = PoForm(poNumber: string, poDate: string, rateByCustomer: string)

  const EmptyPoForm: PoForm := PoForm("", "", "")

  datatype PoScreen = PoScreen(selected: string, details: Option<PoRecord>, form: PoForm, formOpen: bool)

  /** Index of the first POList row of a serial number. */
  function FirstPo(s: Store, serial: string): (r: Option<nat>)
    ensures r.Some? ==> r.value < |s.pos| && s.pos[r.value].serial == serial
    ensures r.None? <==> forall i :: 0 <= i < |s.pos| ==> s.pos[i].serial != serial
    ensures r.Some? ==> forall i :: 0 <= i < r.value ==> s.pos[i].serial != serial
  {
    FirstIndex(s.pos, (p: PoRow) => p.serial == serial)
  }

  /** `handleSerialNumberChange`. An empty selection clears the record. When
      the lists cannot be read the screen is left as it was. Otherwise the
      record is the first QuotationList row of the serial number with the
      PO fields of its first POList row, each "N/A" when missing or empty; with
      no QuotationList row there is no record. */
  function Select(s: Store, sc: PoScreen, serial: string, readable: bool): (r: PoScreen)
    ensures serial == "" ==> r == sc.(details := None, selected := "")
    ensures serial != "" && !readable ==> r == sc
    ensures serial != "" && readable ==> r.selected == serial && r.form == sc.form && r.formOpen == sc.formOpen
    ensures serial != "" && readable ==> (r.details.Some? <==> FirstQuotation(s, serial).Some?)
    ensures serial != "" && readable && r.details.Some? ==>
      var q := s.quotations[FirstQuotation(s, serial).value];
      var d := r.details.value;
      d.serial == serial && d.rfqNumber == q.serial
      && d.totalRate == q.totalRate && d.totalWeight == q.totalWeight && d.totalAmount == q.totalAmount
      && d.poNumber != "" && d.poDate != "" && d.rateByCustomer != ""
      && (FirstPo(s, serial).None? ==> d.poNumber == NotSet && d.poDate == NotSet && d.rateByCustomer == NotSet)
      && (FirstPo(s, serial).Some? ==>
            var p := s.pos[FirstPo(s, serial).value];
            d.poNumber == OrElse(p.poNumber, NotSet) && d.poDate == OrElse(p.poDate, NotSet)
            && d.rateByCustomer == OrElse(p.rateByCustomer, NotSet))
  {
    if serial == "" then sc.(details := None, selected := "")
    else if !readable then sc
    else match FirstQuotation(s, serial)
      case None => sc.(details := None, selected := serial)
      case Some(i) =>
        var q := s.quotations[i];
        var po := FirstPo(s, serial);
        var number := if po.Some? then OrElse(s.pos[po.value].poNumber, NotSet) else NotSet;
        var date := if po.Some? then OrElse(s.pos[po.value].poDate, NotSet) else NotSet;
        var rate := if po.Some? then OrElse(s.pos[po.value].rateByCustomer, NotSet) else NotSet;
        sc.(details := Some(PoRecord(serial, q.serial, q.totalRate, q.totalWeight, q.totalAmount, number, date, rate)),
            selected := serial)
  }

  predicate PoFormComplete(f: PoForm)
  {
    f.poNumber != "" && f.poDate != "" && f.rateByCustomer != ""
  }

  /** The POList write of a save: update the first row of the serial number,
      or add one. */
  function PutPo(s: Store, serial: string, f: PoForm): (t: Store)
    ensures t == s.(pos := t.pos, nextId := t.nextId)
    ensures FirstPo(s, serial).Some? ==> |t.pos| == |s.pos|
    ensures FirstPo(s, serial).None? ==> |t.pos| == |s.pos| + 1
    ensures forall i :: 0 <= i < |s.pos| && Some(i) != FirstPo(s, serial) ==> t.pos[i] == s.pos[i]
    ensures FirstPo(t, serial).Some?
    ensures var p := t.pos[FirstPo(t, serial).value];
      p.poNumber == f.poNumber && p.poDate == f.poDate && p.rateByCustomer == f.rateByCustomer
  {
    match FirstPo(s, serial)
    case Some(k) =>
      var t := s.(pos := s.pos[k := s.pos[k].(poNumber := f.poNumber, poDate := f.poDate, rateByCustomer := f.rateByCustomer)]);
      assert FirstPo(t, serial) == Some(k) by {
        assert t.pos[k].serial == serial;
        assert forall i :: 0 <= i < k ==> t.pos[i] == s.pos[i];
      }
      t
    case None =>
      var t := s.(pos := s.pos + [PoRow(s.nextId, serial, f.poNumber, f.poDate, f.rateByCustomer)], nextId := s.nextId + 1);
      assert forall i :: 0 <= i < |s.pos| ==> t.pos[i] == s.pos[i];
      assert FirstPo(t, serial) == Some(|s.pos|) by {
        assert t.pos[|s.pos|].serial == serial;
        assert FirstPo(t, serial).Some?;
      }
      t
  }

  /** `savePO`. With a field missing nothing happens. When the read or the
      write fails the store and screen stay as they were. Otherwise the PO is
      upserted, the record's PO fields take the form's values (a record that
      was not there is spread from nothing), and the form is closed and
      cleared. */
  function SavePo(s: Store, sc: PoScreen, fails: bool): (r: (Store, PoScreen))
    ensures !PoFormComplete(sc.form) || fails ==> r == (s, sc)
    ensures PoFormComplete(sc.form) && !fails ==>
      r.1.selected == sc.selected && r.1.form == EmptyPoForm && !r.1.formOpen && r.1.details.Some?
      && r.1.details.value == sc.details.GetOr(Blank).(poNumber := sc.form.poNumber, poDate := sc.form.poDate,
                                                       rateByCustomer := sc.form.rateByCustomer)
  {
    if !PoFormComplete(sc.form) || fails then (s, sc)
    else
      var d := sc.details.GetOr(Blank);
      (PutPo(s, sc.selected, sc.form),
       PoScreen(sc.selected,
                Some(d.(poNumber := sc.form.poNumber, poDate := sc.form.poDate, rateByCustomer := sc.form.rateByCustomer)),
                EmptyPoForm, false))
  }

  /** A save adds at most one POList row and touches no other list. */
  lemma SaveAddsAtMostOne(s: Store, sc: PoScreen, fails: bool)
    ensures var t := SavePo(s, sc, fails).0;
      |s.pos| <= |t.pos| <= |s.pos| + 1
      && t.quotations == s.quotations && t.revisions == s.revisions && t.rfqs == s.rfqs
      && t.drawings == s.drawings && t.parts == s.parts
  {
  }

  /** What a save writes is what selecting the serial number again shows,
      provided its quotation row is there. */
  lemma SaveThenSelectShowsPo(s: Store, sc: PoScreen)
    requires PoFormComplete(sc.form) && sc.selected != "" && FirstQuotation(s, sc.selected).Some?
    ensures var (t, after) := SavePo(s, sc, false);
      var shown := Select(t, after, sc.selected, true).details;
      shown.Some?
      && shown.value.poNumber == sc.form.poNumber && shown.value.poDate == sc.form.poDate
      && shown.value.rateByCustomer == sc.form.rateByCustomer
  {
    var t := SavePo(s, sc, false).0;
    assert t.quotations == s.quotations;
  }

  /** Saving the same PO twice leaves POList as saving it once. */
  lemma SaveIdempotent(s: Store, sc: PoScreen)
    requires PoFormComplete(sc.form)
    ensures var (t, _) := SavePo(s, sc, false);
      PutPo(t, sc.selected, sc.form) == t
  {
    var t := SavePo(s, sc, false).0;
    var k := FirstPo(t, sc.selected).value;
    var u := PutPo(t, sc.selected, sc.form);
    assert t.pos[k := t.pos[k].(poNumber := sc.form.poNumber, poDate := sc.form.poDate, rateByCustomer := sc.form.rateByCustomer)] == t.pos;
  }
}
