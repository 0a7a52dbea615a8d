/** The status changes of the approve, sent and result screens.

    Each action updates, in this order, every QuotationList row of the
    quotation's RFQ serial number, every QuotationRevision row of it, and
    every RFQList row whose RFQ number is that serial number. Each list is
    read and then updated; a failed read or update aborts the rest of the
    action (nothing here catches its own error), and the screen's local list
    is only updated when all three steps went through.

    The screens also decide which serial numbers they list: the approve
    screen those with a QuotationList row in WorkingDone or a
    QuotationRevision row whose Statuss is WorkingDone; the sent screen those
    with a QuotationList row in Approved; the result screen those with a
    QuotationList row in Waiting. */
module Approval {
  import opened Common
  import opened Records
  import opened Resolver

  /** The text written when no reason was given. */
  const NoReason: string := "No reason provided"

  /** The loss reasons the result screen offers. */
  const LossReasons: set<string> := {"Delivery", "Budget", "Material Specification"}

  // ---------------------------------------------------------------------------
  // The three-step status change
  // ---------------------------------------------------------------------------

  /** The writes of a status change: `fq` on the serial's QuotationList rows,
      `fv` on its QuotationRevision rows, status `st` on its RFQList rows. */
  function StatusWrites(serial: string, fq: QuotationRow -> QuotationRow, fv: RevisionRow -> RevisionRow, st: Status): (ws: seq<Write>)
    ensures |ws| == 3
    ensures forall i :: 0 <= i < |ws| ==> !ws[i].swallows
  {
    [Write((t: Store) => UpdateQuotations(t, serial, fq), false),
     Write((t: Store) => UpdateRevisions(t, serial, fv), false),
     Write((t: Store) => SetAllRfqStatus(t, serial, st), false)]
  }

  /** The store after the first `steps` of the three updates. */
  function Steps(s: Store, serial: string, fq: QuotationRow -> QuotationRow, fv: RevisionRow -> RevisionRow, st: Status, steps: nat): Store
  {
    var t1 := UpdateQuotations(s, serial, fq);
    var t2 := UpdateRevisions(t1, serial, fv);
    if steps == 0 then s
    else if steps == 1 then t1
    else if steps == 2 then t2
    else SetAllRfqStatus(t2, serial, st)
  }

  /** The step at which a status change stops: the first failing step, or 3
      when none fails. */
  function StopAt(failing: set<nat>): (k: nat)
    ensures k <= 3
    ensures forall i :: 0 <= i < k ==> i !in failing
    ensures k < 3 ==> k in failing
  {
    if 0 in failing then 0 else if 1 in failing then 1 else if 2 in failing then 2 else 3
  }

  /** A status change makes exactly the updates before the first failing
      step, and completes exactly when no step fails. */
  lemma StatusRun(s: Store, serial: string, fq: QuotationRow -> QuotationRow, fv: RevisionRow -> RevisionRow, st: Status, failing: set<nat>)
    ensures Run(s, StatusWrites(serial, fq, fv, st), failing)
            == Outcome(Steps(s, serial, fq, fv, st, StopAt(failing)), StopAt(failing) == 3)
  {
    var ws := StatusWrites(serial, fq, fv, st);
    assert ws[0].apply == (t: Store) => UpdateQuotations(t, serial, fq);
    assert ws[1].apply == (t: Store) => UpdateRevisions(t, serial, fv);
    assert ws[2].apply == (t: Store) => SetAllRfqStatus(t, serial, st);
    assert ws[..3] == ws;
    assert ws[..2][..1] == ws[..1];
    assert ws[..3][..2] == ws[..2];
    assert ws[..1][..0] == [];
    assert ws[..1][0] == ws[0];
    assert Run(s, ws[..1][..0], failing) == Outcome(s, true);
    var o1 := Run(s, ws[..1], failing);
    assert o1 == if 0 in failing then Outcome(s, false) else Outcome(UpdateQuotations(s, serial, fq), true);
    var o2 := Run(s, ws[..2], failing);
    assert o2 == if !o1.completed then o1 else if 1 in failing then Outcome(o1.store, false)
                 else Outcome(UpdateRevisions(o1.store, serial, fv), true);
  }

  // ---------------------------------------------------------------------------
  // The screen actions
  // ---------------------------------------------------------------------------

  /** The store after an action and the list the screen shows. */
  datatype Screened = Screened(store: Store, shown: seq<Resolved>)

  /** Run the writes; on success the acted-on quotation leaves the list (the
      approve and sent screens filter it out by id). */
  function Dismiss(s: Store, shown: seq<Resolved>, q: Resolved, ws: seq<Write>, failing: set<nat>): (r: Screened)
    ensures r.store == Run(s, ws, failing).store
    ensures Run(s, ws, failing).completed ==>
      |r.shown| <= |shown| && forall x :: x in r.shown <==> x in shown && x.id != q.id
    ensures !Run(s, ws, failing).completed ==> r.shown == shown
  {
    var o := Run(s, ws, failing);
    Screened(o.store, if o.completed then Filter(shown, (x: Resolved) => x.id != q.id) else shown)
  }

  function ApprovedRow(date: string): QuotationRow -> QuotationRow
  {
    (r: QuotationRow) => r.(status := Approved, approvalDate := date)
  }

  function ApprovedRevision(date: string): RevisionRow -> RevisionRow
  {
    (v: RevisionRow) => v.(statuss := Approved, approvalDate := date)
  }

  /** `approveQuotation`, with the current date as a parameter. */
  function Approve(s: Store, shown: seq<Resolved>, q: Resolved, date: string, failing: set<nat>): Screened
  {
    Dismiss(s, shown, q, StatusWrites(q.serial, ApprovedRow(date), ApprovedRevision(date), Approved), failing)
  }

  function RejectedRow(reason: string): QuotationRow -> QuotationRow
  {
    (r: QuotationRow) => r.(status := Todo, reason := OrElse(reason, NoReason))
  }

  function RejectedRevision(reason: string): RevisionRow -> RevisionRow
  {
    (v: RevisionRow) => v.(statuss := Todo, reason := OrElse(reason, NoReason))
  }

  /** `rejectQuotation`: the reason written is the quotation's own reason
      field, which the reject dialog edits. */
  function Reject(s: Store, shown: seq<Resolved>, q: Resolved, failing: set<nat>): Screened
  {
    Dismiss(s, shown, q, StatusWrites(q.serial, RejectedRow(q.reason), RejectedRevision(q.reason), Todo), failing)
  }

  function SentRow(): QuotationRow -> QuotationRow
  {
    (r: QuotationRow) => r.(status := Waiting)
  }

  function SentRevision(): RevisionRow -> RevisionRow
  {
    (v: RevisionRow) => v.(statuss := Waiting)
  }

  /** `sentQuotation`. */
  function Send(s: Store, shown: seq<Resolved>, q: Resolved, failing: set<nat>): Screened
  {
    Dismiss(s, shown, q, StatusWrites(q.serial, SentRow(), SentRevision(), Waiting), failing)
  }

  /** The reject dialog's text area: the typed text becomes the reason of the
      quotation being rejected, in the list and in the dialog. */
  function EditRejectReason(shown: seq<Resolved>, current: Option<Resolved>, text: string): (r: (seq<Resolved>, Option<Resolved>))
    ensures |r.0| == |shown|
    ensures forall i :: 0 <= i < |shown| ==>
      r.0[i] == if current.Some? && shown[i].id == current.value.id then shown[i].(reason := text) else shown[i]
    ensures r.1.Some? <==> current.Some?
    ensures current.Some? ==> r.1.value == current.value.(reason := text)
  {
    match current
    case None => (shown, None)
    case Some(c) =>
      (MapWhere(shown, (x: Resolved) => x.id == c.id, (x: Resolved) => x.(reason := text)), Some(c.(reason := text)))
  }

  function DecidedRow(st: Status, reason: string): QuotationRow -> QuotationRow
  {
    (r: QuotationRow) => r.(status := st, lossReason := OrElse(reason, NoReason))
  }

  function DecidedRevision(st: Status): RevisionRow -> RevisionRow
  {
    (v: RevisionRow) => v.(statuss := st)
  }

  /** `updateQuotationStatus` of the result screen (Won, Loss or Revised;
      `reason` is "" when none is passed). A missing serial number aborts
      before any write. On success every listed quotation of the serial takes
      the new status and the reason. */
  function Decide(s: Store, shown: seq<Resolved>, q: Resolved, st: Status, reason: string, failing: set<nat>): (r: Screened)
    ensures q.serial == "" ==> r == Screened(s, shown)
  {
    if q.serial == "" then Screened(s, shown)
    else
      var o := Run(s, StatusWrites(q.serial, DecidedRow(st, reason), DecidedRevision(st), st), failing);
      Screened(o.store,
               if o.completed
               then MapWhere(shown, (x: Resolved) => x.serial == q.serial,
                             (x: Resolved) => x.(status := st, lossReason := OrElse(reason, NoReason)))
               else shown)
  }

  /** `handleReasonSubmit`: without a selected reason nothing is written and
      the list is unchanged; otherwise the current quotation is marked Loss
      with that reason. */
  function SubmitLoss(s: Store, shown: seq<Resolved>, current: Option<Resolved>, selected: string, failing: set<nat>): (r: Screened)
    ensures selected == "" || current.None? ==> r == Screened(s, shown)
  {
    if selected == "" then Screened(s, shown)
    else match current
      case None => Screened(s, shown)
      case Some(q) => Decide(s, shown, q, Loss, selected, failing)
  }

  // ---------------------------------------------------------------------------
  // Properties of the actions
  // ---------------------------------------------------------------------------

  /** A completed approval marks every QuotationList and QuotationRevision row
      of the serial Approved with the approval date, and every RFQList row of
      it Approved; no other row and no other list changes; the quotation
      leaves the screen's list and nothing else does. */
  lemma ApproveCompletes(s: Store, shown: seq<Resolved>, q: Resolved, date: string)
    ensures var r := Approve(s, shown, q, date, {});
      |r.store.quotations| == |s.quotations| && |r.store.revisions| == |s.revisions| && |r.store.rfqs| == |s.rfqs|
      && (forall i :: 0 <= i < |s.quotations| ==>
            r.store.quotations[i] == if s.quotations[i].serial == q.serial
                                     then s.quotations[i].(status := Approved, approvalDate := date) else s.quotations[i])
      && (forall i :: 0 <= i < |s.revisions| ==>
            r.store.revisions[i] == if s.revisions[i].serial == q.serial
                                    then s.revisions[i].(statuss := Approved, approvalDate := date) else s.revisions[i])
      && (forall i :: 0 <= i < |s.rfqs| ==>
            r.store.rfqs[i] == if s.rfqs[i].rfqNumber == q.serial then s.rfqs[i].(status := Approved) else s.rfqs[i])
      && r.store.drawings == s.drawings && r.store.parts == s.parts && r.store.pos == s.pos
      && (forall x :: x in r.shown <==> x in shown && x.id != q.id)
  {
    StatusRun(s, q.serial, ApprovedRow(date), ApprovedRevision(date), Approved, {});
    FilterMembers(shown, (x: Resolved) => x.id != q.id);
  }

  /** `xs.filter(p)` holds exactly the elements of xs satisfying p. */
  lemma FilterMembers<T>(xs: seq<T>, p: T -> bool)
    ensures forall x :: x in Filter(xs, p) <==> x in xs && p(x)
  {
    forall x | x in xs && p(x)
      ensures x in Filter(xs, p)
    {
      var i :| 0 <= i < |xs| && xs[i] == x;
    }
  }

  /** A rejection whose RFQList step fails leaves the QuotationList and
      QuotationRevision rows rejected, the RFQList untouched and the
      quotation still listed: the lists disagree afterwards. */
  lemma RejectStopsAtRfq(s: Store, shown: seq<Resolved>, q: Resolved)
    ensures var r := Reject(s, shown, q, {2});
      r.shown == shown
      && r.store.rfqs == s.rfqs
      && |r.store.quotations| == |s.quotations|
      && (forall i :: 0 <= i < |s.quotations| && s.quotations[i].serial == q.serial ==>
            r.store.quotations[i].status == Todo && r.store.quotations[i].reason == OrElse(q.reason, NoReason))
      && |r.store.revisions| == |s.revisions|
      && (forall i :: 0 <= i < |s.revisions| && s.revisions[i].serial == q.serial ==>
            r.store.revisions[i].statuss == Todo && r.store.revisions[i].reason == OrElse(q.reason, NoReason))
  {
    StatusRun(s, q.serial, RejectedRow(q.reason), RejectedRevision(q.reason), Todo, {2});
  }

  /** Any action of these screens that fails at its first step writes
      nothing and leaves the list as it was. */
  lemma FirstStepFailureWritesNothing(s: Store, shown: seq<Resolved>, q: Resolved, date: string, failing: set<nat>)
    requires 0 in failing
    ensures Approve(s, shown, q, date, failing) == Screened(s, shown)
    ensures Reject(s, shown, q, failing) == Screened(s, shown)
    ensures Send(s, shown, q, failing) == Screened(s, shown)
  {
    StatusRun(s, q.serial, ApprovedRow(date), ApprovedRevision(date), Approved, failing);
    StatusRun(s, q.serial, RejectedRow(q.reason), RejectedRevision(q.reason), Todo, failing);
    StatusRun(s, q.serial, SentRow(), SentRevision(), Waiting, failing);
  }

  /** Sending changes nothing but status fields: each row is its old self with
      only the status replaced, and rows of other serial numbers are kept. */
  lemma SendChangesOnlyStatus(s: Store, shown: seq<Resolved>, q: Resolved, failing: set<nat>)
    ensures var t := Send(s, shown, q, failing).store;
      |t.quotations| == |s.quotations| && |t.revisions| == |s.revisions| && |t.rfqs| == |s.rfqs|
      && (forall i :: 0 <= i < |s.quotations| ==>
            t.quotations[i] == s.quotations[i].(status := t.quotations[i].status)
            && (s.quotations[i].serial != q.serial ==> t.quotations[i] == s.quotations[i]))
      && (forall i :: 0 <= i < |s.revisions| ==>
            t.revisions[i] == s.revisions[i].(statuss := t.revisions[i].statuss)
            && (s.revisions[i].serial != q.serial ==> t.revisions[i] == s.revisions[i]))
      && (forall i :: 0 <= i < |s.rfqs| ==>
            t.rfqs[i] == s.rfqs[i].(status := t.rfqs[i].status)
            && (s.rfqs[i].rfqNumber != q.serial ==> t.rfqs[i] == s.rfqs[i]))
      && t.drawings == s.drawings && t.parts == s.parts && t.pos == s.pos
  {
    StatusRun(s, q.serial, SentRow(), SentRevision(), Waiting, failing);
  }

  /** Sending twice leaves the lists as sending once does. */
  lemma SendIdempotent(s: Store, shown: seq<Resolved>, q: Resolved)
    ensures var r := Send(s, shown, q, {});
      Send(r.store, r.shown, q, {}).store == r.store
  {
    var fq := SentRow();
    var fv := SentRevision();
    StatusRun(s, q.serial, fq, fv, Waiting, {});
    var t := Send(s, shown, q, {}).store;
    StatusRun(t, q.serial, fq, fv, Waiting, {});
    var u := Send(t, Send(s, shown, q, {}).shown, q, {}).store;
    assert u.quotations == t.quotations;
    assert u.revisions == t.revisions;
    assert u.rfqs == t.rfqs;
  }

  /** The text typed into the reject dialog is what a completed rejection
      writes as the reason of every QuotationList and QuotationRevision row of
      the serial ("No reason provided" when it is empty). */
  lemma RejectWritesTypedReason(s: Store, shown: seq<Resolved>, c: Resolved, text: string)
    ensures var (shown', current') := EditRejectReason(shown, Some(c), text);
      var r := Reject(s, shown', current'.value, {});
      (forall i :: 0 <= i < |s.quotations| && s.quotations[i].serial == c.serial ==>
         i < |r.store.quotations| && r.store.quotations[i].reason == OrElse(text, NoReason)
         && r.store.quotations[i].status == Todo)
      && (forall i :: 0 <= i < |s.revisions| && s.revisions[i].serial == c.serial ==>
         i < |r.store.revisions| && r.store.revisions[i].reason == OrElse(text, NoReason)
         && r.store.revisions[i].statuss == Todo)
  {
    var c' := c.(reason := text);
    StatusRun(s, c'.serial, RejectedRow(text), RejectedRevision(text), Todo, {});
  }

  /** A completed decision on the result screen writes the status to all
      three lists, the loss reason to the QuotationList rows only, and gives
      every listed quotation of the serial the status and reason, leaving the
      others. */
  lemma DecideCompletes(s: Store, shown: seq<Resolved>, q: Resolved, st: Status, reason: string)
    requires q.serial != ""
    ensures var r := Decide(s, shown, q, st, reason, {});
      |r.store.quotations| == |s.quotations| && |r.store.revisions| == |s.revisions| && |r.store.rfqs| == |s.rfqs|
      && (forall i :: 0 <= i < |s.quotations| ==>
            r.store.quotations[i] == if s.quotations[i].serial == q.serial
                                     then s.quotations[i].(status := st, lossReason := OrElse(reason, NoReason))
                                     else s.quotations[i])
      && (forall i :: 0 <= i < |s.revisions| ==>
            r.store.revisions[i] == if s.revisions[i].serial == q.serial
                                    then s.revisions[i].(statuss := st) else s.revisions[i])
      && (forall i :: 0 <= i < |s.rfqs| ==>
            r.store.rfqs[i] == if s.rfqs[i].rfqNumber == q.serial then s.rfqs[i].(status := st) else s.rfqs[i])
      && r.store.drawings == s.drawings && r.store.parts == s.parts && r.store.pos == s.pos
      && |r.shown| == |shown|
      && (forall i :: 0 <= i < |shown| ==>
            r.shown[i] == if shown[i].serial == q.serial
                          then shown[i].(status := st, lossReason := OrElse(reason, NoReason)) else shown[i])
  {
    StatusRun(s, q.serial, DecidedRow(st, reason), DecidedRevision(st), st, {});
  }

  /** A loss submitted with one of the offered reasons records that reason as
      the loss reason of every QuotationList row of the serial. */
  lemma LossRecordsReason(s: Store, shown: seq<Resolved>, q: Resolved, selected: string)
    requires selected in LossReasons && q.serial != ""
    ensures var r := SubmitLoss(s, shown, Some(q), selected, {});
      forall i :: 0 <= i < |s.quotations| && s.quotations[i].serial == q.serial ==>
        i < |r.store.quotations| && r.store.quotations[i].status == Loss && r.store.quotations[i].lossReason == selected
  {
    DecideCompletes(s, shown, q, Loss, selected);
  }

  // ---------------------------------------------------------------------------
  // The queues of the three screens
  // ---------------------------------------------------------------------------

  /** The status whose rows put a serial number on a screen. */
  function QueueStatus(sc: Screen): Status
  {
    match sc
    case ApproveScreen => WorkingDone
    case SentScreen => Approved
    case ResultScreen => Waiting
    case RevisionScreen => Revised
  }

  /** The serial numbers a screen's two queries return, QuotationList first.
      Only the approve screen queries QuotationRevision on its Statuss field;
      the sent and result screens filter that list on a field named Status,
      which its rows do not carry, so that query contributes nothing. */
  function QueueSerials(sc: Screen, s: Store): (r: seq<string>)
    ensures |r| <= |s.quotations| + (if sc == ApproveScreen then |s.revisions| else 0)
    ensures sc != ApproveScreen ==> forall i :: 0 <= i < |r| ==>
      exists j :: 0 <= j < |s.quotations| && s.quotations[j].serial == r[i] && s.quotations[j].status == QueueStatus(sc)
  {
    var qs := Filter(s.quotations, (r: QuotationRow) => r.status == QueueStatus(sc));
    assert forall i :: 0 <= i < |qs| ==> qs[i] in s.quotations && qs[i].status == QueueStatus(sc);
    Map(qs, (r: QuotationRow) => r.serial)
    + if sc == ApproveScreen
      then Map(Filter(s.revisions, (v: RevisionRow) => v.statuss == WorkingDone), (v: RevisionRow) => v.serial)
      else []
  }

  /** A serial number is queued exactly when a row of it carries the status
      the screen queries. */
  predicate Queued(sc: Screen, s: Store, serial: string)
  {
    (exists i :: 0 <= i < |s.quotations| && s.quotations[i].serial == serial && s.quotations[i].status == QueueStatus(sc))
    || (sc == ApproveScreen
        && exists i :: 0 <= i < |s.revisions| && s.revisions[i].serial == serial && s.revisions[i].statuss == WorkingDone)
  }

  lemma QueueSerialsMembers(sc: Screen, s: Store, serial: string)
    ensures serial in QueueSerials(sc, s) <==> Queued(sc, s, serial)
  {
    var pq := (r: QuotationRow) => r.status == QueueStatus(sc);
    var pv := (v: RevisionRow) => v.statuss == WorkingDone;
    var mq := Map(Filter(s.quotations, pq), (r: QuotationRow) => r.serial);
    var mv := Map(Filter(s.revisions, pv), (v: RevisionRow) => v.serial);
    assert QueueSerials(sc, s) == mq + if sc == ApproveScreen then mv else [];
    MapFilterMembers(s.quotations, pq, (r: QuotationRow) => r.serial, serial);
    MapFilterMembers(s.revisions, pv, (v: RevisionRow) => v.serial, serial);
  }

  /** A completed approval takes the serial number off the approve screen and,
      when it has a QuotationList row, puts it on the sent screen. */
  lemma ApproveMovesToSent(s: Store, shown: seq<Resolved>, q: Resolved, date: string)
    ensures var t := Approve(s, shown, q, date, {}).store;
      q.serial !in QueueSerials(ApproveScreen, t)
      && ((exists i :: 0 <= i < |s.quotations| && s.quotations[i].serial == q.serial) ==> q.serial in QueueSerials(SentScreen, t))
  {
    var t := Approve(s, shown, q, date, {}).store;
    ApproveCompletes(s, shown, q, date);
    QueueSerialsMembers(ApproveScreen, t, q.serial);
    QueueSerialsMembers(SentScreen, t, q.serial);
    if exists i :: 0 <= i < |s.quotations| && s.quotations[i].serial == q.serial {
      var i :| 0 <= i < |s.quotations| && s.quotations[i].serial == q.serial;
      assert t.quotations[i].serial == q.serial && t.quotations[i].status == Approved;
    }
  }

  /** A completed send takes the serial number off the sent screen and, when
      it has a QuotationList row, puts it on the result screen. */
  lemma SendMovesToResult(s: Store, shown: seq<Resolved>, q: Resolved)
    ensures var t := Send(s, shown, q, {}).store;
      q.serial !in QueueSerials(SentScreen, t)
      && ((exists i :: 0 <= i < |s.quotations| && s.quotations[i].serial == q.serial) ==> q.serial in QueueSerials(ResultScreen, t))
  {
    var t := Send(s, shown, q, {}).store;
    StatusRun(s, q.serial, SentRow(), SentRevision(), Waiting, {});
    QueueSerialsMembers(SentScreen, t, q.serial);
    QueueSerialsMembers(ResultScreen, t, q.serial);
    if exists i :: 0 <= i < |s.quotations| && s.quotations[i].serial == q.serial {
      var i :| 0 <= i < |s.quotations| && s.quotations[i].serial == q.serial;
      assert t.quotations[i].status == Waiting;
    }
  }

  /** A completed rejection takes the serial number off the approve screen. */
  lemma RejectLeavesApproval(s: Store, shown: seq<Resolved>, q: Resolved)
    ensures q.serial !in QueueSerials(ApproveScreen, Reject(s, shown, q, {}).store)
  {
    var t := Reject(s, shown, q, {}).store;
    StatusRun(s, q.serial, RejectedRow(q.reason), RejectedRevision(q.reason), Todo, {});
    QueueSerialsMembers(ApproveScreen, t, q.serial);
  }

  /** A completed Won, Loss or Revised decision takes the serial number off
      the result screen. */
  lemma DecideLeavesResult(s: Store, shown: seq<Resolved>, q: Resolved, st: Status, reason: string)
    requires q.serial != "" && st != Waiting
    ensures q.serial !in QueueSerials(ResultScreen, Decide(s, shown, q, st, reason, {}).store)
  {
    var t := Decide(s, shown, q, st, reason, {}).store;
    DecideCompletes(s, shown, q, st, reason);
    QueueSerialsMembers(ResultScreen, t, q.serial);
  }
}
