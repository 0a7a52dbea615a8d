/** The "highest revision" resolver four screens use to decide which version
    of a quotation to show for an RFQ serial number, and the batch loading
    around it.

    The resolver reads the serial's QuotationList rows and QuotationRevision
    rows, normalises both to one shape (their date and status fields have
    different names), and scans QuotationList first and QuotationRevision
    second, keeping a row only when its revision number is strictly greater
    than the best so far, starting from 0. So ties go to the first row scanned
    and revision 0 never wins the scan. The screens differ in three ways:
      - a status filter on both lists (revision screen: Revised; result
        screen: Waiting);
      - a fast path that returns the first QuotationList row with revision 0
        and a given status before looking at revisions at all (approve:
        WorkingDone; sent: Approved; result: Waiting);
      - the revision screen, which has no fast path, falls back to the first
        QuotationList row with revision 0 when no row has a positive
        revision. */
module Resolver {
  import opened Common
  import opened Numeric
  import opened Records

  datatype Screen = RevisionScreen | ApproveScreen | SentScreen | ResultScreen

  datatype Source = FromQuotationList | FromRevisionList

  /** A quotation as a screen holds it. */
  datatype Resolved = Resolved(
    id: nat,
    serial: string,
    date: string,
    totalAmount: real,
    totalRate: real,
    totalWeight: real,
    status: Status,
    revision: int,
    reason: string,
    approvalDate: string,
    lossReason: string,
    source: Source)

  /** Status both lists are filtered on, if any. */
  function StatusFilter(sc: Screen): Option<Status>
  {
    match sc
    case RevisionScreen => Some(Revised)
    case ResultScreen => Some(Waiting)
    case _ => None
  }

  /** Status of the revision-0 QuotationList row the fast path looks for. */
  function FastPathStatus(sc: Screen): Option<Status>
  {
    match sc
    case ApproveScreen => Some(WorkingDone)
    case SentScreen => Some(Approved)
    case ResultScreen => Some(Waiting)
    case RevisionScreen => None
  }

  predicate Admits(sc: Screen, st: Status)
  {
    StatusFilter(sc).None? || StatusFilter(sc).value == st
  }

  /** A QuotationList row as the screen's record. The revision screen keeps
      the reason; the approve and sent screens keep the reason and approval
      date; the result screen keeps only the loss reason, and only on its fast
      path. */
  function FromQuotation(sc: Screen, q: QuotationRow, fast: bool): (r: Resolved)
    ensures r.source == FromQuotationList && r.id == q.id && r.serial == q.serial
    ensures r.revision == Rev(q.revision) && r.status == q.status && r.date == q.quotationDate
  {
    Resolved(q.id, q.serial, q.quotationDate, q.totalAmount, q.totalRate, q.totalWeight, q.status,
             Rev(q.revision),
             if sc == ResultScreen then "" else q.reason,
             if sc == ApproveScreen || sc == SentScreen then q.approvalDate else "",
             if sc == ResultScreen && fast then q.lossReason else "",
             FromQuotationList)
  }

  /** A QuotationRevision row as the screen's record: its date is the
      RevisionDate and its status the Statuss field. */
  function FromRevision(sc: Screen, v: RevisionRow): (r: Resolved)
    ensures r.source == FromRevisionList && r.id == v.id && r.serial == v.serial
    ensures r.revision == Rev(v.revision) && r.status == v.statuss && r.date == v.revisionDate
  {
    Resolved(v.id, v.serial, v.revisionDate, v.totalAmount, v.totalRate, v.totalWeight, v.statuss,
             Rev(v.revision),
             if sc == ResultScreen then "" else v.reason,
             if sc == ApproveScreen || sc == SentScreen then v.approvalDate else "",
             "",
             FromRevisionList)
  }

  /** The screen's QuotationList query: rows of the serial that pass the
      status filter. */
  predicate QuotationAdmitted(sc: Screen, serial: string, q: QuotationRow)
  {
    q.serial == serial && Admits(sc, q.status)
  }

  /** The screen's QuotationRevision query. */
  predicate RevisionAdmitted(sc: Screen, serial: string, v: RevisionRow)
  {
    v.serial == serial && Admits(sc, v.statuss)
  }

  /** The QuotationList rows the query returns, normalised, in list order. */
  function QuotationCandidates(sc: Screen, serial: string, ql: seq<QuotationRow>, fast: bool): (cs: seq<Resolved>)
    ensures forall i :: 0 <= i < |cs| ==> cs[i].source == FromQuotationList
  {
    Map(Filter(ql, (q: QuotationRow) => QuotationAdmitted(sc, serial, q)), (q: QuotationRow) => FromQuotation(sc, q, fast))
  }

  /** The QuotationRevision rows the query returns, normalised, in list order. */
  function RevisionCandidates(sc: Screen, serial: string, qr: seq<RevisionRow>): (cs: seq<Resolved>)
    ensures forall i :: 0 <= i < |cs| ==> cs[i].source == FromRevisionList
  {
    Map(Filter(qr, (v: RevisionRow) => RevisionAdmitted(sc, serial, v)), (v: RevisionRow) => FromRevision(sc, v))
  }

  /** Both queries, QuotationList first: the order the scan visits them. */
  function Candidates(sc: Screen, serial: string, ql: seq<QuotationRow>, qr: seq<RevisionRow>): seq<Resolved>
  {
    QuotationCandidates(sc, serial, ql, false) + RevisionCandidates(sc, serial, qr)
  }

  /** Every QuotationList candidate is an admitted row, normalised. */
  lemma QuotationCandidateIsRow(sc: Screen, serial: string, ql: seq<QuotationRow>, fast: bool, i: nat)
    requires i < |QuotationCandidates(sc, serial, ql, fast)|
    ensures exists j :: 0 <= j < |ql| && QuotationAdmitted(sc, serial, ql[j])
                     && QuotationCandidates(sc, serial, ql, fast)[i] == FromQuotation(sc, ql[j], fast)
  {
    var rows := Filter(ql, (q: QuotationRow) => QuotationAdmitted(sc, serial, q));
    assert rows[i] in ql;
  }

  /** Every admitted QuotationList row is a candidate. */
  lemma QuotationRowIsCandidate(sc: Screen, serial: string, ql: seq<QuotationRow>, fast: bool, j: nat)
    requires j < |ql| && QuotationAdmitted(sc, serial, ql[j])
    ensures exists i :: 0 <= i < |QuotationCandidates(sc, serial, ql, fast)|
                     && QuotationCandidates(sc, serial, ql, fast)[i] == FromQuotation(sc, ql[j], fast)
  {
    var rows := Filter(ql, (q: QuotationRow) => QuotationAdmitted(sc, serial, q));
    assert ql[j] in rows;
    var i :| 0 <= i < |rows| && rows[i] == ql[j];
    assert QuotationCandidates(sc, serial, ql, fast)[i] == FromQuotation(sc, ql[j], fast);
  }

  /** Every QuotationRevision candidate is an admitted row, normalised. */
  lemma RevisionCandidateIsRow(sc: Screen, serial: string, qr: seq<RevisionRow>, i: nat)
    requires i < |RevisionCandidates(sc, serial, qr)|
    ensures exists j :: 0 <= j < |qr| && RevisionAdmitted(sc, serial, qr[j])
                     && RevisionCandidates(sc, serial, qr)[i] == FromRevision(sc, qr[j])
  {
    var rows := Filter(qr, (v: RevisionRow) => RevisionAdmitted(sc, serial, v));
    assert rows[i] in qr;
  }

  /** Every admitted QuotationRevision row is a candidate. */
  lemma RevisionRowIsCandidate(sc: Screen, serial: string, qr: seq<RevisionRow>, j: nat)
    requires j < |qr| && RevisionAdmitted(sc, serial, qr[j])
    ensures exists i :: 0 <= i < |RevisionCandidates(sc, serial, qr)|
                     && RevisionCandidates(sc, serial, qr)[i] == FromRevision(sc, qr[j])
  {
    var rows := Filter(qr, (v: RevisionRow) => RevisionAdmitted(sc, serial, v));
    assert qr[j] in rows;
    var i :| 0 <= i < |rows| && rows[i] == qr[j];
    assert RevisionCandidates(sc, serial, qr)[i] == FromRevision(sc, qr[j]);
  }

  // ---------------------------------------------------------------------------
  // The scan
  // ---------------------------------------------------------------------------

  /** The `forEach` scan: `highest` starts at 0 and a row replaces the best so
      far only when its revision is strictly greater. The index of the row
      kept, None when no revision is positive. */
  function HighestIndex(cs: seq<Resolved>): (r: Option<nat>)
    ensures r.None? <==> forall i :: 0 <= i < |cs| ==> cs[i].revision <= 0
    ensures r.Some? ==> r.value < |cs| && cs[r.value].revision > 0
    ensures r.Some? ==> forall i :: 0 <= i < |cs| ==> cs[i].revision <= cs[r.value].revision
    ensures r.Some? ==> forall i :: 0 <= i < r.value ==> cs[i].revision < cs[r.value].revision
    decreases |cs|
  {
    if |cs| == 0 then None
    else
      var prev := HighestIndex(cs[..|cs| - 1]);
      var highest := if prev.None? then 0 else cs[prev.value].revision;
      if cs[|cs| - 1].revision > highest then Some(|cs| - 1) else prev
  }

  /** The first QuotationList row with revision 0 and the given status (any
      status when None). */
  function RevisionZero(cs: seq<Resolved>, st: Option<Status>): (r: Option<nat>)
    ensures r.Some? ==> r.value < |cs| && cs[r.value].revision == 0 && (st.None? || cs[r.value].status == st.value)
    ensures r.None? <==> forall i :: 0 <= i < |cs| ==> !(cs[i].revision == 0 && (st.None? || cs[i].status == st.value))
  {
    FirstIndex(cs, (c: Resolved) => c.revision == 0 && (st.None? || c.status == st.value))
  }

  /** `fetchHighestRevisionRecord`. `ql` and `qr` are the two lists, None when
      reading that list fails; any failure makes the resolver return null. */
  function Resolve(sc: Screen, serial: string, ql: Option<seq<QuotationRow>>, qr: Option<seq<RevisionRow>>): Option<Resolved>
  {
    if ql.None? then None
    else
      var fastRows := QuotationCandidates(sc, serial, ql.value, true);
      var zero := RevisionZero(fastRows, FastPathStatus(sc));
      if FastPathStatus(sc).Some? && zero.Some? then Some(fastRows[zero.value])
      else if qr.None? then None
      else
        var qlRows := QuotationCandidates(sc, serial, ql.value, false);
        var cs := Candidates(sc, serial, ql.value, qr.value);
        match HighestIndex(cs)
        case Some(k) => Some(cs[k])
        case None =>
          if sc == RevisionScreen then
            match RevisionZero(qlRows, None)
            case Some(k) => Some(qlRows[k])
            case None => None
          else None
  }

  // ---------------------------------------------------------------------------
  // What the resolver returns, in terms of the rows
  // ---------------------------------------------------------------------------

  /** A QuotationList row the fast path accepts: admitted, revision 0, and the
      screen's fast-path status. */
  predicate FastRow(sc: Screen, serial: string, q: QuotationRow)
  {
    FastPathStatus(sc).Some? && QuotationAdmitted(sc, serial, q)
    && Rev(q.revision) == 0 && q.status == FastPathStatus(sc).value
  }

  predicate HasFastRow(sc: Screen, serial: string, ql: seq<QuotationRow>)
  {
    exists j :: 0 <= j < |ql| && FastRow(sc, serial, ql[j])
  }

  /** Some admitted row, in either list, has a positive revision number. */
  predicate HasPositiveRevision(sc: Screen, serial: string, ql: seq<QuotationRow>, qr: seq<RevisionRow>)
  {
    (exists j :: 0 <= j < |ql| && QuotationAdmitted(sc, serial, ql[j]) && Rev(ql[j].revision) > 0)
    || (exists j :: 0 <= j < |qr| && RevisionAdmitted(sc, serial, qr[j]) && Rev(qr[j].revision) > 0)
  }

  /** Some admitted QuotationList row has revision 0. */
  predicate HasZeroRow(sc: Screen, serial: string, ql: seq<QuotationRow>)
  {
    exists j :: 0 <= j < |ql| && QuotationAdmitted(sc, serial, ql[j]) && Rev(ql[j].revision) == 0
  }

  /** The fast path is taken exactly when a fast row exists. */
  lemma FastPathTaken(sc: Screen, serial: string, ql: seq<QuotationRow>)
    ensures (FastPathStatus(sc).Some? && RevisionZero(QuotationCandidates(sc, serial, ql, true), FastPathStatus(sc)).Some?)
            <==> HasFastRow(sc, serial, ql)
  {
    var fs := QuotationCandidates(sc, serial, ql, true);
    var st := FastPathStatus(sc);
    if st.Some? && RevisionZero(fs, st).Some? {
      var i := RevisionZero(fs, st).value;
      QuotationCandidateIsRow(sc, serial, ql, true, i);
      var j :| 0 <= j < |ql| && QuotationAdmitted(sc, serial, ql[j]) && fs[i] == FromQuotation(sc, ql[j], true);
      assert FastRow(sc, serial, ql[j]);
    }
    if HasFastRow(sc, serial, ql) {
      var j :| 0 <= j < |ql| && FastRow(sc, serial, ql[j]);
      QuotationRowIsCandidate(sc, serial, ql, true, j);
      var i :| 0 <= i < |fs| && fs[i] == FromQuotation(sc, ql[j], true);
      assert fs[i].revision == 0 && fs[i].status == st.value;
    }
  }

  /** A candidate is a QuotationList candidate or a QuotationRevision one,
      by its position. */
  lemma CandidateAt(sc: Screen, serial: string, ql: seq<QuotationRow>, qr: seq<RevisionRow>, k: nat)
    requires k < |Candidates(sc, serial, ql, qr)|
    ensures var qs := QuotationCandidates(sc, serial, ql, false);
      k < |qs| ==> Candidates(sc, serial, ql, qr)[k] == qs[k]
    ensures var qs := QuotationCandidates(sc, serial, ql, false);
      k >= |qs| ==> Candidates(sc, serial, ql, qr)[k] == RevisionCandidates(sc, serial, qr)[k - |qs|]
  {
  }

  lemma PositiveCandidateIsRow(sc: Screen, serial: string, ql: seq<QuotationRow>, qr: seq<RevisionRow>, k: nat)
    requires k < |Candidates(sc, serial, ql, qr)| && Candidates(sc, serial, ql, qr)[k].revision > 0
    ensures HasPositiveRevision(sc, serial, ql, qr)
  {
    CandidateAt(sc, serial, ql, qr, k);
    var n := |QuotationCandidates(sc, serial, ql, false)|;
    if k < n {
      QuotationCandidateIsRow(sc, serial, ql, false, k);
    } else {
      RevisionCandidateIsRow(sc, serial, qr, k - n);
    }
  }

  lemma PositiveQuotationIsCandidate(sc: Screen, serial: string, ql: seq<QuotationRow>, qr: seq<RevisionRow>, j: nat)
    requires j < |ql| && QuotationAdmitted(sc, serial, ql[j]) && Rev(ql[j].revision) > 0
    ensures exists i :: 0 <= i < |Candidates(sc, serial, ql, qr)| && Candidates(sc, serial, ql, qr)[i].revision > 0
  {
    var qs := QuotationCandidates(sc, serial, ql, false);
    QuotationRowIsCandidate(sc, serial, ql, false, j);
    var i :| 0 <= i < |qs| && qs[i] == FromQuotation(sc, ql[j], false);
    CandidateAt(sc, serial, ql, qr, i);
    assert Candidates(sc, serial, ql, qr)[i].revision > 0;
  }

  lemma PositiveRevisionIsCandidate(sc: Screen, serial: string, ql: seq<QuotationRow>, qr: seq<RevisionRow>, j: nat)
    requires j < |qr| && RevisionAdmitted(sc, serial, qr[j]) && Rev(qr[j].revision) > 0
    ensures exists i :: 0 <= i < |Candidates(sc, serial, ql, qr)| && Candidates(sc, serial, ql, qr)[i].revision > 0
  {
    var qs := QuotationCandidates(sc, serial, ql, false);
    var rs := RevisionCandidates(sc, serial, qr);
    var cs := Candidates(sc, serial, ql, qr);
    assert cs == qs + rs;
    RevisionRowIsCandidate(sc, serial, qr, j);
    var i :| 0 <= i < |rs| && rs[i] == FromRevision(sc, qr[j]);
    assert cs[|qs| + i] == rs[i];
    assert rs[i].revision > 0;
  }

  lemma PositiveRowIsCandidate(sc: Screen, serial: string, ql: seq<QuotationRow>, qr: seq<RevisionRow>)
    requires HasPositiveRevision(sc, serial, ql, qr)
    ensures exists i :: 0 <= i < |Candidates(sc, serial, ql, qr)| && Candidates(sc, serial, ql, qr)[i].revision > 0
  {
    if exists j :: 0 <= j < |ql| && QuotationAdmitted(sc, serial, ql[j]) && Rev(ql[j].revision) > 0 {
      var j :| 0 <= j < |ql| && QuotationAdmitted(sc, serial, ql[j]) && Rev(ql[j].revision) > 0;
      PositiveQuotationIsCandidate(sc, serial, ql, qr, j);
    } else {
      var j :| 0 <= j < |qr| && RevisionAdmitted(sc, serial, qr[j]) && Rev(qr[j].revision) > 0;
      PositiveRevisionIsCandidate(sc, serial, ql, qr, j);
    }
  }

  /** The scan finds a winner exactly when some admitted row has a positive
      revision. */
  lemma ScanFindsPositive(sc: Screen, serial: string, ql: seq<QuotationRow>, qr: seq<RevisionRow>)
    ensures HighestIndex(Candidates(sc, serial, ql, qr)).Some? <==> HasPositiveRevision(sc, serial, ql, qr)
  {
    var cs := Candidates(sc, serial, ql, qr);
    if HighestIndex(cs).Some? {
      PositiveCandidateIsRow(sc, serial, ql, qr, HighestIndex(cs).value);
    }
    if HasPositiveRevision(sc, serial, ql, qr) {
      PositiveRowIsCandidate(sc, serial, ql, qr);
    }
  }

  /** The revision screen's fallback finds a row exactly when an admitted
      QuotationList row has revision 0. */
  lemma FallbackFindsZero(sc: Screen, serial: string, ql: seq<QuotationRow>)
    ensures RevisionZero(QuotationCandidates(sc, serial, ql, false), None).Some? <==> HasZeroRow(sc, serial, ql)
  {
    var qs := QuotationCandidates(sc, serial, ql, false);
    if RevisionZero(qs, None).Some? {
      QuotationCandidateIsRow(sc, serial, ql, false, RevisionZero(qs, None).value);
    }
    if HasZeroRow(sc, serial, ql) {
      var j :| 0 <= j < |ql| && QuotationAdmitted(sc, serial, ql[j]) && Rev(ql[j].revision) == 0;
      QuotationRowIsCandidate(sc, serial, ql, false, j);
      var i :| 0 <= i < |qs| && qs[i] == FromQuotation(sc, ql[j], false);
      assert qs[i].revision == 0;
    }
  }

  /** The resolver returns null exactly when a list cannot be read, or no
      fast row exists, no admitted row has a positive revision and (on the
      revision screen) no admitted QuotationList row has revision 0. A
      QuotationRevision failure does not matter once the fast path is taken. */
  lemma ResolveNullIff(sc: Screen, serial: string, ql: Option<seq<QuotationRow>>, qr: Option<seq<RevisionRow>>)
    ensures Resolve(sc, serial, ql, qr).None? <==>
      ql.None?
      || (!HasFastRow(sc, serial, ql.value)
          && (qr.None?
              || (!HasPositiveRevision(sc, serial, ql.value, qr.value)
                  && (sc == RevisionScreen ==> !HasZeroRow(sc, serial, ql.value)))))
  {
    if ql.Some? {
      FastPathTaken(sc, serial, ql.value);
      FallbackFindsZero(sc, serial, ql.value);
      if qr.Some? {
        ScanFindsPositive(sc, serial, ql.value, qr.value);
      }
    }
  }

  /** When the fast path applies, the QuotationRevision list is not read: the
      result is the same whatever it holds or whether it can be read, and it is
      a fast row, revision 0, normalised with its loss reason. */
  lemma FastPathIgnoresRevisions(sc: Screen, serial: string, ql: seq<QuotationRow>, qr: Option<seq<RevisionRow>>)
    requires HasFastRow(sc, serial, ql)
    ensures Resolve(sc, serial, Some(ql), qr) == Resolve(sc, serial, Some(ql), None)
    ensures Resolve(sc, serial, Some(ql), qr).Some?
    ensures var r := Resolve(sc, serial, Some(ql), qr).value;
      r.revision == 0 && r.source == FromQuotationList && r.status == FastPathStatus(sc).value
      && exists j :: 0 <= j < |ql| && FastRow(sc, serial, ql[j]) && r == FromQuotation(sc, ql[j], true)
  {
    FastPathTaken(sc, serial, ql);
    var fs := QuotationCandidates(sc, serial, ql, true);
    var i := RevisionZero(fs, FastPathStatus(sc)).value;
    QuotationCandidateIsRow(sc, serial, ql, true, i);
    var j :| 0 <= j < |ql| && QuotationAdmitted(sc, serial, ql[j]) && fs[i] == FromQuotation(sc, ql[j], true);
    assert FastRow(sc, serial, ql[j]);
  }

  /** Without a fast row, both lists read and a winner of the scan, the
      resolver returns the winner. */
  lemma ResolveScan(sc: Screen, serial: string, ql: seq<QuotationRow>, qr: seq<RevisionRow>)
    requires !HasFastRow(sc, serial, ql)
    requires HighestIndex(Candidates(sc, serial, ql, qr)).Some?
    ensures Resolve(sc, serial, Some(ql), Some(qr))
            == Some(Candidates(sc, serial, ql, qr)[HighestIndex(Candidates(sc, serial, ql, qr)).value])
  {
    FastPathTaken(sc, serial, ql);
  }

  /** An admitted QuotationList row is no higher than the scan's winner, and
      strictly lower when the winner is a QuotationRevision row. */
  lemma QuotationRowBelowWinner(sc: Screen, serial: string, ql: seq<QuotationRow>, qr: seq<RevisionRow>, j: nat)
    requires j < |ql| && QuotationAdmitted(sc, serial, ql[j])
    requires HighestIndex(Candidates(sc, serial, ql, qr)).Some?
    ensures var cs := Candidates(sc, serial, ql, qr);
      var w := cs[HighestIndex(cs).value];
      Rev(ql[j].revision) <= w.revision && (w.source == FromRevisionList ==> Rev(ql[j].revision) < w.revision)
  {
    var qs := QuotationCandidates(sc, serial, ql, false);
    var cs := Candidates(sc, serial, ql, qr);
    var k := HighestIndex(cs).value;
    QuotationRowIsCandidate(sc, serial, ql, false, j);
    var i :| 0 <= i < |qs| && qs[i] == FromQuotation(sc, ql[j], false);
    CandidateAt(sc, serial, ql, qr, i);
    CandidateAt(sc, serial, ql, qr, k);
  }

  /** An admitted QuotationRevision row is no higher than the scan's winner. */
  lemma RevisionRowBelowWinner(sc: Screen, serial: string, ql: seq<QuotationRow>, qr: seq<RevisionRow>, j: nat)
    requires j < |qr| && RevisionAdmitted(sc, serial, qr[j])
    requires HighestIndex(Candidates(sc, serial, ql, qr)).Some?
    ensures var cs := Candidates(sc, serial, ql, qr);
      Rev(qr[j].revision) <= cs[HighestIndex(cs).value].revision
  {
    var n := |QuotationCandidates(sc, serial, ql, false)|;
    var rs := RevisionCandidates(sc, serial, qr);
    var cs := Candidates(sc, serial, ql, qr);
    var k := HighestIndex(cs).value;
    RevisionRowIsCandidate(sc, serial, qr, j);
    var i :| 0 <= i < |rs| && rs[i] == FromRevision(sc, qr[j]);
    CandidateAt(sc, serial, ql, qr, n + i);
    assert cs[n + i].revision == Rev(qr[j].revision);
    assert cs[n + i].revision <= cs[k].revision;
  }

  /** Without a fast row and with some positive revision, the result is a row
      with the highest revision among the admitted rows of both lists. It is
      the first candidate with that revision in scan order, so a
      QuotationRevision row wins only when every admitted QuotationList row has
      a strictly lower revision. */
  lemma ResolvedIsHighest(sc: Screen, serial: string, ql: seq<QuotationRow>, qr: seq<RevisionRow>)
    requires !HasFastRow(sc, serial, ql)
    requires HasPositiveRevision(sc, serial, ql, qr)
    ensures Resolve(sc, serial, Some(ql), Some(qr)).Some?
    ensures var r := Resolve(sc, serial, Some(ql), Some(qr)).value;
      r.revision > 0
      && (forall j :: 0 <= j < |ql| && QuotationAdmitted(sc, serial, ql[j]) ==> Rev(ql[j].revision) <= r.revision)
      && (forall j :: 0 <= j < |qr| && RevisionAdmitted(sc, serial, qr[j]) ==> Rev(qr[j].revision) <= r.revision)
    ensures var r := Resolve(sc, serial, Some(ql), Some(qr)).value;
      r.source == FromRevisionList ==>
        forall j :: 0 <= j < |ql| && QuotationAdmitted(sc, serial, ql[j]) ==> Rev(ql[j].revision) < r.revision
    ensures var r := Resolve(sc, serial, Some(ql), Some(qr)).value;
      var cs := Candidates(sc, serial, ql, qr);
      exists k :: 0 <= k < |cs| && cs[k] == r && forall i :: 0 <= i < k ==> cs[i].revision < r.revision
  {
    ScanFindsPositive(sc, serial, ql, qr);
    ResolveScan(sc, serial, ql, qr);
    forall j | 0 <= j < |ql| && QuotationAdmitted(sc, serial, ql[j]) {
      QuotationRowBelowWinner(sc, serial, ql, qr, j);
    }
    forall j | 0 <= j < |qr| && RevisionAdmitted(sc, serial, qr[j]) {
      RevisionRowBelowWinner(sc, serial, ql, qr, j);
    }
  }

  /** `r` is an admitted QuotationList row, normalised (by either path). */
  predicate FromAdmittedQuotation(sc: Screen, serial: string, ql: seq<QuotationRow>, r: Resolved)
  {
    exists j :: 0 <= j < |ql| && QuotationAdmitted(sc, serial, ql[j])
      && (r == FromQuotation(sc, ql[j], true) || r == FromQuotation(sc, ql[j], false))
  }

  /** `r` is an admitted QuotationRevision row, normalised. */
  predicate FromAdmittedRevision(sc: Screen, serial: string, qr: seq<RevisionRow>, r: Resolved)
  {
    exists j :: 0 <= j < |qr| && RevisionAdmitted(sc, serial, qr[j])
      && r.date == qr[j].revisionDate && r.status == qr[j].statuss && r == FromRevision(sc, qr[j])
  }

  /** Whatever the resolver returns is one of the admitted rows, normalised.
      A QuotationRevision row is returned only with a positive revision (a
      revision-0 QuotationRevision row is never returned), and then its date is
      its RevisionDate and its status its Statuss. */
  lemma ResolvedIsRow(sc: Screen, serial: string, ql: Option<seq<QuotationRow>>, qr: Option<seq<RevisionRow>>)
    ensures var r := Resolve(sc, serial, ql, qr);
      r.Some? && r.value.source == FromQuotationList ==>
        ql.Some? && FromAdmittedQuotation(sc, serial, ql.value, r.value)
    ensures var r := Resolve(sc, serial, ql, qr);
      r.Some? && r.value.source == FromRevisionList ==>
        ql.Some? && qr.Some? && r.value.revision > 0 && FromAdmittedRevision(sc, serial, qr.value, r.value)
  {
    var r := Resolve(sc, serial, ql, qr);
    if r.Some? {
      var fs := QuotationCandidates(sc, serial, ql.value, true);
      var zero := RevisionZero(fs, FastPathStatus(sc));
      if FastPathStatus(sc).Some? && zero.Some? {
        QuotationCandidateIsRow(sc, serial, ql.value, true, zero.value);
      } else {
        var qs := QuotationCandidates(sc, serial, ql.value, false);
        var cs := Candidates(sc, serial, ql.value, qr.value);
        match HighestIndex(cs)
        case Some(k) =>
          CandidateAt(sc, serial, ql.value, qr.value, k);
          if k < |qs| {
            QuotationCandidateIsRow(sc, serial, ql.value, false, k);
          } else {
            RevisionCandidateIsRow(sc, serial, qr.value, k - |qs|);
          }
        case None =>
          QuotationCandidateIsRow(sc, serial, ql.value, false, RevisionZero(qs, None).value);
      }
    }
  }

  // ---------------------------------------------------------------------------
  // Examples
  // ---------------------------------------------------------------------------

  function ListRow(id: nat, serial: string, revision: string, st: Status): QuotationRow
  {
    QuotationRow(id, serial, revision, "", 0.0, 0.0, 0.0, st, "", "", "")
  }

  function HistoryRow(id: nat, serial: string, revision: string, st: Status): RevisionRow
  {
    RevisionRow(id, serial, revision, "", 0.0, 0.0, 0.0, st, "", "")
  }

  /** The result screen: a QuotationList row with revision "0" and a
      QuotationRevision row with revision "2", both Waiting, resolve to the
      revision-0 row through the fast path. */
  lemma ResultScreenKeepsRevisionZero()
    ensures var r := Resolve(ResultScreen, "R1", Some([ListRow(1, "R1", "0", Waiting)]), Some([HistoryRow(2, "R1", "2", Waiting)]));
      r.Some? && r.value.revision == 0 && r.value.id == 1
  {
    RevOfFormat(0);
    assert FormatInt(0) == "0";
    var ql := [ListRow(1, "R1", "0", Waiting)];
    assert FastRow(ResultScreen, "R1", ql[0]);
    FastPathIgnoresRevisions(ResultScreen, "R1", ql, Some([HistoryRow(2, "R1", "2", Waiting)]));
  }

  /** The same two rows, both Revised, on the revision screen (no fast path)
      resolve to revision 2. */
  lemma RevisionScreenTakesRevisionTwo()
    ensures var r := Resolve(RevisionScreen, "R1", Some([ListRow(1, "R1", "0", Revised)]), Some([HistoryRow(2, "R1", "2", Revised)]));
      r.Some? && r.value.revision == 2 && r.value.id == 2
  {
    RevOfFormat(0);
    RevOfFormat(2);
    assert FormatInt(0) == "0" && FormatInt(2) == "2";
    var ql := [ListRow(1, "R1", "0", Revised)];
    var qr := [HistoryRow(2, "R1", "2", Revised)];
    var a := FromQuotation(RevisionScreen, ql[0], false);
    var b := FromRevision(RevisionScreen, qr[0]);
    assert QuotationAdmitted(RevisionScreen, "R1", ql[0]) && RevisionAdmitted(RevisionScreen, "R1", qr[0]);
    assert QuotationCandidates(RevisionScreen, "R1", ql, false) == [a];
    assert RevisionCandidates(RevisionScreen, "R1", qr) == [b];
    var cs := Candidates(RevisionScreen, "R1", ql, qr);
    assert cs == [a, b];
    assert a.revision == 0 && b.revision == 2;
    assert HighestIndex(cs) == Some(1);
  }

  /** Revision 0 wins on the result screen where revision 2 wins on the
      revision screen. */
  lemma WaitingRevisionZeroWins()
    ensures var r := Resolve(ResultScreen, "R1", Some([ListRow(1, "R1", "0", Waiting)]), Some([HistoryRow(2, "R1", "2", Waiting)]));
      r.Some? && r.value.revision == 0 && r.value.id == 1
    ensures var r := Resolve(RevisionScreen, "R1", Some([ListRow(1, "R1", "0", Revised)]), Some([HistoryRow(2, "R1", "2", Revised)]));
      r.Some? && r.value.revision == 2 && r.value.id == 2
  {
    ResultScreenKeepsRevisionZero();
    RevisionScreenTakesRevisionTwo();
  }

  /** Equal revisions in both lists: the QuotationList row is returned. */
  lemma TieGoesToQuotationList()
    ensures var r := Resolve(ApproveScreen, "R1", Some([ListRow(1, "R1", "1", WorkingDone)]), Some([HistoryRow(2, "R1", "1", WorkingDone)]));
      r.Some? && r.value.source == FromQuotationList && r.value.id == 1
  {
    RevOfFormat(1);
    assert FormatInt(1) == "1";
    var ql := [ListRow(1, "R1", "1", WorkingDone)];
    var qr := [HistoryRow(2, "R1", "1", WorkingDone)];
    assert !FastRow(ApproveScreen, "R1", ql[0]);
    assert QuotationAdmitted(ApproveScreen, "R1", ql[0]) && Rev(ql[0].revision) > 0;
    ResolvedIsHighest(ApproveScreen, "R1", ql, qr);
    ResolvedIsRow(ApproveScreen, "R1", Some(ql), Some(qr));
  }
}
