/** The batch screens (approve, sent, result) list one quotation per RFQ
    serial number: they gather the serial numbers of the QuotationList rows and
    then of the QuotationRevision rows with the screen's status, drop empty and
    repeated values keeping first occurrences, resolve each one, and show the
    resolutions that are not null. */
module Batch {
  import opened Common
  import opened Records
  import opened Resolver

  /** The serial numbers the dedup loop keeps: every non-empty value the first
      time it occurs. */
  function Distinct(xs: seq<string>): (r: seq<string>)
    ensures forall i :: 0 <= i < |r| ==> r[i] != ""
    ensures forall i, j :: 0 <= i < j < |r| ==> r[i] != r[j]
    ensures forall x :: x in r <==> x in xs && x != ""
    decreases |xs|
  {
    if |xs| == 0 then []
    else
      var d := Distinct(xs[..|xs| - 1]);
      var x := xs[|xs| - 1];
      assert xs == xs[..|xs| - 1] + [x];
      if x != "" && x !in d then d + [x] else d
  }

  /** The loop itself: a set of values seen and the list in the order they
      were pushed. */
  method DedupSerials(xs: seq<string>) returns (r: seq<string>)
    ensures r == Distinct(xs)
    ensures forall i, j :: 0 <= i < j < |r| ==> r[i] != r[j]
    ensures forall x :: x in r <==> x in xs && x != ""
  {
    var seen: set<string> := {};
    r := [];
    var i := 0;
    while i < |xs|
      invariant 0 <= i <= |xs|
      invariant r == Distinct(xs[..i])
      invariant forall x :: x in seen <==> x in r
    {
      var x := xs[i];
      assert xs[..i + 1][..i] == xs[..i];
      if x != "" && x !in seen {
        seen := seen + {x};
        r := r + [x];
      }
      i := i + 1;
    }
    assert xs[..|xs|] == xs;
  }

  /** A value precedes another in the result when its first occurrence comes
      first in the input. */
  lemma {:induction false} DistinctKeepsFirstOrder(xs: seq<string>, i: nat, j: nat)
    requires i < j < |xs| && xs[i] != "" && xs[j] != "" && xs[j] !in xs[..j]
    ensures exists a, b :: 0 <= a < b < |Distinct(xs)| && Distinct(xs)[a] == xs[i] && Distinct(xs)[b] == xs[j]
    decreases |xs|
  {
    var n := |xs|;
    var p := xs[..n - 1];
    var d := Distinct(p);
    if j == n - 1 {
      assert xs[i] in p;
      var a :| 0 <= a < |d| && d[a] == xs[i];
      assert xs[j] !in d;
      assert Distinct(xs) == d + [xs[j]];
      assert Distinct(xs)[a] == xs[i] && Distinct(xs)[|d|] == xs[j];
    } else {
      assert p[..j] == xs[..j];
      DistinctKeepsFirstOrder(p, i, j);
      var a, b :| 0 <= a < b < |d| && d[a] == xs[i] && d[b] == xs[j];
      assert Distinct(xs)[..|d|] == d;
      assert Distinct(xs)[a] == xs[i] && Distinct(xs)[b] == xs[j];
    }
  }

  /** The resolutions that are not null, in order. */
  function Present<T(!new)>(xs: seq<Option<T>>): (r: seq<T>)
    ensures |r| <= |xs|
    ensures forall y :: y in r <==> Some(y) in xs
    decreases |xs|
  {
    if |xs| == 0 then []
    else
      var p := Present(xs[..|xs| - 1]);
      assert xs == xs[..|xs| - 1] + [xs[|xs| - 1]];
      match xs[|xs| - 1]
      case None => p
      case Some(y) => p + [y]
  }

  /** One more resolution at the end adds its value, if any, at the end. */
  lemma PresentSnoc<T(!new)>(xs: seq<Option<T>>, x: Option<T>)
    ensures Present(xs + [x]) == Present(xs) + match x case None => [] case Some(v) => [v]
  {
    assert (xs + [x])[..|xs|] == xs;
  }

  /** The resolver run for each serial number on its own: `ql(s)` and
      `qr(s)` are the two lists as the queries for s read them, None where
      that read failed. A failure makes only that serial number's resolution
      null; the batch goes on. */
  function ResolveEach(sc: Screen, ql: string -> Option<seq<QuotationRow>>, qr: string -> Option<seq<RevisionRow>>): (f: string -> Option<Resolved>)
    ensures forall s :: f(s) == Resolve(sc, s, ql(s), qr(s))
  {
    (s: string) => Resolve(sc, s, ql(s), qr(s))
  }

  /** The list a batch screen shows, given the serial numbers its two queries
      returned (QuotationList first) and each serial number's reads. */
  function LoadBatch(sc: Screen, serials: seq<string>, ql: string -> Option<seq<QuotationRow>>, qr: string -> Option<seq<RevisionRow>>): (qs: seq<Resolved>)
    ensures |qs| <= |Distinct(serials)|
  {
    Present(Map(Distinct(serials), ResolveEach(sc, ql, qr)))
  }

  /** One more serial number at the end of the query results adds at most its
      own resolution, at the end of the list: nothing when it is empty, already
      seen, or resolves to null (a failed read included); otherwise exactly its
      resolution. So the list holds one entry per distinct serial number that
      resolves, in the order of first occurrence. */
  lemma LoadBatchSnoc(sc: Screen, serials: seq<string>, x: string,
                      ql: string -> Option<seq<QuotationRow>>, qr: string -> Option<seq<RevisionRow>>)
    ensures x == "" || x in serials ==> LoadBatch(sc, serials + [x], ql, qr) == LoadBatch(sc, serials, ql, qr)
    ensures x != "" && x !in serials ==>
      LoadBatch(sc, serials + [x], ql, qr) == LoadBatch(sc, serials, ql, qr)
        + match Resolve(sc, x, ql(x), qr(x)) case None => [] case Some(q) => [q]
  {
    var xs := serials + [x];
    var f := ResolveEach(sc, ql, qr);
    assert xs[..|xs| - 1] == serials;
    var d := Distinct(serials);
    if x != "" && x !in serials {
      assert Distinct(xs) == d + [x];
      assert Map(d + [x], f) == Map(d, f) + [f(x)];
      PresentSnoc(Map(d, f), f(x));
    } else {
      assert Distinct(xs) == d;
    }
  }

  /** A serial number whose QuotationList read fails adds nothing. */
  lemma FailedReadSkipped(sc: Screen, serials: seq<string>, x: string,
                          ql: string -> Option<seq<QuotationRow>>, qr: string -> Option<seq<RevisionRow>>)
    requires ql(x).None?
    ensures LoadBatch(sc, serials + [x], ql, qr) == LoadBatch(sc, serials, ql, qr)
  {
    LoadBatchSnoc(sc, serials, x, ql, qr);
  }

  /** A value is present after mapping exactly when some element maps to it. */
  lemma PresentMapMembers<T, U(!new)>(xs: seq<T>, f: T -> Option<U>, u: U)
    ensures u in Present(Map(xs, f)) <==> exists x :: x in xs && f(x) == Some(u)
  {
    var rs := Map(xs, f);
    if Some(u) in rs {
      var i :| 0 <= i < |rs| && rs[i] == Some(u);
      assert xs[i] in xs;
    }
    if exists x :: x in xs && f(x) == Some(u) {
      var x :| x in xs && f(x) == Some(u);
      var i :| 0 <= i < |xs| && xs[i] == x;
      assert rs[i] == Some(u);
    }
  }

  /** A quotation is shown exactly when it is the resolution of a non-empty
      serial number of the input; a serial number the resolver maps to null
      contributes nothing. */
  lemma LoadBatchMembers(sc: Screen, serials: seq<string>,
                         ql: string -> Option<seq<QuotationRow>>, qr: string -> Option<seq<RevisionRow>>, q: Resolved)
    ensures q in LoadBatch(sc, serials, ql, qr) <==>
      exists s :: s in serials && s != "" && Resolve(sc, s, ql(s), qr(s)) == Some(q)
  {
    PresentMapMembers(Distinct(serials), ResolveEach(sc, ql, qr), q);
  }
}
