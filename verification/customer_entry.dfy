/** The customer screen: CustomerList rows with their mobile numbers stored
    as one ", "-joined string, a case-insensitive name search, and add, edit
    and delete from the searched table. Each SharePoint helper of this screen
    reports its own failure and returns normally, so the screen's state
    changes whether or not the write reached the list. */
module CustomerEntry {
  import opened Common

  // ---------------------------------------------------------------------------
  // Mobile numbers: `join(", ")` and `split(", ")`
  // ---------------------------------------------------------------------------

  const Sep: string := ", "

  /** The separator starts at index i of s. */
  predicate SepAt(s: string, i: int)
  {
    0 <= i && i + 1 < |s| && s[i] == ',' && s[i + 1] == ' '
  }

  predicate HasSep(s: string)
  {
    exists i :: 0 <= i < |s| && SepAt(s, i)
  }

  /** The first separator at or after `from`, as `indexOf` finds it. */
  function FirstSep(s: string, from: nat): (r: Option<nat>)
    ensures r.Some? ==> from <= r.value && SepAt(s, r.value)
    ensures r.Some? ==> forall j :: from <= j < r.value ==> !SepAt(s, j)
    ensures r.None? ==> forall j :: from <= j ==> !SepAt(s, j)
    decreases |s| - from
  {
    if from + 1 >= |s| then None
    else if SepAt(s, from) then Some(from)
    else FirstSep(s, from + 1)
  }

  /** `s.split(", ")`: the pieces between separators, found left to right;
      never empty. */
  function Split(s: string): (r: seq<string>)
    ensures |r| >= 1
    decreases |s|
  {
    match FirstSep(s, 0)
    case None => [s]
    case Some(i) => [s[..i]] + Split(s[i + 2..])
  }

  /** `xs.join(", ")`. */
  function Join(xs: seq<string>): (r: string)
    ensures |xs| == 1 ==> r == xs[0]
    ensures |xs| >= 2 ==> |r| >= 2
    decreases |xs|
  {
    if |xs| == 0 then "" else if |xs| == 1 then xs[0] else xs[0] + Sep + Join(xs[1..])
  }

  /** The numbers read back from the stored column: an empty column is no
      numbers at all. */
  function LoadMobiles(s: string): (r: seq<string>)
    ensures s == "" <==> r == []
  {
    if s == "" then [] else Split(s)
  }

  /** In `x + ", " + rest` with no separator inside x, the first separator is
      the joining one. */
  lemma JoiningSepIsFirst(x: string, rest: string)
    requires !HasSep(x)
    ensures FirstSep(x + Sep + rest, 0) == Some(|x|)
  {
    var s := x + Sep + rest;
    assert SepAt(s, |x|);
    forall j | 0 <= j < |x| ensures !SepAt(s, j) {
      if j + 1 < |x| {
        assert s[j] == x[j] && s[j + 1] == x[j + 1];
        assert !SepAt(x, j);
      } else {
        assert s[j + 1] == ',';
      }
    }
  }

  lemma {:induction false} SplitJoin(xs: seq<string>)
    requires |xs| >= 1
    requires forall i :: 0 <= i < |xs| ==> !HasSep(xs[i])
    ensures Split(Join(xs)) == xs
    decreases |xs|
  {
    if |xs| == 1 {
      assert FirstSep(xs[0], 0).None?;
    } else {
      var x := xs[0];
      var rest := Join(xs[1..]);
      var s := x + Sep + rest;
      assert Join(xs) == s;
      JoiningSepIsFirst(x, rest);
      assert s[..|x|] == x;
      assert s[|x| + 2..] == rest;
      SplitJoin(xs[1..]);
      assert xs == [x] + xs[1..];
    }
  }

  /** The stored column reads back as the numbers that were written, unless
      a number holds the separator or the only number is blank (the form's
      default), which reads back as no numbers. */
  lemma MobilesRoundTrip(xs: seq<string>)
    requires forall i :: 0 <= i < |xs| ==> !HasSep(xs[i])
    ensures xs != [""] ==> LoadMobiles(Join(xs)) == xs
    ensures LoadMobiles(Join([""])) == []
  {
    if |xs| >= 1 && xs != [""] {
      SplitJoin(xs);
      if |xs| == 1 {
        assert Join(xs) == xs[0];
      }
    }
  }

  // ---------------------------------------------------------------------------
  // Customers and CustomerList
  // ---------------------------------------------------------------------------

  /** A customer as the screen holds it; an id of 0 stands for none. */
  datatype Customer = Customer(
    id: nat,
    name: string,
    address: string,
    mobiles: seq<string>,
    email: string,
    gst: string,
    contact: string)

  /** The form after a reset: one blank mobile number, no id. */
  const EmptyCustomer: Customer := Customer(0, "", "", [""], "", "", "")

  datatype CustomerRow = CustomerRow(
    id: nat,
    name: string,
    address: string,
    email: string,
    gst: string,
    contact: string,
    mobile: string)

  datatype CustomerList = CustomerList(rows: seq<CustomerRow>, nextId: nat)

  function ToRow(c: Customer, id: nat): (r: CustomerRow)
  {
    CustomerRow(id, c.name, c.address, c.email, c.gst, c.contact, Join(c.mobiles))
  }

  function FromRow(r: CustomerRow): (c: Customer)
  {
    Customer(r.id, r.name, r.address, LoadMobiles(r.mobile), r.email, r.gst, r.contact)
  }

  /** `loadCustomersFromSharePoint`. */
  function Load(l: CustomerList): (r: seq<Customer>)
    ensures |r| == |l.rows|
    ensures forall i :: 0 <= i < |r| ==>
      r[i].id == l.rows[i].id && r[i].name == l.rows[i].name && r[i].mobiles == LoadMobiles(l.rows[i].mobile)
  {
    Map(l.rows, FromRow)
  }

  function CustomerId(r: CustomerRow): nat { r.id }

  /** A customer stored and read back is the same customer under the id
      the row got, when its numbers survive the join. */
  lemma StoredCustomerReadsBack(c: Customer, id: nat)
    requires c.mobiles != [""] && forall i :: 0 <= i < |c.mobiles| ==> !HasSep(c.mobiles[i])
    ensures FromRow(ToRow(c, id)) == c.(id := id)
  {
    MobilesRoundTrip(c.mobiles);
  }

  // ---------------------------------------------------------------------------
  // Search
  // ---------------------------------------------------------------------------

  /** `toLowerCase` on the ASCII letters. */
  function LowerChar(c: char): (r: char)
    ensures !('A' <= r <= 'Z')
    ensures !('A' <= c <= 'Z') ==> r == c
  {
    if 'A' <= c <= 'Z' then (c as int + 32) as char else c
  }

  function Lower(s: string): (r: string)
    ensures |r| == |s|
    ensures forall i :: 0 <= i < |s| ==> r[i] == LowerChar(s[i])
  {
    seq(|s|, i requires 0 <= i < |s| => LowerChar(s[i]))
  }

  lemma LowerTwice(s: string)
    ensures Lower(Lower(s)) == Lower(s)
  {
  }

  predicate OccursAt(hay: string, needle: string, i: int)
  {
    0 <= i && i + |needle| <= |hay| && hay[i..i + |needle|] == needle
  }

  /** `hay.indexOf(needle) !== -1`. */
  predicate Contains(hay: string, needle: string)
  {
    exists i :: 0 <= i <= |hay| && OccursAt(hay, needle, i)
  }

  predicate Matches(c: Customer, lowered: string)
  {
    Contains(Lower(c.name), lowered)
  }

  function SearchLower(cs: seq<Customer>, lowered: string): (r: seq<Customer>)
  {
    Filter(cs, (c: Customer) => Matches(c, lowered))
  }

  /** `filteredCustomers`: the customers whose lower-cased name contains the
      lower-cased query, in list order. */
  function Search(cs: seq<Customer>, query: string): (r: seq<Customer>)
    ensures |r| <= |cs|
    ensures forall i :: 0 <= i < |r| ==> r[i] in cs && Matches(r[i], Lower(query))
    ensures forall i :: 0 <= i < |cs| && Matches(cs[i], Lower(query)) ==> cs[i] in r
  {
    SearchLower(cs, Lower(query))
  }

  /** An empty query shows every customer; the query's case does not matter. */
  lemma SearchQueries(cs: seq<Customer>, query: string)
    ensures Search(cs, "") == cs
    ensures Search(cs, Lower(query)) == Search(cs, query)
  {
    var e := Lower("");
    assert e == "";
    forall c: Customer ensures Matches(c, e) {
      assert OccursAt(Lower(c.name), e, 0);
    }
    FilterAll(cs, (c: Customer) => Matches(c, e));
    LowerTwice(query);
  }

  /** Index in the full list of the k-th customer shown. */
  function ShownIndex(cs: seq<Customer>, lowered: string, k: nat): (r: nat)
    requires k < |SearchLower(cs, lowered)|
    ensures r < |cs| && cs[r] == SearchLower(cs, lowered)[k]
    decreases |cs|
  {
    if Matches(cs[0], lowered) then
      if k == 0 then 0 else 1 + ShownIndex(cs[1..], lowered, k - 1)
    else 1 + ShownIndex(cs[1..], lowered, k)
  }

  // ---------------------------------------------------------------------------
  // The screen
  // ---------------------------------------------------------------------------

  datatype CustomerScreen = CustomerScreen(
    customers: seq<Customer>,
    form: Customer,
    editing: Option<nat>,
    query: string,
    formOpen: bool,
    deleteIndex: Option<nat>,
    deleteOpen: bool)

  /** `addMobileNumber`: one more blank number. */
  function AddMobileNumber(f: Customer): (r: Customer)
    ensures r == f.(mobiles := r.mobiles)
    ensures |r.mobiles| == |f.mobiles| + 1 && r.mobiles[..|f.mobiles|] == f.mobiles && r.mobiles[|f.mobiles|] == ""
  {
    f.(mobiles := f.mobiles + [""])
  }

  /** `handleMobileChange`: number i, one of those shown, takes the value. */
  function ChangeMobile(f: Customer, i: nat, value: string): (r: Customer)
    requires i < |f.mobiles|
    ensures r == f.(mobiles := r.mobiles) && |r.mobiles| == |f.mobiles| && r.mobiles[i] == value
    ensures forall j :: 0 <= j < |f.mobiles| && j != i ==> r.mobiles[j] == f.mobiles[j]
  {
    f.(mobiles := ReplaceAt(f.mobiles, i, value))
  }

  /** Adding a number and typing into it extends the numbers by that value. */
  lemma AddThenTypeMobile(f: Customer, value: string)
    ensures ChangeMobile(AddMobileNumber(f), |f.mobiles|, value).mobiles == f.mobiles + [value]
  {
    var r := ChangeMobile(AddMobileNumber(f), |f.mobiles|, value);
    assert r.mobiles[..|f.mobiles|] == f.mobiles;
    assert r.mobiles == r.mobiles[..|f.mobiles|] + [value];
  }

  /** `editCustomerInSharePoint`: without an id nothing is written. */
  function UpdateRow(l: CustomerList, c: Customer, fails: bool): (r: CustomerList)
    ensures c.id == 0 || fails ==> r == l
    ensures c.id != 0 && !fails ==>
      r.nextId == l.nextId && |r.rows| == |l.rows|
      && forall i :: 0 <= i < |l.rows| ==> r.rows[i] == if l.rows[i].id == c.id then ToRow(c, c.id) else l.rows[i]
  {
    if c.id == 0 || fails then l
    else l.(rows := MapWhere(l.rows, (x: CustomerRow) => x.id == c.id, (x: CustomerRow) => ToRow(c, c.id)))
  }

  /** `addCustomerToSharePoint`. */
  function AddRow(l: CustomerList, c: Customer, fails: bool): (r: CustomerList)
    ensures fails ==> r == l
    ensures !fails ==> r == CustomerList(l.rows + [ToRow(c, l.nextId)], l.nextId + 1)
  {
    if fails then l else CustomerList(l.rows + [ToRow(c, l.nextId)], l.nextId + 1)
  }

  /** `addOrUpdateCustomer1`. Without a name nothing happens. When editing,
      the row is updated and the form's customer replaces the one at the
      editing index, which is cleared; otherwise a row is added and the form's
      customer appended. Then the form is reset and closed. */
  function AddOrUpdate(l: CustomerList, st: CustomerScreen, fails: bool): (r: (CustomerList, CustomerScreen))
    ensures st.form.name == "" ==> r == (l, st)
    ensures st.form.name != "" && st.editing.Some? ==>
      var k := st.editing.value;
      r.0 == UpdateRow(l, st.form, fails) && r.1.editing.None?
      && (k < |st.customers| ==> r.1.customers == ReplaceAt(st.customers, k, st.form))
    ensures st.form.name != "" && st.editing.None? ==>
      r.0 == AddRow(l, st.form, fails) && r.1.customers == st.customers + [st.form] && r.1.editing.None?
    ensures st.form.name != "" ==>
      r.1.form == EmptyCustomer && !r.1.formOpen && r.1.query == st.query
      && r.1.deleteIndex == st.deleteIndex && r.1.deleteOpen == st.deleteOpen
  {
    if st.form.name == "" then (l, st)
    else
      var reset := st.(form := EmptyCustomer, formOpen := false);
      match st.editing
      case Some(k) =>
        (UpdateRow(l, st.form, fails),
         reset.(customers := if k < |st.customers| then ReplaceAt(st.customers, k, st.form) else st.customers,
                editing := None))
      case None =>
        (AddRow(l, st.form, fails), reset.(customers := st.customers + [st.form]))
  }

  /** A customer added and then loaded back is the form's customer under the
      id its row got. */
  lemma AddedCustomerLoads(l: CustomerList, st: CustomerScreen)
    requires st.form.name != "" && st.editing.None?
    requires st.form.mobiles != [""] && forall i :: 0 <= i < |st.form.mobiles| ==> !HasSep(st.form.mobiles[i])
    ensures var r := AddOrUpdate(l, st, false);
      var loaded := Load(r.0);
      |loaded| == |l.rows| + 1 && loaded[|l.rows|] == st.form.(id := l.nextId)
  {
    var r := AddOrUpdate(l, st, false);
    assert r.0.rows[|l.rows|] == ToRow(st.form, l.nextId);
    StoredCustomerReadsBack(st.form, l.nextId);
  }

  /** `deleteCustomer`. Nothing happens without a delete index, past the end
      of the list (the id lookup throws) or when the customer has no id.
      Otherwise the row is deleted and the customer at that index leaves the
      list, whether or not the delete reached the list. */
  function DeleteCustomer(l: CustomerList, st: CustomerScreen, fails: bool): (r: (CustomerList, CustomerScreen))
    ensures st.deleteIndex.None? ==> r == (l, st)
    ensures st.deleteIndex.Some? && st.deleteIndex.value < |st.customers| && st.customers[st.deleteIndex.value].id != 0 ==>
      var k := st.deleteIndex.value;
      var id := st.customers[k].id;
      r.1.customers == RemoveAt(st.customers, k) && r.1.deleteIndex.None? && !r.1.deleteOpen
      && (fails ==> r.0 == l)
      && (!fails ==> r.0.nextId == l.nextId && forall x :: x in r.0.rows <==> x in l.rows && x.id != id)
    ensures st.deleteIndex.Some? && (st.deleteIndex.value >= |st.customers| || st.customers[st.deleteIndex.value].id == 0) ==>
      r == (l, st)
  {
    match st.deleteIndex
    case None => (l, st)
    case Some(k) =>
      if k >= |st.customers| || st.customers[k].id == 0 then (l, st)
      else
        var id := st.customers[k].id;
        (if fails then l else l.(rows := DropIds(l.rows, CustomerId, {id})),
         st.(customers := RemoveAt(st.customers, k), deleteIndex := None, deleteOpen := false))
  }

  // ---------------------------------------------------------------------------
  // Table actions: the row index the table passes
  // ---------------------------------------------------------------------------

  /** The table's Edit and Delete buttons pass the row's index among the
      customers shown, and `editCustomer` and `showDeleteModal` use it as an
      index into the full list. */
  function AskDeleteAsWritten(st: CustomerScreen, k: nat): (r: CustomerScreen)
    requires k < |Search(st.customers, st.query)|
    ensures r.deleteIndex == Some(k) && r.deleteOpen && r.customers == st.customers
  {
    st.(deleteIndex := Some(k), deleteOpen := true)
  }

  function EditAsWritten(st: CustomerScreen, k: nat): (r: CustomerScreen)
    requires k < |Search(st.customers, st.query)|
    ensures r.form == st.customers[k] && r.editing == Some(k) && r.formOpen
  {
    st.(form := st.customers[k], editing := Some(k), formOpen := true)
  }

  /** With two customers "a" and "b" and the query "b", the table shows only
      "b", yet deleting its one row removes "a"; editing it opens "a". */
  lemma AsWrittenHitsHiddenCustomer()
    ensures var a := Customer(1, "a", "", [], "", "", "");
      var b := Customer(2, "b", "", [], "", "", "");
      var st := CustomerScreen([a, b], EmptyCustomer, None, "b", false, None, false);
      Search(st.customers, st.query) == [b]
      && DeleteCustomer(CustomerList([], 3), AskDeleteAsWritten(st, 0), true).1.customers == [b]
      && EditAsWritten(st, 0).form == a
  {
    var a := Customer(1, "a", "", [], "", "", "");
    var b := Customer(2, "b", "", [], "", "", "");
    var cs := [a, b];
    assert Lower("b") == "b";
    assert Lower("a") == "a";
    assert !Matches(a, "b") by {
      assert Lower(a.name) == "a";
      assert "a"[0..1] == "a";
      assert !Contains("a", "b");
    }
    assert Matches(b, "b") by {
      assert Lower(b.name) == "b";
      assert OccursAt("b", "b", 0);
    }
    var p := (c: Customer) => Matches(c, "b");
    assert Filter(cs[1..][1..], p) == [];
    assert Filter(cs[1..], p) == [b];
    assert Filter(cs, p) == [b];
    assert RemoveAt(cs, 0) == [b];
  }

  /** The table's row index mapped to the full list before it is used. */
  function AskDelete(st: CustomerScreen, k: nat): (r: CustomerScreen)
    requires k < |Search(st.customers, st.query)|
    ensures r.deleteIndex.Some? && r.deleteIndex.value < |st.customers|
    ensures st.customers[r.deleteIndex.value] == Search(st.customers, st.query)[k]
    ensures r.deleteOpen && r.customers == st.customers
  {
    st.(deleteIndex := Some(ShownIndex(st.customers, Lower(st.query), k)), deleteOpen := true)
  }

  function EditCustomer(st: CustomerScreen, k: nat): (r: CustomerScreen)
    requires k < |Search(st.customers, st.query)|
    ensures r.form == Search(st.customers, st.query)[k] && r.formOpen
    ensures r.editing.Some? && r.editing.value < |st.customers| && st.customers[r.editing.value] == r.form
  {
    var i := ShownIndex(st.customers, Lower(st.query), k);
    st.(form := st.customers[i], editing := Some(i), formOpen := true)
  }

  /** Deleting a shown row removes the customer that row shows. */
  lemma DeleteShownRemovesShown(l: CustomerList, st: CustomerScreen, k: nat, fails: bool)
    requires k < |Search(st.customers, st.query)| && Search(st.customers, st.query)[k].id != 0
    ensures var asked := AskDelete(st, k);
      var i := asked.deleteIndex.value;
      st.customers[i] == Search(st.customers, st.query)[k]
      && DeleteCustomer(l, asked, fails).1.customers == RemoveAt(st.customers, i)
  {
  }

  /** Saving an opened row unchanged leaves the list as it was. */
  lemma EditShownUnchangedKeepsList(l: CustomerList, st: CustomerScreen, k: nat, fails: bool)
    requires k < |Search(st.customers, st.query)| && Search(st.customers, st.query)[k].name != ""
    ensures AddOrUpdate(l, EditCustomer(st, k), fails).1.customers == st.customers
  {
    var e := EditCustomer(st, k);
    var i := e.editing.value;
    assert ReplaceAt(st.customers, i, st.customers[i]) == st.customers;
  }
}
