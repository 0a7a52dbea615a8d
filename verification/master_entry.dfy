/** The material master screen: MaterialList rows are added, edited in
    place and deleted by id. Each SharePoint helper of this screen reports its
    own failure and returns normally, so the screen's state changes whether or
    not the write reached the list. */
module MasterEntry {
  import opened Common

  /** A material as the screen holds it. An id of 0 stands for a material
      without one (JavaScript's falsy id); dates are opaque strings, "" being
      no date. */
  datatype Material = Material(
    id: nat,
    partNumber: string,
    length: string,
    width: string,
    thickness: string,
    material: string,
    weight: string,
    rate: string,
    date: string)

  /** The form fields. */
  datatype MaterialForm = MaterialForm(
    partNumber: string,
    length: string,
    width: string,
    thickness: string,
    material: string,
    weight: string,
    rate: string,
    date: string)

  const EmptyForm: MaterialForm := MaterialForm("", "", "", "", "", "", "", "")

  /** MaterialList with the id its next row will get. */
  datatype MaterialList = MaterialList(rows: seq<Material>, nextId: nat)

  datatype Master = Master(
    form: MaterialForm,
    materials: seq<Material>,
    editing: Option<nat>,
    formOpen: bool,
    deleting: Option<Material>,
    deleteOpen: bool)

  function MaterialId(m: Material): nat { m.id }

  function FromForm(f: MaterialForm, id: nat): (m: Material)
  {
    Material(id, f.partNumber, f.length, f.width, f.thickness, f.material, f.weight, f.rate, f.date)
  }

  function ToForm(m: Material): (f: MaterialForm)
  {
    MaterialForm(m.partNumber, m.length, m.width, m.thickness, m.material, m.weight, m.rate, m.date)
  }

  /** A material read back into the form and out again is the same material. */
  lemma FormRoundTrip(m: Material)
    ensures FromForm(ToForm(m), m.id) == m
  {
  }

  /** `loadMaterialsFromSharePoint`: every row, with a missing date read as
      the time of loading. */
  function Load(l: MaterialList, now: string): (r: seq<Material>)
    ensures |r| == |l.rows|
    ensures forall i :: 0 <= i < |r| ==> r[i] == l.rows[i].(date := OrElse(l.rows[i].date, now))
  {
    Map(l.rows, (m: Material) => m.(date := OrElse(m.date, now)))
  }

  /** `editMaterialInSharePoint`: without an id nothing is written; the rows
      with the material's id take its values. */
  function UpdateRow(l: MaterialList, m: Material, fails: bool): (r: MaterialList)
    ensures m.id == 0 || fails ==> r == l
    ensures m.id != 0 && !fails ==>
      r.nextId == l.nextId && |r.rows| == |l.rows|
      && forall i :: 0 <= i < |l.rows| ==> r.rows[i] == if l.rows[i].id == m.id then m else l.rows[i]
  {
    if m.id == 0 || fails then l
    else l.(rows := MapWhere(l.rows, (x: Material) => x.id == m.id, (x: Material) => m))
  }

  /** `addPartNumberToSharePoint`: one row, with the next id. */
  function AddRow(l: MaterialList, f: MaterialForm, fails: bool): (r: MaterialList)
    ensures fails ==> r == l
    ensures !fails ==> r == MaterialList(l.rows + [FromForm(f, l.nextId)], l.nextId + 1)
  {
    if fails then l else MaterialList(l.rows + [FromForm(f, l.nextId)], l.nextId + 1)
  }

  /** `deleteMaterialInSharePoint`: without an id nothing is deleted. */
  function DeleteRow(l: MaterialList, id: nat, fails: bool): (r: MaterialList)
    ensures id == 0 || fails ==> r == l
    ensures id != 0 && !fails ==> r.nextId == l.nextId && forall x :: x in r.rows <==> x in l.rows && x.id != id
  {
    if id == 0 || fails then l else l.(rows := DropIds(l.rows, MaterialId, {id}))
  }

  /** `editMaterial`: the form takes the material at index k and the screen
      remembers k. */
  function EditMaterial(st: Master, k: nat): (r: Master)
    requires k < |st.materials|
    ensures r.form == ToForm(st.materials[k]) && r.editing == Some(k) && r.formOpen
    ensures r.materials == st.materials
  {
    st.(form := ToForm(st.materials[k]), formOpen := true, editing := Some(k))
  }

  /** `addMaterial`. Without a date nothing happens. When the edited index
      is past the end of the list the id lookup throws before anything
      changes. Editing replaces the material at that index with the form's
      values under the material's own id and clears the index; adding writes
      a row and reloads the list (a failed reload keeps the list on screen).
      Either way the form is then cleared and closed. */
  function AddMaterial(l: MaterialList, st: Master, writeFails: bool, reloadFails: bool, now: string): (r: (MaterialList, Master))
    ensures st.form.date == "" ==> r == (l, st)
    ensures st.editing.Some? && st.editing.value >= |st.materials| ==> r == (l, st)
    ensures st.form.date != "" && st.editing.Some? && st.editing.value < |st.materials| ==>
      var k := st.editing.value;
      var m := FromForm(st.form, st.materials[k].id);
      r.0 == UpdateRow(l, m, writeFails)
      && |r.1.materials| == |st.materials| && r.1.materials[k] == m && r.1.materials[k].id == st.materials[k].id
      && (forall j :: 0 <= j < |st.materials| && j != k ==> r.1.materials[j] == st.materials[j])
      && r.1.editing.None?
    ensures st.form.date != "" && st.editing.None? ==>
      r.0 == AddRow(l, st.form, writeFails)
      && r.1.materials == (if reloadFails then st.materials else Load(r.0, now))
      && r.1.editing.None?
    ensures st.form.date != "" && (st.editing.None? || st.editing.value < |st.materials|) ==>
      r.1.form == EmptyForm && !r.1.formOpen && r.1.deleting == st.deleting && r.1.deleteOpen == st.deleteOpen
  {
    if st.form.date == "" then (l, st)
    else match st.editing
      case Some(k) =>
        if k >= |st.materials| then (l, st)
        else
          var m := FromForm(st.form, st.materials[k].id);
          (UpdateRow(l, m, writeFails),
           st.(materials := ReplaceAt(st.materials, k, m), editing := None, form := EmptyForm, formOpen := false))
      case None =>
        var l' := AddRow(l, st.form, writeFails);
        (l', st.(materials := if reloadFails then st.materials else Load(l', now), form := EmptyForm, formOpen := false))
  }

  /** Opening a material and saving it unchanged leaves the screen's list as
      it was and writes the material back over its own row. */
  lemma EditUnchangedKeepsList(l: MaterialList, st: Master, k: nat, now: string)
    requires k < |st.materials| && st.materials[k].date != ""
    ensures var r := AddMaterial(l, EditMaterial(st, k), false, false, now);
      r.1.materials == st.materials
      && (st.materials[k].id != 0 ==> r.0 == UpdateRow(l, st.materials[k], false))
  {
    var e := EditMaterial(st, k);
    var r := AddMaterial(l, e, false, false, now);
    FormRoundTrip(st.materials[k]);
    assert r.1.materials == st.materials;
  }

  /** An added material is in the reloaded list, under the id it was given. */
  lemma AddedMaterialListed(l: MaterialList, st: Master, now: string)
    requires st.form.date != "" && st.editing.None?
    ensures var r := AddMaterial(l, st, false, false, now);
      |r.1.materials| == |l.rows| + 1 && r.1.materials[|l.rows|] == FromForm(st.form, l.nextId)
  {
  }

  /** `deleteMaterial`: open the confirmation for a material. */
  function AskDelete(st: Master, m: Material): (r: Master)
    ensures r.deleting == Some(m) && r.deleteOpen && r.materials == st.materials
  {
    st.(deleting := Some(m), deleteOpen := true)
  }

  /** `confirmDelete`. With no material or no id nothing happens. Otherwise
      the row is deleted and every material with that id leaves the screen's
      list, whether or not the delete reached the list, and the confirmation
      closes. */
  function ConfirmDelete(l: MaterialList, st: Master, fails: bool): (r: (MaterialList, Master))
    ensures st.deleting.None? || st.deleting.value.id == 0 ==> r == (l, st)
    ensures st.deleting.Some? && st.deleting.value.id != 0 ==>
      var id := st.deleting.value.id;
      r.0 == DeleteRow(l, id, fails)
      && (forall x :: x in r.1.materials <==> x in st.materials && x.id != id)
      && r.1.deleting.None? && !r.1.deleteOpen && r.1.form == st.form && r.1.editing == st.editing
  {
    match st.deleting
    case None => (l, st)
    case Some(m) =>
      if m.id == 0 then (l, st)
      else (DeleteRow(l, m.id, fails),
            st.(materials := DropIds(st.materials, MaterialId, {m.id}), deleting := None, deleteOpen := false))
  }

  /** The screen's list after a delete keeps the other materials in their
      order: it is the list with that id dropped, and deleting the same
      material again changes nothing. */
  lemma ConfirmDeleteTwice(l: MaterialList, st: Master, m: Material)
    requires m.id != 0
    ensures var (l1, s1) := ConfirmDelete(l, AskDelete(st, m), false);
      var (l2, s2) := ConfirmDelete(l1, AskDelete(s1, m), false);
      s2.materials == s1.materials && l2.rows == l1.rows
  {
    DropIdsTwice(st.materials, MaterialId, {m.id}, {m.id});
    DropIdsTwice(l.rows, MaterialId, {m.id}, {m.id});
    assert {m.id} + {m.id} == {m.id};
  }
}
