/**
 * The master-data tables of the administration screen: how a record is
 * shown as a table row (`createMasterRow`), the blank record a new row
 * starts from (`addMasterRow`), and how the rows are read back into the
 * records `saveMaster` posts. The table row is modelled by the values its
 * controls hold; drawing it is left out.
 */
module AdminMaster {
  import opened Common
  import Text

  /** A JavaScript value as a record field may hold it. */
  datatype JsValue = Undefined | Null | Bool(b: bool) | Str(s: string) | Num(n: int)

  /** JavaScript truthiness. */
  predicate JsTruthy(v: JsValue)
  {
    match v
    case Undefined => false
    case Null => false
    case Bool(b) => b
    case Str(s) => s != ""
    case Num(n) => n != 0
  }

  /** `String(v)` (integers only). */
  function ToText(v: JsValue): string
  {
    match v
    case Undefined => "undefined"
    case Null => "null"
    case Bool(b) => if b then "true" else "false"
    case Str(s) => s
    case Num(n) => if n < 0 then "-" + Text.ToDecimal(-n) else Text.ToDecimal(n)
  }

  /** How a column is edited. */
  datatype FieldKind = ReadOnly | FacilitySelect | Checkbox | TextInput

  /** One column of a master table. */
  datatype FieldDef = FieldDef(key: string, kind: FieldKind)

  /** A master table: the key that identifies a record, and the columns. */
  datatype MasterDef = MasterDef(idField: string, fields: seq<FieldDef>)

  const Enabled: string := "有効"

  const UserDef: MasterDef := MasterDef("利用者ID", [
    FieldDef("利用者ID", ReadOnly), FieldDef("氏名", TextInput), FieldDef("フリガナ", TextInput),
    FieldDef("住所", TextInput), FieldDef("事業所ID", FacilitySelect), FieldDef("備考", TextInput),
    FieldDef(Enabled, Checkbox)])

  const VehicleDef: MasterDef := MasterDef("車両ID", [
    FieldDef("車両ID", ReadOnly), FieldDef("車両名", TextInput), FieldDef("車種", TextInput),
    FieldDef("ナンバー", TextInput), FieldDef("定員", TextInput), FieldDef("事業所ID", FacilitySelect),
    FieldDef(Enabled, Checkbox)])

  const CourseDef: MasterDef := MasterDef("コースID", [
    FieldDef("コースID", ReadOnly), FieldDef("コース名", TextInput), FieldDef("事業所ID", FacilitySelect),
    FieldDef(Enabled, Checkbox)])

  const FacilityDef: MasterDef := MasterDef("事業所ID", [
    FieldDef("事業所ID", ReadOnly), FieldDef("事業所名", TextInput), FieldDef("デフォルト", Checkbox),
    FieldDef(Enabled, Checkbox)])

  /** `masterDefs[type]`; an unknown type has no table. */
  function MasterDefFor(kind: string): Option<MasterDef>
  {
    if kind == "user" then Some(UserDef)
    else if kind == "vehicle" then Some(VehicleDef)
    else if kind == "course" then Some(CourseDef)
    else if kind == "facility" then Some(FacilityDef)
    else None
  }

  /** A record: field values by key; a missing key reads as `undefined`. */
  type Item = map<string, JsValue>

  function Get(item: Item, key: string): JsValue
  {
    if key in item then item[key] else Undefined
  }

  /** What one cell of a row shows or holds. */
  datatype Cell =
    | TextCell(text: string)                   // read-only: no control
    | SelectCell(key: string, value: string)
    | CheckboxCell(key: string, checked: bool)
    | InputCell(key: string, value: string)

  /** A table row: `tr.dataset.id` and its cells. */
  datatype MasterRow = MasterRow(id: string, cells: seq<Cell>)

  /** `val === true || val === 'true' || val === ''`. */
  function CheckboxDefault(v: JsValue): bool
  {
    v == Bool(true) || v == Str("true") || v == Str("")
  }

  /** `input.value = val !== undefined ? val : ''` (`null` also shows as empty). */
  function InputText(v: JsValue): string
  {
    if v == Undefined || v == Null then "" else ToText(v)
  }

  /** The last option equal to `text`: each match marks itself selected in turn. */
  function LastMatch(options: seq<string>, text: string): (r: Option<nat>)
    ensures r.Some? ==> r.value < |options| && options[r.value] == text
    ensures r.Some? ==> forall j :: r.value < j < |options| ==> options[j] != text
    ensures r.None? ==> forall j :: 0 <= j < |options| ==> options[j] != text
  {
    if options == [] then None
    else if options[|options| - 1] == text then Some(|options| - 1)
    else LastMatch(options[..|options| - 1], text)
  }

  /**
   * The value of the facility select: the option matching `String(val)`,
   * else the first option (the browser's default), else "".
   */
  function SelectValue(options: seq<string>, v: JsValue): string
  {
    match LastMatch(options, ToText(v))
    case Some(i) => options[i]
    case None => if options == [] then "" else options[0]
  }

  /** The cell `createMasterRow` builds for column `f`. */
  function MakeCell(f: FieldDef, item: Item, facilityIds: seq<string>): Cell
  {
    var v := Get(item, f.key);
    match f.kind
    case ReadOnly => TextCell(if JsTruthy(v) then ToText(v) else "(自動)")
    case FacilitySelect => SelectCell(f.key, SelectValue(facilityIds, v))
    case Checkbox => CheckboxCell(f.key, CheckboxDefault(v))
    case TextInput => InputCell(f.key, InputText(v))
  }

  /** `createMasterRow(type, item, def)`, for the values the row holds. */
  function CreateMasterRow(def: MasterDef, item: Item, facilityIds: seq<string>): (row: MasterRow)
    ensures |row.cells| == |def.fields|
  {
    var id := Get(item, def.idField);
    MasterRow(if JsTruthy(id) then ToText(id) else "",
      seq(|def.fields|, i requires 0 <= i < |def.fields| => MakeCell(def.fields[i], item, facilityIds)))
  }

  /** The blank record of `addMasterRow`: 有効 is true when the table has that column. */
  function NewMasterItem(def: MasterDef): Item
  {
    if exists i :: 0 <= i < |def.fields| && def.fields[i].key == Enabled then map[Enabled := Bool(true)] else map[]
  }

  /** `addMasterRow`: a row for a blank record, inserted at the top of the table. */
  function AddMasterRow(def: MasterDef, rows: seq<MasterRow>, facilityIds: seq<string>): (r: seq<MasterRow>)
    ensures |r| == |rows| + 1 && r[1..] == rows
  {
    [CreateMasterRow(def, NewMasterItem(def), facilityIds)] + rows
  }

  /** The key a cell's control carries (`input.dataset.key`); read-only cells have none. */
  function CellKey(c: Cell): Option<string>
  {
    match c
    case TextCell(_) => None
    case SelectCell(k, _) => Some(k)
    case CheckboxCell(k, _) => Some(k)
    case InputCell(k, _) => Some(k)
  }

  /** What a control contributes: `input.checked` for a checkbox, `input.value` otherwise. */
  function CellValue(c: Cell): JsValue
  {
    match c
    case TextCell(_) => Undefined
    case SelectCell(_, v) => Str(v)
    case CheckboxCell(_, b) => Bool(b)
    case InputCell(_, v) => Str(v)
  }

  /** The controls of a row read in order into `item`. */
  function Collect(cells: seq<Cell>, item: Item): Item
  {
    if cells == [] then item
    else
      var next := match CellKey(cells[0])
        case None => item
        case Some(k) => item[k := CellValue(cells[0])];
      Collect(cells[1..], next)
  }

  /** The record `saveMaster` reads from one row. */
  function SaveItem(def: MasterDef, row: MasterRow): Item
  {
    Collect(row.cells, if row.id != "" then map[def.idField := Str(row.id)] else map[])
  }

  /** `saveMaster`: the records of all rows, top to bottom. */
  function SaveMaster(def: MasterDef, rows: seq<MasterRow>): (items: seq<Item>)
    ensures |items| == |rows|
    ensures forall i :: 0 <= i < |rows| ==> items[i] == SaveItem(def, rows[i])
  {
    seq(|rows|, i requires 0 <= i < |rows| => SaveItem(def, rows[i]))
  }

  /** The controls of a row carry distinct keys. */
  predicate DistinctKeys(cells: seq<Cell>)
  {
    forall i, j :: 0 <= i < j < |cells| && CellKey(cells[i]).Some? ==> CellKey(cells[i]) != CellKey(cells[j])
  }

  /** Reading the controls sets exactly their keys, each to its own control's value. */
  lemma {:induction false} CollectReads(cells: seq<Cell>, item: Item, k: string)
    requires DistinctKeys(cells)
    ensures (exists i :: 0 <= i < |cells| && CellKey(cells[i]) == Some(k)) ==>
      forall i :: 0 <= i < |cells| && CellKey(cells[i]) == Some(k) ==>
        k in Collect(cells, item) && Collect(cells, item)[k] == CellValue(cells[i])
    ensures (forall i :: 0 <= i < |cells| ==> CellKey(cells[i]) != Some(k)) ==>
      (k in Collect(cells, item) <==> k in item) && (k in item ==> Collect(cells, item)[k] == item[k])
  {
    if cells != [] {
      var next := match CellKey(cells[0])
        case None => item
        case Some(k0) => item[k0 := CellValue(cells[0])];
      assert DistinctKeys(cells[1..]) by {
        forall i, j | 0 <= i < j < |cells[1..]| && CellKey(cells[1..][i]).Some?
          ensures CellKey(cells[1..][i]) != CellKey(cells[1..][j])
        {
          assert cells[1..][i] == cells[i + 1] && cells[1..][j] == cells[j + 1];
        }
      }
      CollectReads(cells[1..], next, k);
      forall i | 0 <= i < |cells| && CellKey(cells[i]) == Some(k)
        ensures k in Collect(cells, item) && Collect(cells, item)[k] == CellValue(cells[i])
      {
        if i > 0 {
          assert cells[1..][i - 1] == cells[i];
        } else {
          forall j | 0 <= j < |cells[1..]|
            ensures CellKey(cells[1..][j]) != Some(k)
          {
            assert cells[1..][j] == cells[j + 1];
          }
        }
      }
      if forall i :: 0 <= i < |cells| ==> CellKey(cells[i]) != Some(k) {
        assert forall j :: 0 <= j < |cells[1..]| ==> cells[1..][j] == cells[j + 1];
      }
    }
  }

  /** A table whose column keys are distinct, with the id column read-only and its only column of that key. */
  predicate WellFormedDef(def: MasterDef)
  {
    (forall i, j :: 0 <= i < j < |def.fields| ==> def.fields[i].key != def.fields[j].key)
    && (forall i :: 0 <= i < |def.fields| && def.fields[i].key == def.idField ==> def.fields[i].kind == ReadOnly)
  }

  /** The cells of a created row carry the column keys, read-only columns none. */
  lemma RowKeys(def: MasterDef, item: Item, facilityIds: seq<string>)
    requires WellFormedDef(def)
    ensures var cells := CreateMasterRow(def, item, facilityIds).cells;
      && DistinctKeys(cells)
      && forall i :: 0 <= i < |cells| ==>
           CellKey(cells[i]) == (if def.fields[i].kind == ReadOnly then None else Some(def.fields[i].key))
  {
  }

  /**
   * Saving a freshly created row gives back, for every editable column, the
   * value its control showed: a checkbox its default, an input its text, the
   * select its option; the id is there exactly when the record had one.
   */
  lemma SavedRow(def: MasterDef, item: Item, facilityIds: seq<string>, i: nat)
    requires WellFormedDef(def) && i < |def.fields|
    ensures var saved := SaveItem(def, CreateMasterRow(def, item, facilityIds));
      var f := def.fields[i];
      var v := Get(item, f.key);
      && (def.idField in saved <==> JsTruthy(Get(item, def.idField)))
      && (JsTruthy(Get(item, def.idField)) ==> saved[def.idField] == Str(ToText(Get(item, def.idField))))
      && (f.kind == Checkbox ==> f.key in saved && saved[f.key] == Bool(CheckboxDefault(v)))
      && (f.kind == TextInput ==> f.key in saved && saved[f.key] == Str(InputText(v)))
      && (f.kind == FacilitySelect ==> f.key in saved && saved[f.key] == Str(SelectValue(facilityIds, v)))
  {
    var row := CreateMasterRow(def, item, facilityIds);
    var base: Item := if row.id != "" then map[def.idField := Str(row.id)] else map[];
    RowKeys(def, item, facilityIds);
    CollectReads(row.cells, base, def.fields[i].key);
    CollectReads(row.cells, base, def.idField);
    assert JsTruthy(Get(item, def.idField)) <==> row.id != "" by {
      NonEmptyText(Get(item, def.idField));
    }
  }

  /** The text of a truthy value is not empty. */
  lemma NonEmptyText(v: JsValue)
    ensures JsTruthy(v) ==> ToText(v) != ""
  {
    if v.Num? && v.n < 0 {
      assert ("-" + Text.ToDecimal(-v.n))[0] == '-';
    }
  }

  /** Only `true`, `'true'` and `''` tick the box; a saved box reads back as it was saved. */
  lemma CheckboxRule(v: JsValue, b: bool)
    ensures CheckboxDefault(Bool(b)) == b
    ensures !CheckboxDefault(Undefined) && !CheckboxDefault(Null) && !CheckboxDefault(Str("false"))
  {
  }

  /** A string value round-trips through a text input. */
  lemma InputRoundTrip(s: string)
    ensures InputText(Str(s)) == s
  {
  }

  /** The four tables are well formed. */
  lemma MasterDefsWellFormed(kind: string)
    requires MasterDefFor(kind).Some?
    ensures WellFormedDef(MasterDefFor(kind).value)
  {
  }

  /**
   * A row added to a table with a 有効 column starts ticked and without an
   * id; saving it posts no id and 有効 = true.
   */
  lemma NewRowSaved(def: MasterDef, facilityIds: seq<string>, e: nat)
    requires WellFormedDef(def)
    requires e < |def.fields| && def.fields[e] == FieldDef(Enabled, Checkbox)
    requires def.idField != Enabled
    ensures var row := AddMasterRow(def, [], facilityIds)[0];
      && row.id == ""
      && row.cells[e] == CheckboxCell(Enabled, true)
      && def.idField !in SaveItem(def, row)
      && Enabled in SaveItem(def, row) && SaveItem(def, row)[Enabled] == Bool(true)
  {
    var item := NewMasterItem(def);
    assert item == map[Enabled := Bool(true)];
    assert Get(item, def.idField) == Undefined;
    SavedRow(def, item, facilityIds, e);
  }
}
