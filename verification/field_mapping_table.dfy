/** The field-mapping table: its rows, the four edits a user can make to them,
    the rule that derives a row's direction from the provider field's
    metadata, and the commit that writes every row into the draft
    configuration of the selected object. */
module FieldMappingTable {
  import opened Results
  import opened LastWins
  import opened Manifest
  import opened DraftConfig

  /** `MappingDirection`. */
  datatype Direction = ReadAndWrite | Read

  /** The three update modes `"Auto-fill"`, `"Overwrite"` and `"Skip"`. */
  datatype UpdateMode = AutoFill | Overwrite | Skip

  /** One row of the table (`FieldMapping`). */
  datatype FieldMapping = FieldMapping(
    id: string,
    dynamicField: string,
    direction: Direction,
    salesforceField: string,
    defaultValue: Option<string>,
    updateMode: UpdateMode)

  /** An entry of the catalog of dynamic fields a row may map; `caption` is
      the source's `label`, a reserved word here. */
  datatype DynamicField = DynamicField(caption: string, value: string)

  const DynamicFields: seq<DynamicField> := [
    DynamicField("Billing Country", "billingCountry"),
    DynamicField("Billing State/Province", "billingState"),
    DynamicField("Billing Zip/Postal Code", "billingZip")
  ]

  /** The rows the table starts with. */
  const InitialMappings: seq<FieldMapping> := [
    FieldMapping("1", "billingCountry", ReadAndWrite, "", Some(""), AutoFill),
    FieldMapping("2", "billingState", Read, "", None, AutoFill),
    FieldMapping("3", "billingZip", ReadAndWrite, "", Some(""), Overwrite)
  ]

  function DynamicFieldOf(m: FieldMapping): string { m.dynamicField }

  function SalesforceFieldOf(m: FieldMapping): string { m.salesforceField }

  /** No two rows share an id. */
  ghost predicate DistinctIds(rows: seq<FieldMapping>)
  {
    forall i, j :: 0 <= i < j < |rows| ==> rows[i].id != rows[j].id
  }

  /** `v` is the value of some entry of the dynamic-field catalog. */
  predicate IsDynamicField(v: string)
  {
    exists k :: 0 <= k < |DynamicFields| && DynamicFields[k].value == v
  }

  /** The table invariant: distinct ids, and every row maps a catalog field. */
  ghost predicate WellFormed(rows: seq<FieldMapping>)
  {
    && DistinctIds(rows)
    && forall i :: 0 <= i < |rows| ==> IsDynamicField(rows[i].dynamicField)
  }

  lemma InitialMappingsWellFormed()
    ensures |InitialMappings| == |DynamicFields|
    ensures WellFormed(InitialMappings)
    ensures forall i :: 0 <= i < |InitialMappings| ==> InitialMappings[i].dynamicField == DynamicFields[i].value
  {
    assert IsDynamicField(InitialMappings[0].dynamicField) by { assert DynamicFields[0].value == "billingCountry"; }
    assert IsDynamicField(InitialMappings[1].dynamicField) by { assert DynamicFields[1].value == "billingState"; }
    assert IsDynamicField(InitialMappings[2].dynamicField) by { assert DynamicFields[2].value == "billingZip"; }
  }

  // ---------------------------------------------------------------------
  // Direction
  // ---------------------------------------------------------------------

  /** `metadata?.getField(fieldName)?.readOnly === true`. */
  predicate IsReadOnly(metadata: Option<FieldsMetadata>, fieldName: string)
  {
    && metadata.Some?
    && fieldName in metadata.value
    && metadata.value[fieldName].readOnly == Some(true)
  }

  /** The direction a row gets when `fieldName` is selected: read for a
      read-only field, read-and-write otherwise, and also when the field or the
      metadata is unknown or `readOnly` is unset. */
  function DirectionFor(metadata: Option<FieldsMetadata>, fieldName: string): (r: Direction)
    ensures r == Read <==> IsReadOnly(metadata, fieldName)
    ensures metadata.None? ==> r == ReadAndWrite
    ensures metadata.Some? && fieldName !in metadata.value ==> r == ReadAndWrite
    ensures metadata.Some? && fieldName in metadata.value && metadata.value[fieldName].readOnly != Some(true) ==> r == ReadAndWrite
  {
    if IsReadOnly(metadata, fieldName) then Read else ReadAndWrite
  }

  // ---------------------------------------------------------------------
  // Row edits
  // ---------------------------------------------------------------------

  /** What a user can change in a row, one control each. */
  datatype Edit =
    | SetDynamicField(value: string)
    | SetSalesforceField(value: string, metadata: Option<FieldsMetadata>)
    | SetDefaultValue(value: string)
    | SetUpdateMode(mode: UpdateMode)

  /** The new row `{ ...m, <column>: value }` an edit builds. Each column
      changes only under its own edit; the direction changes only with the
      provider field, and then follows the field's metadata. */
  function ApplyEdit(m: FieldMapping, e: Edit): (r: FieldMapping)
    ensures r.id == m.id
    ensures e.SetDynamicField? ==> r.dynamicField == e.value
    ensures e.SetSalesforceField? ==>
              r.salesforceField == e.value && (r.direction == Read <==> IsReadOnly(e.metadata, e.value))
    ensures e.SetDefaultValue? ==> r.defaultValue == Some(e.value)
    ensures e.SetUpdateMode? ==> r.updateMode == e.mode
    ensures r.dynamicField != m.dynamicField ==> e.SetDynamicField?
    ensures r.salesforceField != m.salesforceField || r.direction != m.direction ==> e.SetSalesforceField?
    ensures r.defaultValue != m.defaultValue ==> e.SetDefaultValue?
    ensures r.updateMode != m.updateMode ==> e.SetUpdateMode?
  {
    match e
    case SetDynamicField(v) => m.(dynamicField := v)
    case SetSalesforceField(v, metadata) => m.(salesforceField := v, direction := DirectionFor(metadata, v))
    case SetDefaultValue(v) => m.(defaultValue := Some(v))
    case SetUpdateMode(mode) => m.(updateMode := mode)
  }

  /** `prev.map((m) => m.id === id ? <edited m> : m)`: every row carrying `id`
      is edited, every other row is kept as it is. */
  function EditRows(rows: seq<FieldMapping>, id: string, e: Edit): (r: seq<FieldMapping>)
    ensures |r| == |rows|
    ensures forall i :: 0 <= i < |rows| ==> r[i].id == rows[i].id
    ensures forall i :: 0 <= i < |rows| && rows[i].id != id ==> r[i] == rows[i]
    ensures forall i :: 0 <= i < |rows| && rows[i].id == id ==> r[i] == ApplyEdit(rows[i], e)
  {
    if |rows| == 0 then []
    else [if rows[0].id == id then ApplyEdit(rows[0], e) else rows[0]] + EditRows(rows[1..], id, e)
  }

  /** The dynamic-field select of row `id`. */
  function OnDynamicFieldChange(rows: seq<FieldMapping>, id: string, value: string): (r: seq<FieldMapping>)
    ensures |r| == |rows|
    ensures forall i :: 0 <= i < |rows| ==>
              r[i] == if rows[i].id == id then rows[i].(dynamicField := value) else rows[i]
  {
    EditRows(rows, id, SetDynamicField(value))
  }

  /** The provider-field select of row `id`: the direction is recomputed from
      the metadata of the chosen field. */
  function OnSalesforceFieldChange(rows: seq<FieldMapping>, id: string, value: string, metadata: Option<FieldsMetadata>): (r: seq<FieldMapping>)
    ensures |r| == |rows|
    ensures forall i :: 0 <= i < |rows| && rows[i].id != id ==> r[i] == rows[i]
    ensures forall i :: 0 <= i < |rows| && rows[i].id == id ==>
              && r[i].salesforceField == value
              && (r[i].direction == Read <==> IsReadOnly(metadata, value))
              && r[i] == rows[i].(salesforceField := value, direction := r[i].direction)
  {
    EditRows(rows, id, SetSalesforceField(value, metadata))
  }

  /** The default-value input of row `id`. */
  function OnDefaultValueChange(rows: seq<FieldMapping>, id: string, value: string): (r: seq<FieldMapping>)
    ensures |r| == |rows|
    ensures forall i :: 0 <= i < |rows| ==>
              r[i] == if rows[i].id == id then rows[i].(defaultValue := Some(value)) else rows[i]
  {
    EditRows(rows, id, SetDefaultValue(value))
  }

  /** The update-mode select of row `id`. */
  function OnUpdateModeChange(rows: seq<FieldMapping>, id: string, mode: UpdateMode): (r: seq<FieldMapping>)
    ensures |r| == |rows|
    ensures forall i :: 0 <= i < |rows| ==>
              r[i] == if rows[i].id == id then rows[i].(updateMode := mode) else rows[i]
  {
    EditRows(rows, id, SetUpdateMode(mode))
  }

  /** Only choosing a provider field can change a row's direction. */
  lemma OnlyProviderFieldEditChangesDirection(rows: seq<FieldMapping>, id: string, e: Edit)
    requires !e.SetSalesforceField?
    ensures forall i :: 0 <= i < |rows| ==> EditRows(rows, id, e)[i].direction == rows[i].direction
  {
  }

  /** Edits keep the ids distinct, and keep every row on a catalog field as
      long as a dynamic-field edit picks a catalog field (the select offers
      nothing else). */
  lemma EditPreservesWellFormed(rows: seq<FieldMapping>, id: string, e: Edit)
    requires WellFormed(rows)
    requires e.SetDynamicField? ==> IsDynamicField(e.value)
    ensures WellFormed(EditRows(rows, id, e))
  {
  }

  /** Repeating an edit of the same row with the same value changes nothing. */
  lemma EditRowsIdempotent(rows: seq<FieldMapping>, id: string, e: Edit)
    ensures EditRows(EditRows(rows, id, e), id, e) == EditRows(rows, id, e)
  {
    // Each edit sets its columns to values that depend only on the edit.
  }

  /** Edits of two different rows do not interfere: either order gives the
      same table. */
  lemma EditsOfDistinctRowsCommute(rows: seq<FieldMapping>, a: string, e: Edit, b: string, f: Edit)
    requires a != b
    ensures EditRows(EditRows(rows, a, e), b, f) == EditRows(EditRows(rows, b, f), a, e)
  {
    // Each position is edited by at most one of the two ids.
  }

  // ---------------------------------------------------------------------
  // Commit
  // ---------------------------------------------------------------------

  /** `writeOnUpdate` of a row: always exactly when it overwrites. */
  function WriteOnUpdateFor(mode: UpdateMode): WriteWhen
  {
    if mode == Overwrite then Always else Never
  }

  /** `writeOnCreate` of a row: always exactly when it auto-fills. */
  function WriteOnCreateFor(mode: UpdateMode): WriteWhen
  {
    if mode == AutoFill then Always else Never
  }

  /** The update mode back from the two write flags, when they are not both
      `Always` (no mode produces that pair). */
  function UpdateModeOf(writeOnUpdate: WriteWhen, writeOnCreate: WriteWhen): Option<UpdateMode>
  {
    match (writeOnUpdate, writeOnCreate)
    case (Always, Never) => Some(Overwrite)
    case (Never, Always) => Some(AutoFill)
    case (Never, Never) => Some(Skip)
    case (Always, Always) => None
  }

  /** The translation of an update mode into the two write flags: each flag
      is `Always` for exactly one mode, the two are never both `Always`, and
      the mode can be read back from them. */
  lemma UpdateModeTranslation(mode: UpdateMode)
    ensures WriteOnUpdateFor(mode) == Always <==> mode == Overwrite
    ensures WriteOnCreateFor(mode) == Always <==> mode == AutoFill
    ensures !(WriteOnUpdateFor(mode) == Always && WriteOnCreateFor(mode) == Always)
    ensures mode == Skip <==> WriteOnUpdateFor(mode) == Never && WriteOnCreateFor(mode) == Never
    ensures UpdateModeOf(WriteOnUpdateFor(mode), WriteOnCreateFor(mode)) == Some(mode)
  {
  }

  /** The write settings a row commits for its provider field. */
  function SettingsFor(m: FieldMapping): FieldSettings
  {
    FieldSettings(m.defaultValue, WriteOnUpdateFor(m.updateMode), WriteOnCreateFor(m.updateMode))
  }

  /** The three configuration calls made for one row, in source order. */
  function CommitRow(d: Draft, obj: string, m: FieldMapping): Draft
  {
    var mapped := SetFieldMapping(d, obj, m.salesforceField, m.dynamicField);
    var enabled := SetEnableWrite(mapped, obj);
    SetSelectedFieldSettings(enabled, obj, m.salesforceField, SettingsFor(m))
  }

  /** `mappings.forEach(...)`: the rows committed first to last. Only `obj`
      is touched; its read mapping and write settings receive the rows in
      order, and write is enabled as soon as one row is committed. */
  function CommitRows(d: Draft, obj: string, rows: seq<FieldMapping>): (r: Draft)
    ensures r.readMappings - {obj} == d.readMappings - {obj}
    ensures r.fieldSettings - {obj} == d.fieldSettings - {obj}
    ensures r.writeEnabled - {obj} == d.writeEnabled - {obj}
    ensures obj in r.writeEnabled <==> obj in d.writeEnabled || |rows| > 0
    ensures ReadMapping(r, obj) == Upsert(ReadMapping(d, obj), rows, DynamicFieldOf, SalesforceFieldOf)
    ensures WriteSettings(r, obj) == Upsert(WriteSettings(d, obj), rows, SalesforceFieldOf, SettingsFor)
    decreases |rows|
  {
    if |rows| == 0 then d
    else CommitRow(CommitRows(d, obj, rows[..|rows| - 1]), obj, rows[|rows| - 1])
  }

  datatype CommitError = SelectedObjectNotFound

  /** `handleCreateInstallation` up to the submit flag: fails, touching
      nothing, when no object is selected; otherwise every row's dynamic field
      is read-mapped to its provider field and every row's provider field gets
      the row's default value and write flags, the later row winning on a
      shared key; write is enabled whenever there is a row, whatever its
      direction; other objects are left as they were. */
  function Commit(selected: Option<IntegrationObject>, rows: seq<FieldMapping>, d: Draft): (r: Result<Draft, CommitError>)
    ensures r.Failure? <==> selected.None?
    ensures r.Success? ==>
              var obj := selected.value.objectName;
              && ReadMapping(r.value, obj).Keys == ReadMapping(d, obj).Keys + KeysOf(rows, DynamicFieldOf)
              && (forall i | IsLastWith(rows, i, DynamicFieldOf) ::
                    ReadMapping(r.value, obj)[rows[i].dynamicField] == rows[i].salesforceField)
              && (forall k | k in ReadMapping(d, obj) && k !in KeysOf(rows, DynamicFieldOf) ::
                    ReadMapping(r.value, obj)[k] == ReadMapping(d, obj)[k])
              && WriteSettings(r.value, obj).Keys == WriteSettings(d, obj).Keys + KeysOf(rows, SalesforceFieldOf)
              && (forall i | IsLastWith(rows, i, SalesforceFieldOf) ::
                    WriteSettings(r.value, obj)[rows[i].salesforceField] == SettingsFor(rows[i]))
              && (forall k | k in WriteSettings(d, obj) && k !in KeysOf(rows, SalesforceFieldOf) ::
                    WriteSettings(r.value, obj)[k] == WriteSettings(d, obj)[k])
              && (obj in r.value.writeEnabled <==> obj in d.writeEnabled || |rows| > 0)
              && r.value.readMappings - {obj} == d.readMappings - {obj}
              && r.value.fieldSettings - {obj} == d.fieldSettings - {obj}
              && r.value.writeEnabled - {obj} == d.writeEnabled - {obj}
  {
    match selected
    case None => Failure(SelectedObjectNotFound)
    case Some(o) =>
      UpsertCharacterised(ReadMapping(d, o.objectName), rows, DynamicFieldOf, SalesforceFieldOf);
      UpsertCharacterised(WriteSettings(d, o.objectName), rows, SalesforceFieldOf, SettingsFor);
      Success(CommitRows(d, o.objectName, rows))
  }

  /** Pressing install again with the same rows leaves the draft as the
      first commit left it. */
  lemma CommitIdempotent(selected: Option<IntegrationObject>, rows: seq<FieldMapping>, d: Draft)
    ensures Commit(selected, rows, d).Success? ==>
              Commit(selected, rows, Commit(selected, rows, d).value) == Commit(selected, rows, d)
  {
    if selected.Some? && |rows| > 0 {
      var obj := selected.value.objectName;
      var once := CommitRows(d, obj, rows);
      var twice := CommitRows(once, obj, rows);
      UpsertIdempotent(ReadMapping(d, obj), rows, DynamicFieldOf, SalesforceFieldOf);
      UpsertIdempotent(WriteSettings(d, obj), rows, SalesforceFieldOf, SettingsFor);
      assert obj in once.readMappings && obj in twice.readMappings by {
        assert rows[|rows| - 1].dynamicField in ReadMapping(once, obj);
        assert rows[|rows| - 1].dynamicField in ReadMapping(twice, obj);
      }
      assert obj in once.fieldSettings && obj in twice.fieldSettings by {
        assert rows[|rows| - 1].salesforceField in WriteSettings(once, obj);
        assert rows[|rows| - 1].salesforceField in WriteSettings(twice, obj);
      }
      EqualOffAndAt(twice.readMappings, once.readMappings, obj);
      EqualOffAndAt(twice.fieldSettings, once.fieldSettings, obj);
      SetEqualOffAndAt(twice.writeEnabled, once.writeEnabled, obj);
    }
  }

  /** The install button: commit every row to the first read object of the
      manifest, or fail when there is none. */
  function HandleCreateInstallation(manifest: Option<Revision>, rows: seq<FieldMapping>, d: Draft): (r: Result<Draft, CommitError>)
    ensures r.Failure? <==>
              || manifest.None?
              || manifest.value.content.None?
              || manifest.value.content.value.readObjects.None?
              || |manifest.value.content.value.readObjects.value| == 0
    ensures r.Success? ==> r == Commit(Some(manifest.value.content.value.readObjects.value[0]), rows, d)
  {
    Commit(SelectedObject(manifest), rows, d)
  }

  /** The read mapping the initial rows produce from an empty one. */
  lemma InitialReadMapping()
    ensures Upsert(map[], InitialMappings, DynamicFieldOf, SalesforceFieldOf)
         == map["billingCountry" := "", "billingState" := "", "billingZip" := ""]
  {
    var rows := InitialMappings;
    assert rows[..1][..0] == [] && rows[..1][0] == rows[0];
    assert rows[..2][..1] == rows[..1] && rows[..2][1] == rows[1];
    assert rows[..3] == rows;
    assert Upsert(map[], rows[..1][..0], DynamicFieldOf, SalesforceFieldOf) == map[];
    var read1 := Upsert(map[], rows[..1], DynamicFieldOf, SalesforceFieldOf);
    assert read1 == map["billingCountry" := ""];
    var read2 := Upsert(map[], rows[..2], DynamicFieldOf, SalesforceFieldOf);
    assert read2 == read1["billingState" := ""];
  }

  /** The write settings the initial rows produce from empty ones: all three
      rows target the empty provider field, so the last one's remain. */
  lemma InitialWriteSettings()
    ensures Upsert(map[], InitialMappings, SalesforceFieldOf, SettingsFor)
         == map["" := FieldSettings(Some(""), Always, Never)]
  {
    var rows := InitialMappings;
    assert rows[..1][..0] == [] && rows[..1][0] == rows[0];
    assert rows[..2][..1] == rows[..1] && rows[..2][1] == rows[1];
    assert rows[..3] == rows;
    assert Upsert(map[], rows[..1][..0], SalesforceFieldOf, SettingsFor) == map[];
    var write1 := Upsert(map[], rows[..1], SalesforceFieldOf, SettingsFor);
    assert write1 == map["" := SettingsFor(rows[0])];
    var write2 := Upsert(map[], rows[..2], SalesforceFieldOf, SettingsFor);
    assert write2 == map["" := SettingsFor(rows[1])];
  }

  /** Committing the untouched initial table: all three dynamic fields are
      read-mapped to the empty provider field, and the single write-settings
      entry, for the empty field, is the last row's (overwrite, default ""). */
  lemma CommitInitialMappings(o: IntegrationObject)
    ensures Commit(Some(o), InitialMappings, Empty).Success?
    ensures ReadMapping(Commit(Some(o), InitialMappings, Empty).value, o.objectName)
         == map["billingCountry" := "", "billingState" := "", "billingZip" := ""]
    ensures WriteSettings(Commit(Some(o), InitialMappings, Empty).value, o.objectName)
         == map["" := FieldSettings(Some(""), Always, Never)]
    ensures o.objectName in Commit(Some(o), InitialMappings, Empty).value.writeEnabled
  {
    var d := CommitRows(Empty, o.objectName, InitialMappings);
    assert Commit(Some(o), InitialMappings, Empty) == Success(d);
    assert ReadMapping(Empty, o.objectName) == map[] && WriteSettings(Empty, o.objectName) == map[];
    InitialReadMapping();
    InitialWriteSettings();
  }

  /** Choosing a read-only provider field for the first initial row turns it
      into a read row at once, before any commit; choosing a field the
      metadata does not know keeps it read-and-write. */
  lemma SelectReadOnlyFieldScenario(metadata: FieldsMetadata, field: string, unknown: string)
    requires field in metadata && metadata[field].readOnly == Some(true)
    requires unknown !in metadata
    ensures OnSalesforceFieldChange(InitialMappings, "1", field, Some(metadata))[0].direction == Read
    ensures OnSalesforceFieldChange(InitialMappings, "1", unknown, Some(metadata))[0].direction == ReadAndWrite
    ensures OnSalesforceFieldChange(InitialMappings, "1", field, Some(metadata))[1..] == InitialMappings[1..]
  {
  }
}
