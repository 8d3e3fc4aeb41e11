/** `createInstallationConfig`: the installation configuration built by hand
    from the manifest, the table rows and the selected object, without going
    through the SDK's draft. */
module Installation {
  import opened Results
  import opened LastWins
  import opened Manifest
  import opened FieldMappingTable
  import DraftConfig

  /** The configuration of the one read object. */
  datatype ObjectConfig = ObjectConfig(
    objectName: string,
    schedule: string,
    destination: string,
    selectedFields: map<string, bool>,
    selectedFieldMappings: map<string, string>)

  datatype ReadConfig = ReadConfig(objects: map<string, ObjectConfig>)

  /** `ConfigContent`; `read` is always present in what the builder returns. */
  datatype ConfigContent = ConfigContent(provider: Option<string>, read: ReadConfig)

  datatype BuildError = ManifestNotFound

  /** `manifest?.content?.provider`. */
  function ProviderOf(manifest: Revision): Option<string>
  {
    if manifest.content.Some? then manifest.content.value.provider else None
  }

  /** The names of the entries of `fields` that carry a `fieldName`. */
  ghost function NamedFields(fields: seq<IntegrationField>): set<string>
  {
    set i | 0 <= i < |fields| && fields[i].fieldName.Some? :: fields[i].fieldName.value
  }

  /** `requiredFields.forEach(...)`: `true` for every required field that
      carries a `fieldName`, and nothing for the others. */
  function RequiredFieldSelection(fields: seq<IntegrationField>): (r: map<string, bool>)
    ensures r.Keys == NamedFields(fields)
    ensures forall k | k in r :: r[k]
    decreases |fields|
  {
    if |fields| == 0 then map[]
    else
      var init := fields[..|fields| - 1];
      var last := fields[|fields| - 1];
      assert NamedFields(fields) == NamedFields(init) + (if last.fieldName.Some? then {last.fieldName.value} else {}) by {
        forall k | k in NamedFields(fields) ensures k in NamedFields(init) || (last.fieldName.Some? && k == last.fieldName.value) {
          var i :| 0 <= i < |fields| && fields[i].fieldName.Some? && fields[i].fieldName.value == k;
          if i < |fields| - 1 { assert init[i] == fields[i]; }
        }
        forall k | k in NamedFields(init) ensures k in NamedFields(fields) {
          var i :| 0 <= i < |init| && init[i].fieldName.Some? && init[i].fieldName.value == k;
          assert fields[i] == init[i];
        }
      }
      var selected := RequiredFieldSelection(init);
      if last.fieldName.Some? then selected[last.fieldName.value := true] else selected
  }

  /** `selectedObject?.requiredFields?.forEach(...)`: nothing when there is no
      object or it lists no required fields. */
  function SelectedFields(selectedObject: Option<IntegrationObject>): (r: map<string, bool>)
    ensures selectedObject.None? || selectedObject.value.requiredFields.None? ==> r == map[]
    ensures selectedObject.Some? && selectedObject.value.requiredFields.Some? ==>
              r.Keys == NamedFields(selectedObject.value.requiredFields.value)
    ensures forall k | k in r :: r[k]
  {
    if selectedObject.Some? && selectedObject.value.requiredFields.Some?
    then RequiredFieldSelection(selectedObject.value.requiredFields.value)
    else map[]
  }

  /** `mappings.forEach(...)`: each row's dynamic field mapped to its provider
      field; the keys are exactly the rows' dynamic fields, and a dynamic field
      shared by several rows keeps the provider field of the last of them. */
  function SelectedFieldMappings(mappings: seq<FieldMapping>): (r: map<string, string>)
    ensures r.Keys == KeysOf(mappings, DynamicFieldOf)
    ensures forall i | IsLastWith(mappings, i, DynamicFieldOf) ::
              r[mappings[i].dynamicField] == mappings[i].salesforceField
  {
    UpsertCharacterised(map[], mappings, DynamicFieldOf, SalesforceFieldOf);
    Upsert(map[], mappings, DynamicFieldOf, SalesforceFieldOf)
  }

  /** `createInstallationConfig`. Fails exactly when the manifest is missing.
      Otherwise the provider is the manifest's and `read` is present; with a
      selected object, `read.objects` has that object's name as its only key
      and the entry copies the object's name, schedule and destination and
      carries the required-field selection and the rows' field mappings; with
      none, `read.objects` is empty. */
  function CreateInstallationConfig(manifest: Option<Revision>, mappings: seq<FieldMapping>, selectedObject: Option<IntegrationObject>): (r: Result<ConfigContent, BuildError>)
    ensures r.Failure? <==> manifest.None?
    ensures r.Success? ==> r.value.provider == ProviderOf(manifest.value)
    ensures r.Success? && selectedObject.None? ==> r.value.read.objects == map[]
    ensures r.Success? && selectedObject.Some? ==>
              var o := selectedObject.value;
              && r.value.read.objects.Keys == {o.objectName}
              && r.value.read.objects[o.objectName].objectName == o.objectName
              && r.value.read.objects[o.objectName].schedule == o.schedule
              && r.value.read.objects[o.objectName].destination == o.destination
              && r.value.read.objects[o.objectName].selectedFields == SelectedFields(selectedObject)
              && r.value.read.objects[o.objectName].selectedFieldMappings == SelectedFieldMappings(mappings)
  {
    match manifest
    case None => Failure(ManifestNotFound)
    case Some(m) =>
      var fieldMappings := SelectedFieldMappings(mappings);
      var fields := SelectedFields(selectedObject);
      var objects :=
        match selectedObject
        case None => map[]
        case Some(o) => map[o.objectName := ObjectConfig(o.objectName, o.schedule, o.destination, fields, fieldMappings)];
      Success(ConfigContent(ProviderOf(m), ReadConfig(objects)))
  }

  /** The two ways the install handler offers to build the configuration (the
      second, the hand-built one, is commented out in the handler) agree on
      the field mapping: committing the rows to an empty draft maps
      the selected object's dynamic fields exactly as the hand-built
      configuration does. */
  lemma CommitAgreesWithManualConfig(manifest: Revision, mappings: seq<FieldMapping>, o: IntegrationObject)
    ensures Commit(Some(o), mappings, DraftConfig.Empty).Success?
    ensures CreateInstallationConfig(Some(manifest), mappings, Some(o)).Success?
    ensures DraftConfig.ReadMapping(Commit(Some(o), mappings, DraftConfig.Empty).value, o.objectName)
         == CreateInstallationConfig(Some(manifest), mappings, Some(o)).value.read.objects[o.objectName].selectedFieldMappings
  {
    // Both sides are the same in-order assignment of the rows into an empty map.
  }
}
