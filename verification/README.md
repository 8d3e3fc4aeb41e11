# Field-mapping table and installation config builder, in Dafny

This project models the logic of a demo field-mapping table built on an
integration SDK. A user maps the app's dynamic fields (`billingCountry`,
`billingState`, `billingZip`) to fields of a provider object (Salesforce).
The model covers two parts of the code:

- The table in `src/components/FieldMappingTable/FieldMappingTable.tsx`.
  It has the `FieldMapping` row type, the initial rows and the dynamic-field
  catalog. It has the four edit handlers, each of which rebuilds the row list
  with `prev.map(m => m.id === row.id ? {...m, …} : m)`. It derives a row's
  direction from the read-only flag of the chosen provider field. Its install
  handler, `handleCreateInstallation`, folds the rows into the SDK's draft
  configuration.
- The hand-written builder `createInstallationConfig` in
  `src/lib/installation.ts`. It turns the manifest, the rows and the selected
  object into a configuration record.

Everything is a pure function over immutable datatypes. The modules are:

- `Results`: optional values and thrown errors.
- `LastWins`: a generic in-order fold that assigns keys one entry at a time,
  `obj[key(x)] = val(x)`. It proves that a later entry overrides an earlier
  one with the same key.
- `Manifest`: the SDK data the component reads. This is the revision, its read
  objects and the provider field metadata.
- `DraftConfig`: the SDK's draft configuration, seen through the accessors the
  handler calls. For each object name it holds three things:
  - the read field mapping, from `mapToName` (the dynamic field) to `fieldName`
    (the provider field);
  - a write-enabled flag;
  - the write settings of each provider field.

  The read mapping uses the key that `createInstallationConfig` itself uses for
  `selectedFieldMappings`. The two ways the install handler offers to build a
  configuration (the second, the hand-built one, is commented out in the
  handler together with its import) produce different records: the draft path also enables write
  and sets per-field write settings, and the hand-built record has no write
  part but carries `selectedFields`, `schedule` and `destination`. They agree
  on the selected object's field mapping
  (`Installation.CommitAgreesWithManualConfig`). That agreement follows from
  the shared keying, since both reduce to the same in-order assignment of the
  rows. `setSelectedFieldSettings` is modelled as replacing the whole settings
  entry of its field. The handler only ever uses the values `Always` and
  `Never` of the two write enums (`FieldMappingTable.tsx:152-160`), so one
  datatype, `WriteWhen`, stands for both.
- `FieldMappingTable`: the rows, the edits, the direction rule and the commit.
- `Installation`: `createInstallationConfig`.

A thrown `Error` is modelled as the `Failure` case of a `Result`. A failed
commit returns no draft, so the caller's draft stays exactly as it was. This
is the model's form of "fails before any configuration is changed".

## Model

| member | source | states |
|---|---|---|
| `Manifest.SelectedObject` | src/components/FieldMappingTable/FieldMappingTable.tsx:104 | There is a selected object exactly when the manifest has content with at least one read object, and that object is the first one. |
| `DraftConfig.SetFieldMapping` | src/components/FieldMappingTable/FieldMappingTable.tsx:135-138 | Afterwards the object's read mapping maps `mapToName` to `fieldName`. Every other key of that object keeps its value. Other objects, write flags and write settings are unchanged. |
| `DraftConfig.SetEnableWrite` | src/components/FieldMappingTable/FieldMappingTable.tsx:142 | Write becomes enabled for the object. No other object's flag changes, and mappings and settings are unchanged. |
| `DraftConfig.SetSelectedFieldSettings` | src/components/FieldMappingTable/FieldMappingTable.tsx:144-162 | The object's settings for `fieldName` become the given settings. The other fields' settings, other objects, mappings and write flags are unchanged. |
| `FieldMappingTable.InitialMappingsWellFormed` | src/components/FieldMappingTable/FieldMappingTable.tsx:56-95 | The initial rows have pairwise distinct ids. Row i maps the i-th entry of the dynamic-field catalog, so every row's dynamic field is a catalog value. |
| `FieldMappingTable.DirectionFor` | src/components/FieldMappingTable/FieldMappingTable.tsx:257-260 | The direction is read exactly when the metadata lists the field with `readOnly` equal to true. In every other case it is read-and-write: no metadata, an unknown field, or `readOnly` false or unset. |
| `FieldMappingTable.ApplyEdit` | src/components/FieldMappingTable/FieldMappingTable.tsx:219-312 | An edited row keeps its id and takes the new value in the edited column. Each column changes only under its own edit. The direction changes only when a provider field is chosen, and then it is read exactly when that field is read-only. |
| `FieldMappingTable.EditRows` | src/components/FieldMappingTable/FieldMappingTable.tsx:220-224 | The list keeps its length and each position keeps its id. Rows whose id differs are returned unchanged, and every row carrying the id is edited. |
| `FieldMappingTable.OnDynamicFieldChange` | src/components/FieldMappingTable/FieldMappingTable.tsx:219-224 | The rows with the given id get the new dynamic field and nothing else changes. Every other row is unchanged. |
| `FieldMappingTable.OnSalesforceFieldChange` | src/components/FieldMappingTable/FieldMappingTable.tsx:249-264 | The rows with the given id get the new provider field. Their direction is read exactly when the field is read-only, and no other column changes. Every other row is unchanged. |
| `FieldMappingTable.OnDefaultValueChange` | src/components/FieldMappingTable/FieldMappingTable.tsx:285-292 | The rows with the given id get the new default value and nothing else changes. Every other row is unchanged. |
| `FieldMappingTable.OnUpdateModeChange` | src/components/FieldMappingTable/FieldMappingTable.tsx:301-312 | The rows with the given id get the new update mode and nothing else changes. Every other row is unchanged. |
| `FieldMappingTable.OnlyProviderFieldEditChangesDirection` | src/components/FieldMappingTable/FieldMappingTable.tsx:219-312 | Edits to the dynamic field, the default value and the update mode leave every row's direction as it was. |
| `FieldMappingTable.EditPreservesWellFormed` | src/components/FieldMappingTable/FieldMappingTable.tsx:219-235 | Every edit keeps the ids pairwise distinct. Every row keeps a catalog dynamic field, provided that a dynamic-field edit picks a catalog value. |
| `FieldMappingTable.EditRowsIdempotent` | src/components/FieldMappingTable/FieldMappingTable.tsx:219-312 | Repeating an edit of the same row with the same value leaves the table as the first edit left it. |
| `FieldMappingTable.EditsOfDistinctRowsCommute` | src/components/FieldMappingTable/FieldMappingTable.tsx:219-312 | Edits of rows with different ids give the same table in either order. |
| `FieldMappingTable.UpdateModeTranslation` | src/components/FieldMappingTable/FieldMappingTable.tsx:152-160 | Write-on-update is `Always` exactly for Overwrite, and write-on-create is `Always` exactly for Auto-fill. The two are never both `Always`. Skip is exactly `Never`/`Never`. The mode can be recovered from the pair. |
| `FieldMappingTable.CommitRows` | src/components/FieldMappingTable/FieldMappingTable.tsx:133-166 | Applying the rows in list order touches only the selected object. Write is enabled after at least one row. Its read mapping and write settings equal an in-order, later-wins assignment of the rows. |
| `FieldMappingTable.Commit` | src/components/FieldMappingTable/FieldMappingTable.tsx:128-166 | Commit fails exactly when no object is selected. Otherwise each dynamic field maps to the provider field of the last row with that dynamic field, and each provider field gets the default value and write flags of the last row naming it. Keys no row names keep their old values. Write is enabled for any non-empty row list, whatever the directions. Other objects are unchanged. |
| `FieldMappingTable.CommitIdempotent` | src/components/FieldMappingTable/FieldMappingTable.tsx:128-166 | Committing the same rows a second time leaves the draft exactly as the first commit left it. |
| `FieldMappingTable.HandleCreateInstallation` | src/components/FieldMappingTable/FieldMappingTable.tsx:104-166 | The install handler fails exactly when the manifest has no read object to select. Otherwise it commits every row to the first read object, with the meaning `FieldMappingTable.Commit` states. |
| `FieldMappingTable.CommitInitialMappings` | src/components/FieldMappingTable/FieldMappingTable.tsx:56-80 | Committing the untouched initial rows maps all three dynamic fields to the empty provider field and enables write. It leaves a single settings entry, for the empty field, which is the last row's: default "", write on update, not on create. |
| `FieldMappingTable.SelectReadOnlyFieldScenario` | src/components/FieldMappingTable/FieldMappingTable.tsx:249-264 | Choosing a read-only field for row "1" makes it a read row immediately, without any commit. Choosing a field unknown to the metadata keeps it read-and-write. The other rows are untouched. |
| `LastWins.UpsertKeys` | src/lib/installation.ts:22-25 | After the in-order assignment the keys are the old keys plus the keys of the entries. |
| `LastWins.UpsertLastWins` | src/lib/installation.ts:22-25 | A key holds the value of the last entry carrying it. |
| `LastWins.UpsertKeepsUnwritten` | src/lib/installation.ts:22-25 | A key no entry carries keeps its old value. |
| `LastWins.UpsertIdempotent` | src/lib/installation.ts:22-25 | Assigning the same entries a second time changes nothing. |
| `Installation.SelectedFieldMappings` | src/lib/installation.ts:21-25 | The keys are exactly the rows' dynamic fields. Each one maps to the provider field of the last row with that dynamic field. |
| `Installation.RequiredFieldSelection` | src/lib/installation.ts:28-33 | The keys are exactly the names of the required fields that carry a `fieldName`, each mapped to true. Entries without a `fieldName` are skipped. |
| `Installation.SelectedFields` | src/lib/installation.ts:29 | The result is empty when there is no object or the object has no required fields. Otherwise it is the selection above. |
| `Installation.CreateInstallationConfig` | src/lib/installation.ts:12-52 | The builder fails exactly when the manifest is missing, and otherwise the provider is the manifest content's. With a selected object, `read.objects` has exactly that object's name as its key. That entry copies the name, schedule and destination and carries the required-field selection and the rows' field mappings. With no selected object, `read.objects` is empty. |
| `Installation.CommitAgreesWithManualConfig` | src/components/FieldMappingTable/FieldMappingTable.tsx:128-180 | The handler's two ways of building the configuration give the same field mapping for the selected object. One commits the rows to an empty draft; the other, commented out in the handler, builds the configuration by hand. |

## Left out

- `DraftConfig` rests on four assumptions about the SDK's setters, which are external code. First, `setFieldMapping` inserts or overwrites `mapToName → fieldName`. Second, `setSelectedFieldSettings` replaces the field's whole settings entry. Third, `setEnableWrite` only marks the object writable and keeps its read mapping and field settings; more generally, each setter changes only its own part of the draft, for its own object. Fourth, successive setter calls in one handler take effect in call order. `FieldMappingTable.Commit`'s contract depends on all four.
- The SDK hooks (`useManifest`, `useConfig`, `useCreateInstallation`, `useInstallation`) are external code. The manifest and the field metadata are plain data parameters, and the draft is the `DraftConfig` record.
- The submit after commit is left out. This covers the `pendingSubmit` flag, the `useEffect` that logs the draft, and the `createInstallation` call, which is commented out. They are asynchronous React scheduling and console output.
- Disabling the install button while a creation is pending is left out. It is UI state owned by the SDK.
- Rendering is left out: the direction icons and the select and input components.
- `src/App.tsx` (provider bootstrapping, environment variables), the dialog and container components, and the build and lint configuration are left out. None of them hold mapping logic.
- Hydrating rows from an existing installation, reset or sync, and update or delete of an installation are not modelled. None of them appears in the two files modelled here.
- "`createInstallationConfig` does not modify `mappings`" has no member. Dafny values are immutable, so this holds by construction.
- Object keys are modelled as plain string-keyed maps. JavaScript's special property names (such as `__proto__`) are not modelled.
- The update-mode select passes a string that is cast to the mode type. The model uses the three-valued `UpdateMode` datatype, which is the only set of values the select offers.
- The catalog entry's `label` is called `caption` because `label` is a reserved word in Dafny.
- `manifest.content.read.objects` is collapsed into one optional sequence. A missing `read` and a missing `objects` behave the same in the code.
