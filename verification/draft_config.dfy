/** The SDK's draft installation configuration (`useConfig`), seen through the
    accessors the component calls. Per object name it holds the read field
    mapping (`mapToName` to provider `fieldName`), whether write is enabled, and
    the write settings of each provider field. */
module DraftConfig {
  import opened Results

  /** Stands for both `FieldSettingWriteOnUpdateEnum` and
      `FieldSettingWriteOnCreateEnum`; the install handler only ever uses
      these two values of them. */
  datatype WriteWhen = Always | Never

  /** The advanced write settings of one provider field. */
  datatype FieldSettings = FieldSettings(defaultValue: Option<string>, writeOnUpdate: WriteWhen, writeOnCreate: WriteWhen)

  datatype Draft = Draft(
    readMappings: map<string, map<string, string>>,
    writeEnabled: set<string>,
    fieldSettings: map<string, map<string, FieldSettings>>)

  /** A draft nobody has written to. */
  const Empty: Draft := Draft(map[], {}, map[])

  /** The read field mapping of `obj` (`readObject(obj)`), empty when unset. */
  function ReadMapping(d: Draft, obj: string): map<string, string>
  {
    if obj in d.readMappings then d.readMappings[obj] else map[]
  }

  /** The write field settings of `obj` (`writeObject(obj)`), empty when unset. */
  function WriteSettings(d: Draft, obj: string): map<string, FieldSettings>
  {
    if obj in d.fieldSettings then d.fieldSettings[obj] else map[]
  }

  /** `readObject(obj).setFieldMapping({ fieldName, mapToName })`. */
  function SetFieldMapping(d: Draft, obj: string, fieldName: string, mapToName: string): (r: Draft)
    ensures mapToName in ReadMapping(r, obj) && ReadMapping(r, obj)[mapToName] == fieldName
    ensures ReadMapping(r, obj).Keys == ReadMapping(d, obj).Keys + {mapToName}
    ensures forall k | k in ReadMapping(d, obj) && k != mapToName :: ReadMapping(r, obj)[k] == ReadMapping(d, obj)[k]
    ensures r.readMappings - {obj} == d.readMappings - {obj}
    ensures r.writeEnabled == d.writeEnabled && r.fieldSettings == d.fieldSettings
  {
    d.(readMappings := d.readMappings[obj := ReadMapping(d, obj)[mapToName := fieldName]])
  }

  /** `writeObject(obj).setEnableWrite()`. */
  function SetEnableWrite(d: Draft, obj: string): (r: Draft)
    ensures obj in r.writeEnabled
    ensures r.writeEnabled - {obj} == d.writeEnabled - {obj}
    ensures r.readMappings == d.readMappings && r.fieldSettings == d.fieldSettings
  {
    d.(writeEnabled := d.writeEnabled + {obj})
  }

  /** `writeObject(obj).setSelectedFieldSettings({ fieldName, settings })`,
      which replaces the settings of `fieldName`. */
  function SetSelectedFieldSettings(d: Draft, obj: string, fieldName: string, settings: FieldSettings): (r: Draft)
    ensures fieldName in WriteSettings(r, obj) && WriteSettings(r, obj)[fieldName] == settings
    ensures WriteSettings(r, obj).Keys == WriteSettings(d, obj).Keys + {fieldName}
    ensures forall k | k in WriteSettings(d, obj) && k != fieldName :: WriteSettings(r, obj)[k] == WriteSettings(d, obj)[k]
    ensures r.fieldSettings - {obj} == d.fieldSettings - {obj}
    ensures r.readMappings == d.readMappings && r.writeEnabled == d.writeEnabled
  {
    d.(fieldSettings := d.fieldSettings[obj := WriteSettings(d, obj)[fieldName := settings]])
  }
}
