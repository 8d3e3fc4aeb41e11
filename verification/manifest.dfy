/** The integration data the component reads from the SDK: the manifest
    (a hydrated revision), its read objects, and the field metadata of the
    provider object. Only the parts the component looks at are kept. */
module Manifest {
  import opened Results

  /** An entry of an object's `requiredFields`; `fieldName` is `None` for an
      entry without a `fieldName` property. */
  datatype IntegrationField = IntegrationField(fieldName: Option<string>)

  /** A read object of the integration (`HydratedIntegrationObject`). */
  datatype IntegrationObject = IntegrationObject(
    objectName: string,
    schedule: string,
    destination: string,
    requiredFields: Option<seq<IntegrationField>>)

  /** The revision's content; `readObjects` is `None` when `read` or
      `read.objects` is missing. */
  datatype Content = Content(provider: Option<string>, readObjects: Option<seq<IntegrationObject>>)

  /** A hydrated revision: the manifest returned by the SDK. */
  datatype Revision = Revision(content: Option<Content>)

  /** Metadata of one provider field; `readOnly` may be missing. */
  datatype ProviderField = ProviderField(fieldName: string, displayName: string, readOnly: Option<bool>)

  /** The provider field metadata of the selected object, by field name
      (what `getField` looks up). */
  type FieldsMetadata = map<string, ProviderField>

  /** `manifest?.content?.read?.objects?.[0]`: the first read object, when the
      manifest has one. */
  function SelectedObject(manifest: Option<Revision>): (r: Option<IntegrationObject>)
    ensures r.Some? <==>
              && manifest.Some?
              && manifest.value.content.Some?
              && manifest.value.content.value.readObjects.Some?
              && |manifest.value.content.value.readObjects.value| > 0
    ensures r.Some? ==> r.value == manifest.value.content.value.readObjects.value[0]
  {
    match manifest
    case None => None
    case Some(revision) =>
      match revision.content
      case None => None
      case Some(content) =>
        match content.readObjects
        case None => None
        case Some(objects) => if |objects| == 0 then None else Some(objects[0])
  }
}
