/** Identifiers and enumerations shared by the serializer and the handlers. */
module SyncCore {

  /** A .NET Guid, abstracted to a natural number. */
  type Guid = nat

  /** `Guid.Empty`. */
  const EmptyGuid: Guid := 0

  /** The values of uSync's `ChangeType` that the modelled code produces. */
  datatype ChangeType = NoChange | Import | Export
}
