/**
  The data type serializer: turns a live data type into its file node and
  diffs a file node back into a data type, one field at a time, emitting one
  change record per real mismatch.

  The host collaborators (the editor registries, the configuration
  serializers, JSON encoding, folder lookup) are fields of a `Host` value;
  `C` is the type of the opaque configuration object.
*/
module DataTypeSerializer {
  import opened Wrappers
  import opened Text
  import opened SyncCore

  /** Umbraco's `ValueStorageType`: the column kind a data type stores its values in. */
  datatype StorageType = Integer | Decimal | Date | Nvarchar | Ntext

  /**
    The live data type, restricted to the fields the serializer reads or
    writes. `configuration` is None when the configuration object is null.
  */
  datatype DataType<C> = DataType(
    id: int,
    key: Guid,
    name: string,
    editorAlias: string,
    databaseType: StorageType,
    configuration: Option<C>,
    parentId: int,
    level: int)

  /** A data type folder (an `EntityContainer`). */
  datatype Container = Container(id: int, key: Guid, name: string)

  /** The `Folder` element of a file: its Key attribute and its text, the folder path. */
  datatype FolderElement = FolderElement(key: Guid, path: string)

  /** The `Info` element of a file; a field is None when its child element is missing. */
  datatype Info = Info(
    name: Option<string>,
    editorAlias: Option<string>,
    databaseType: Option<StorageType>,
    folder: Option<FolderElement>)

  /**
    A parsed data type file: the root's Key, Alias and Level attributes, the
    `Info` element, and the text of the `Config` element (None when missing).
  */
  datatype Node = Node(key: Guid, alias: string, level: int, info: Info, config: Option<string>)

  /** A configuration codec: reads configuration text into an object and writes it back. */
  datatype Codec<!C> = Codec(read: string -> C, write: C -> string)

  /** The host services the serializer consults. */
  datatype Host<!C> = Host(
    /** aliases of the registered data editors, in registry order */
    dataEditors: seq<string>,
    /** aliases of the registered property editors, in registry order */
    propertyEditors: seq<string>,
    /** the storage type of a freshly constructed data type */
    defaultStorage: StorageType,
    /** the configuration a freshly constructed data type has for an editor alias */
    defaultConfiguration: string -> Option<C>,
    /** the configuration serializer registered for an editor alias, if any */
    configSerializer: string -> Option<Codec<C>>,
    /** JSON with indented output: the codec used when no serializer is registered */
    json: Codec<C>,
    /** JSON with no formatting: the canonical string configurations are compared by */
    compact: C -> string,
    /** the folder a Folder element resolves to (by key, then by path), if any */
    findFolder: (Guid, string) -> Option<Container>,
    /** the Folder element written for an item that is not at the root, if any */
    folderElement: DataType<C> -> Option<FolderElement>)

  /** The value carried by a change record. */
  datatype Value<C> =
    | StringValue(text: string)
    | KeyValue(guid: Guid)
    | StorageValue(storage: StorageType)
    | IdValue(number: int)
    | ConfigValue(config: C)

  /** The fields a change record can be about, in the order DeserializeCore visits them. */
  datatype Field = Name | Key | EditorAlias | DatabaseType | Config | Folder

  /** A change record: an update of `field` at `path` from `oldValue` to `newValue`. */
  datatype Change<C> = Update(field: Field, path: string, oldValue: Value<C>, newValue: Value<C>)

  /** Why deserializing a node fails. */
  datatype Error =
    | NotFound(message: string)   // the item could not be found or created
    | NullConfiguration           // the item's configuration is null but the file has a Config

  /** An item together with the change records produced so far; also the result of deserializing a node. */
  datatype Diff<C> = Diff(item: DataType<C>, changes: seq<Change<C>>)

  type Settings = map<string, string>

  // ---------------------------------------------------------------------
  // Reading the file node (element values, or their defaults when missing)
  // ---------------------------------------------------------------------

  function FileName(node: Node): string { node.info.name.GetOr("") }

  function FileEditorAlias(node: Node): string { node.info.editorAlias.GetOr("") }

  function FileStorageType(node: Node): StorageType { node.info.databaseType.GetOr(Nvarchar) }

  function FileConfig(node: Node): string { node.config.GetOr("") }

  /** A handler setting, or `default` when it is not set. */
  function GetSetting(options: Settings, key: string, default: string): string {
    if key in options then options[key] else default
  }

  // ---------------------------------------------------------------------
  // Lookups
  // ---------------------------------------------------------------------

  /** The first registered alias equal to `alias` ignoring case, if any. */
  function FirstEditor(editors: seq<string>, alias: string): (r: Option<string>)
    ensures r.Some? ==> r.value in editors && InvariantEquals(r.value, alias)
    ensures r.Some? ==> exists i :: 0 <= i < |editors| && editors[i] == r.value
                          && forall j :: 0 <= j < i ==> !InvariantEquals(editors[j], alias)
    ensures r.None? <==> forall e :: e in editors ==> !InvariantEquals(e, alias)
  {
    if editors == [] then None
    else if InvariantEquals(editors[0], alias) then Some(editors[0])
    else
      var rest := FirstEditor(editors[1..], alias);
      assert forall e :: e in editors ==> e == editors[0] || e in editors[1..];
      if rest.Some? then
        var i :| 0 <= i < |editors[1..]| && editors[1..][i] == rest.value
                 && forall j :: 0 <= j < i ==> !InvariantEquals(editors[1..][j], alias);
        assert editors[i + 1] == rest.value;
        rest
      else rest
  }

  /** The codec for an editor alias: its registered serializer, or JSON. */
  function CodecFor<C>(host: Host<C>, alias: string): Codec<C> {
    match host.configSerializer(alias)
    case Some(c) => c
    case None => host.json
  }

  /** Two configuration objects are equal when their compact JSON strings are. */
  predicate IsJsonEqual<C>(host: Host<C>, current: C, incoming: C) {
    host.compact(current) == host.compact(incoming)
  }

  /** The folder a node's Folder element resolves to; None when the element is blank or does not resolve. */
  function FolderTarget<C>(host: Host<C>, node: Node): Option<Container> {
    match node.info.folder
    case None => None
    case Some(f) => if IsBlank(f.path) then None else host.findFolder(f.key, f.path)
  }

  // ---------------------------------------------------------------------
  // Policy
  // ---------------------------------------------------------------------

  /**
    Whether the Config element of a file is deserialized: not when the
    NoConfigEditors setting is non-blank and contains the file's editor alias,
    nor when the NoConfigNames setting is non-blank and contains the file's
    name (both as case-insensitive substrings).
  */
  predicate ShouldDeserializeConfig(itemName: string, editorAlias: string, options: Settings) {
    var noConfigEditors := GetSetting(options, "NoConfigEditors", "");
    var noConfigNames := GetSetting(options, "NoConfigNames", "");
    if !IsBlank(noConfigEditors) && InvariantContains(noConfigEditors, editorAlias) then false
    else if !IsBlank(noConfigNames) && InvariantContains(noConfigNames, itemName) then false
    else true
  }

  // ---------------------------------------------------------------------
  // Change-record bookkeeping used by the contracts
  // ---------------------------------------------------------------------

  /** The fields of a list of change records, in order. */
  function Fields<C>(cs: seq<Change<C>>): (fs: seq<Field>)
    ensures |fs| == |cs|
  {
    if cs == [] then [] else [cs[0].field] + Fields(cs[1..])
  }

  lemma {:induction false} FieldsAppend<C>(a: seq<Change<C>>, b: seq<Change<C>>)
    ensures Fields(a + b) == Fields(a) + Fields(b)
  {
    if a != [] {
      assert (a + b)[0] == a[0];
      assert Fields(a) == [a[0].field] + Fields(a[1..]);
      assert (a + b)[1..] == a[1..] + b;
      FieldsAppend(a[1..], b);
      assert Fields(a + b) == [a[0].field] + Fields(a[1..] + b);
    } else {
      assert a + b == b;
    }
  }

  /** Some record in `cs` is about `field`. */
  predicate Recorded<C>(cs: seq<Change<C>>, field: Field) {
    field in Fields(cs)
  }

  /** Every record in `cs` about `field` is exactly `expected`. */
  ghost predicate RecordIs<C>(cs: seq<Change<C>>, field: Field, expected: Change<C>) {
    forall c :: c in cs && c.field == field ==> c == expected
  }

  /** The position of a field in the order DeserializeCore visits them. */
  function FieldRank(f: Field): nat {
    match f
    case Name => 0
    case Key => 1
    case EditorAlias => 2
    case DatabaseType => 3
    case Config => 4
    case Folder => 5
  }

  /** Every field in `fs` ranks below `bound`. */
  predicate RanksBelow(fs: seq<Field>, bound: nat) {
    forall i :: 0 <= i < |fs| ==> FieldRank(fs[i]) < bound
  }

  /** Every field in `fs` ranks at `bound` or above. */
  predicate RanksFrom(fs: seq<Field>, bound: nat) {
    forall i :: 0 <= i < |fs| ==> bound <= FieldRank(fs[i])
  }

  /** The fields in `fs` have strictly increasing ranks: no field twice, in visiting order. */
  predicate Ordered(fs: seq<Field>) {
    forall i, j :: 0 <= i < j < |fs| ==> FieldRank(fs[i]) < FieldRank(fs[j])
  }

  /** Each field is recorded at most once, and the records follow the visiting order. */
  predicate InFieldOrder<C>(cs: seq<Change<C>>) {
    Ordered(Fields(cs))
  }

  lemma OrderedAppend(a: seq<Field>, b: seq<Field>, bound: nat)
    requires Ordered(a) && Ordered(b) && RanksBelow(a, bound) && RanksFrom(b, bound)
    ensures Ordered(a + b)
  {
    forall i, j | 0 <= i < j < |a + b| ensures FieldRank((a + b)[i]) < FieldRank((a + b)[j]) {
      if j < |a| {
      } else if i >= |a| {
        assert (a + b)[i] == b[i - |a|] && (a + b)[j] == b[j - |a|];
      } else {
        assert (a + b)[j] == b[j - |a|];
      }
    }
  }

  lemma RanksAppend(a: seq<Field>, b: seq<Field>, bound: nat)
    requires RanksBelow(a, bound) && RanksBelow(b, bound)
    ensures RanksBelow(a + b, bound)
  {
    forall i | 0 <= i < |a + b| ensures FieldRank((a + b)[i]) < bound {
      if i >= |a| { assert (a + b)[i] == b[i - |a|]; }
    }
  }

  /** The fields of an optional single record about `field`. */
  lemma OptionalField(fs: seq<Field>, field: Field)
    requires fs == [] || fs == [field]
    ensures Ordered(fs)
    ensures RanksBelow(fs, FieldRank(field) + 1) && RanksFrom(fs, FieldRank(field))
  {
  }

  // ---------------------------------------------------------------------
  // The field steps of DeserializeCore
  // ---------------------------------------------------------------------

  /** The record of a Name change: path "Name", the item's name, then the file's. */
  function NameRecord<C>(item: DataType<C>, node: Node): Change<C> {
    Update(Name, "Name", StringValue(item.name), StringValue(FileName(node)))
  }

  /** The record of a Key change: path "Key", the item's key, then the file's. */
  function KeyRecord<C>(item: DataType<C>, node: Node): Change<C> {
    Update(Key, "Key", KeyValue(item.key), KeyValue(node.key))
  }

  /** The record of an editor switch: path "EditorAlias", the item's alias, then the file's spelling of it. */
  function EditorRecord<C>(item: DataType<C>, node: Node): Change<C> {
    Update(EditorAlias, "EditorAlias", StringValue(item.editorAlias), StringValue(FileEditorAlias(node)))
  }

  /** The record of a DatabaseType change: path "DatabaseType", the item's storage type, then the file's. */
  function StorageRecord<C>(item: DataType<C>, node: Node): Change<C> {
    Update(DatabaseType, "DatabaseType", StorageValue(item.databaseType), StorageValue(FileStorageType(node)))
  }

  function NameChanges<C>(item: DataType<C>, node: Node): seq<Change<C>> {
    if item.name != FileName(node) then [NameRecord(item, node)] else []
  }

  function KeyChanges<C>(item: DataType<C>, node: Node): seq<Change<C>> {
    if item.key != node.key then [KeyRecord(item, node)] else []
  }

  /** The editor is switched only when the alias differs and a registered editor matches it ignoring case. */
  predicate SwitchesEditor<C>(host: Host<C>, item: DataType<C>, node: Node) {
    FileEditorAlias(node) != item.editorAlias && FirstEditor(host.dataEditors, FileEditorAlias(node)).Some?
  }

  /** The item's editor alias after the EditorAlias step: the matching registered alias, or unchanged. */
  function EditorAfter<C>(host: Host<C>, item: DataType<C>, node: Node): string {
    if SwitchesEditor(host, item, node)
    then FirstEditor(host.dataEditors, FileEditorAlias(node)).value
    else item.editorAlias
  }

  function EditorChanges<C>(host: Host<C>, item: DataType<C>, node: Node): seq<Change<C>> {
    if SwitchesEditor(host, item, node) then [EditorRecord(item, node)] else []
  }

  function StorageChanges<C>(item: DataType<C>, node: Node): seq<Change<C>> {
    if item.databaseType != FileStorageType(node) then [StorageRecord(item, node)] else []
  }

  /** The result of the Name, Key, EditorAlias and DatabaseType steps on an item. */
  function ScalarSteps<C>(host: Host<C>, item: DataType<C>, node: Node): Diff<C> {
    var updated := item.(name := FileName(node), key := node.key, editorAlias := EditorAfter(host, item, node),
                         databaseType := FileStorageType(node));
    Diff(updated, NameChanges(item, node) + KeyChanges(item, node) + EditorChanges(host, item, node)
                  + StorageChanges(item, node))
  }

  /**
    The Config step: a blank Config text changes nothing; otherwise the text
    is read with the codec of the item's editor and replaces the current
    configuration exactly when the compact JSON of the two differs. A null
    current configuration makes the source throw.
  */
  function DeserializeConfiguration<C>(host: Host<C>, item: DataType<C>, node: Node): (r: Result<Diff<C>, Error>)
    ensures r.Failure? <==> !IsBlank(FileConfig(node)) && item.configuration.None?
    ensures r.Success? ==> |r.value.changes| <= 1
    ensures r.Success? ==> r.value.item.(configuration := item.configuration) == item
    ensures IsBlank(FileConfig(node)) ==> r == Success(Diff(item, []))
    ensures r.Success? && r.value.changes != [] ==>
              && Fields(r.value.changes) == [Config]
              && item.configuration.Some?
              && r.value.item.configuration.Some?
              && r.value.changes == [Update(Config, "Configuration", ConfigValue(item.configuration.value),
                                            ConfigValue(r.value.item.configuration.value))]
              && r.value.item.configuration == Some(CodecFor(host, item.editorAlias).read(FileConfig(node)))
              && !IsJsonEqual(host, item.configuration.value, r.value.item.configuration.value)
    ensures r.Success? && r.value.changes == [] ==> r.value.item == item
    ensures r.Success? && r.value.changes == [] && !IsBlank(FileConfig(node)) ==>
              IsJsonEqual(host, item.configuration.value, CodecFor(host, item.editorAlias).read(FileConfig(node)))
  {
    var text := FileConfig(node);
    if IsBlank(text) then Success(Diff(item, []))
    else
      match item.configuration
      case None => Failure(NullConfiguration)
      case Some(current) =>
        var incoming := CodecFor(host, item.editorAlias).read(text);
        if !IsJsonEqual(host, current, incoming) then
          Success(Diff(item.(configuration := Some(incoming)),
                       [Update(Config, "Configuration", ConfigValue(current), ConfigValue(incoming))]))
        else Success(Diff(item, []))
  }

  /**
    The Folder step: a blank Folder element changes nothing; a folder that
    resolves to a container other than the current parent reparents the item
    and yields one record, written with the container's id first and the
    previous parent id second, as the source passes them.
  */
  function SetFolderFromElement<C>(host: Host<C>, item: DataType<C>, node: Node): (r: Diff<C>)
    ensures r.changes != [] <==> FolderTarget(host, node).Some? && FolderTarget(host, node).value.id != item.parentId
    ensures r.changes != [] ==> r.item == item.(parentId := FolderTarget(host, node).value.id)
                                && r.changes == [Update(Folder, "", IdValue(r.item.parentId), IdValue(item.parentId))]
    ensures r.changes == [] ==> r.item == item
  {
    match FolderTarget(host, node)
    case Some(container) =>
      if container.id != item.parentId then
        Diff(item.(parentId := container.id), [Update(Folder, "", IdValue(container.id), IdValue(item.parentId))])
      else Diff(item, [])
    case None => Diff(item, [])
  }

  // ---------------------------------------------------------------------
  // Deserialize
  // ---------------------------------------------------------------------

  /** The Config step as DeserializeCore runs it: skipped when the policy says so. */
  function ConfigStep<C>(host: Host<C>, item: DataType<C>, node: Node, options: Settings): Result<Diff<C>, Error> {
    if ShouldDeserializeConfig(FileName(node), FileEditorAlias(node), options)
    then DeserializeConfiguration(host, item, node)
    else Success(Diff(item, []))
  }

  /**
    What a successful deserialization of `node` into `item` guarantees of the
    resulting item `out`, part 1: the scalar fields hold the file's values, and
    each of them is recorded exactly when it differed, with the record the
    scalar steps write.
  */
  ghost predicate ScalarsFaithful<C>(host: Host<C>, node: Node, item: DataType<C>, out: DataType<C>, cs: seq<Change<C>>) {
    ScalarValuesFaithful(host, node, item, out, cs) && ScalarRecordsAre(cs, item, node)
  }

  /** The scalar fields hold the file's values, each recorded exactly when it differed. */
  ghost predicate ScalarValuesFaithful<C>(host: Host<C>, node: Node, item: DataType<C>, out: DataType<C>,
                                          cs: seq<Change<C>>) {
    && out.name == FileName(node)
    && out.key == node.key
    && out.databaseType == FileStorageType(node)
    && out.id == item.id && out.level == item.level
    && (Recorded(cs, Name) <==> item.name != FileName(node))
    && (Recorded(cs, Key) <==> item.key != node.key)
    && (Recorded(cs, DatabaseType) <==> item.databaseType != FileStorageType(node))
    && (Recorded(cs, EditorAlias) <==>
          FileEditorAlias(node) != item.editorAlias && FirstEditor(host.dataEditors, FileEditorAlias(node)).Some?)
    && out.editorAlias == (if Recorded(cs, EditorAlias)
                           then FirstEditor(host.dataEditors, FileEditorAlias(node)).value
                           else item.editorAlias)
  }

  /** Every scalar record in `cs` is the one the scalar steps write for `item` and `node`. */
  ghost predicate ScalarRecordsAre<C>(cs: seq<Change<C>>, item: DataType<C>, node: Node) {
    && RecordIs(cs, Name, NameRecord(item, node))
    && RecordIs(cs, Key, KeyRecord(item, node))
    && RecordIs(cs, EditorAlias, EditorRecord(item, node))
    && RecordIs(cs, DatabaseType, StorageRecord(item, node))
  }

  /**
    Part 2: the configuration changes exactly when a Config record says so,
    which happens exactly when the policy allows, the Config text is not
    blank and its compact JSON differs from the current configuration's.
  */
  ghost predicate ConfigFaithful<C>(host: Host<C>, node: Node, options: Settings, item: DataType<C>,
                                    out: DataType<C>, cs: seq<Change<C>>) {
    && (Recorded(cs, Config) <==> out.configuration != item.configuration)
    && (Recorded(cs, Config) ==>
          && ShouldDeserializeConfig(FileName(node), FileEditorAlias(node), options)
          && !IsBlank(FileConfig(node))
          && item.configuration.Some? && out.configuration.Some?
          && out.configuration.value == CodecFor(host, out.editorAlias).read(FileConfig(node))
          && !IsJsonEqual(host, item.configuration.value, out.configuration.value)
          && RecordIs(cs, Config, Update(Config, "Configuration", ConfigValue(item.configuration.value),
                                         ConfigValue(out.configuration.value))))
    && (&& ShouldDeserializeConfig(FileName(node), FileEditorAlias(node), options)
        && !IsBlank(FileConfig(node))
        && item.configuration.Some?
        && !IsJsonEqual(host, item.configuration.value, CodecFor(host, out.editorAlias).read(FileConfig(node)))
        ==> Recorded(cs, Config))
  }

  /**
    Part 3: the parent changes exactly when a Folder record says so, which
    happens exactly when the Folder element resolves to a container other
    than the current parent.
  */
  ghost predicate FolderFaithful<C>(host: Host<C>, node: Node, item: DataType<C>, out: DataType<C>,
                                    cs: seq<Change<C>>) {
    && (Recorded(cs, Folder) <==> out.parentId != item.parentId)
    && (Recorded(cs, Folder) <==>
          FolderTarget(host, node).Some? && FolderTarget(host, node).value.id != item.parentId)
    && (Recorded(cs, Folder) ==>
          && FolderTarget(host, node).value.id == out.parentId
          && RecordIs(cs, Folder, Update(Folder, "", IdValue(out.parentId), IdValue(item.parentId))))
  }

  ghost predicate ConfigAndFolderFaithful<C>(host: Host<C>, node: Node, options: Settings, item: DataType<C>,
                                             out: DataType<C>, cs: seq<Change<C>>) {
    ConfigFaithful(host, node, options, item, out, cs) && FolderFaithful(host, node, item, out, cs)
  }

  /** Everything a successful deserialization guarantees, including record order and "no record, no change". */
  ghost predicate FaithfulDiff<C>(host: Host<C>, node: Node, options: Settings, item: DataType<C>,
                                  out: DataType<C>, cs: seq<Change<C>>)
  {
    && ScalarsFaithful(host, node, item, out, cs)
    && ConfigAndFolderFaithful(host, node, options, item, out, cs)
    && InFieldOrder(cs)
    && (cs == [] ==> out == item)
  }

  /** The field names the scalar steps record: each field exactly when it differs, in visiting order. */
  lemma ScalarNames<C>(host: Host<C>, item: DataType<C>, node: Node)
    ensures var sn := Fields(ScalarSteps(host, item, node).changes);
            && (Name in sn <==> item.name != FileName(node))
            && (Key in sn <==> item.key != node.key)
            && (EditorAlias in sn <==> SwitchesEditor(host, item, node))
            && (DatabaseType in sn <==> item.databaseType != FileStorageType(node))
            && RanksBelow(sn, 4) && Ordered(sn)
  {
    var n, k, e, t := NameChanges(item, node), KeyChanges(item, node), EditorChanges(host, item, node),
                      StorageChanges(item, node);
    var fn, fk, fe, ft := Fields(n), Fields(k), Fields(e), Fields(t);
    assert fn == [] || fn == [Name];
    assert Name in fn <==> item.name != FileName(node);
    assert fk == [] || fk == [Key];
    assert Key in fk <==> item.key != node.key;
    assert fe == [] || fe == [EditorAlias];
    assert EditorAlias in fe <==> SwitchesEditor(host, item, node);
    assert ft == [] || ft == [DatabaseType];
    assert DatabaseType in ft <==> item.databaseType != FileStorageType(node);
    FieldsAppend(n, k);
    FieldsAppend(n + k, e);
    FieldsAppend(n + k + e, t);
    assert Fields(ScalarSteps(host, item, node).changes) == fn + fk + fe + ft;
    ScalarOrder(fn, fk, fe, ft);
  }

  /** The records the scalar steps produce, field by field; none is about Config or Folder. */
  lemma ScalarRecords<C>(host: Host<C>, item: DataType<C>, node: Node)
    ensures ScalarRecordsAre(ScalarSteps(host, item, node).changes, item, node)
    ensures forall c :: c in ScalarSteps(host, item, node).changes ==> c.field != Config && c.field != Folder
  {
    FourRecords(NameChanges(item, node), KeyChanges(item, node), EditorChanges(host, item, node),
                StorageChanges(item, node), NameRecord(item, node), KeyRecord(item, node), EditorRecord(item, node),
                StorageRecord(item, node));
  }

  /** Four optional single records, one per scalar field, say exactly those records about each field. */
  lemma FourRecords<C>(n: seq<Change<C>>, k: seq<Change<C>>, e: seq<Change<C>>, t: seq<Change<C>>,
                       rn: Change<C>, rk: Change<C>, re: Change<C>, rt: Change<C>)
    requires rn.field == Name && rk.field == Key && re.field == EditorAlias && rt.field == DatabaseType
    requires (n == [] || n == [rn]) && (k == [] || k == [rk]) && (e == [] || e == [re]) && (t == [] || t == [rt])
    ensures var cs := n + k + e + t;
            && RecordIs(cs, Name, rn) && RecordIs(cs, Key, rk)
            && RecordIs(cs, EditorAlias, re) && RecordIs(cs, DatabaseType, rt)
            && forall c :: c in cs ==> c.field != Config && c.field != Folder
  {
    forall c | c in n + k + e + t
      ensures c == rn || c == rk || c == re || c == rt
    {
      assert c in n || c in k || c in e || c in t;
    }
  }

  /** Four optional single records, one per scalar field, concatenate into field order. */
  lemma ScalarOrder(fn: seq<Field>, fk: seq<Field>, fe: seq<Field>, ft: seq<Field>)
    requires fn == [] || fn == [Name]
    requires fk == [] || fk == [Key]
    requires fe == [] || fe == [EditorAlias]
    requires ft == [] || ft == [DatabaseType]
    ensures var sn := fn + fk + fe + ft;
            && (Name in sn <==> Name in fn) && (Key in sn <==> Key in fk)
            && (EditorAlias in sn <==> EditorAlias in fe) && (DatabaseType in sn <==> DatabaseType in ft)
            && RanksBelow(sn, 4) && Ordered(sn)
  {
    OptionalField(fn, Name);
    OptionalStep(fn, fk, Key);
    OptionalStep(fn + fk, fe, EditorAlias);
    OptionalStep(fn + fk + fe, ft, DatabaseType);
  }

  /** Appending an optional record about `field` to records of lower rank keeps them ordered. */
  lemma OptionalStep(a: seq<Field>, fs: seq<Field>, field: Field)
    requires Ordered(a) && RanksBelow(a, FieldRank(field))
    requires fs == [] || fs == [field]
    ensures Ordered(a + fs) && RanksBelow(a + fs, FieldRank(field) + 1)
  {
    OptionalField(fs, field);
    OrderedAppend(a, fs, FieldRank(field));
    RanksAppend(a, fs, FieldRank(field) + 1);
  }

  /** How the three parts of a successful deserialization fit together. */
  lemma Pieces<C>(host: Host<C>, node: Node, options: Settings, item: DataType<C>, config: Diff<C>)
    requires ConfigStep(host, ScalarSteps(host, item, node).item, node, options) == Success(config)
    ensures var scalars := ScalarSteps(host, item, node);
            var folder := SetFolderFromElement(host, config.item, node);
            var sn, cn, fn := Fields(scalars.changes), Fields(config.changes), Fields(folder.changes);
            && Fields(scalars.changes + config.changes + folder.changes) == sn + cn + fn
            && (cn == [] || cn == [Config])
            && (cn != [] <==> config.item.configuration != item.configuration)
            && (fn == [] || fn == [Folder])
            && (fn != [] <==> folder.item.parentId != item.parentId)
            && config.item == scalars.item.(configuration := config.item.configuration)
            && folder.item == config.item.(parentId := folder.item.parentId)
            && Ordered(sn + cn + fn)
            && (Name in sn + cn + fn <==> Name in sn) && (Key in sn + cn + fn <==> Key in sn)
            && (EditorAlias in sn + cn + fn <==> EditorAlias in sn)
            && (DatabaseType in sn + cn + fn <==> DatabaseType in sn)
            && (Config in sn + cn + fn <==> Config in cn) && (Folder in sn + cn + fn <==> Folder in fn)
  {
    var scalars := ScalarSteps(host, item, node);
    var folder := SetFolderFromElement(host, config.item, node);
    ScalarNames(host, item, node);
    FieldsAppend(scalars.changes, config.changes);
    FieldsAppend(scalars.changes + config.changes, folder.changes);
    ConfigPiece(host, node, options, item, config);
    FolderPiece(host, config.item, node);
    TailOrder(Fields(scalars.changes), Fields(config.changes), Fields(folder.changes));
  }

  /** The configuration step records at most a Config change, exactly when the configuration changes, and touches nothing else. */
  lemma ConfigPiece<C>(host: Host<C>, node: Node, options: Settings, item: DataType<C>, config: Diff<C>)
    requires ConfigStep(host, ScalarSteps(host, item, node).item, node, options) == Success(config)
    ensures var cn := Fields(config.changes);
            && (cn == [] || cn == [Config])
            && (cn != [] <==> config.item.configuration != item.configuration)
            && config.item == ScalarSteps(host, item, node).item.(configuration := config.item.configuration)
    ensures config.changes != [] ==>
              && item.configuration.Some? && config.item.configuration.Some?
              && config.changes == [Update(Config, "Configuration", ConfigValue(item.configuration.value),
                                           ConfigValue(config.item.configuration.value))]
  {
    var scalars := ScalarSteps(host, item, node);
    assert config.item.(configuration := scalars.item.configuration) == scalars.item;
  }

  /** The folder step records at most a Folder change, exactly when the parent changes, and touches nothing else. */
  lemma FolderPiece<C>(host: Host<C>, item: DataType<C>, node: Node)
    ensures var folder := SetFolderFromElement(host, item, node);
            var fn := Fields(folder.changes);
            && (fn == [] || fn == [Folder])
            && (fn != [] <==> folder.item.parentId != item.parentId)
            && folder.item == item.(parentId := folder.item.parentId)
            && (folder.changes == [] || folder.changes == [Update(Folder, "", IdValue(folder.item.parentId),
                                                                  IdValue(item.parentId))])
  {
  }

  lemma DeserializeScalarsFaithful<C>(host: Host<C>, node: Node, options: Settings, item: DataType<C>, config: Diff<C>)
    requires ConfigStep(host, ScalarSteps(host, item, node).item, node, options) == Success(config)
    ensures var scalars := ScalarSteps(host, item, node);
            var folder := SetFolderFromElement(host, config.item, node);
            ScalarsFaithful(host, node, item, folder.item, scalars.changes + config.changes + folder.changes)
  {
    DeserializeScalarValues(host, node, options, item, config);
    DeserializeScalarRecords(host, node, options, item, config);
  }

  lemma DeserializeScalarValues<C>(host: Host<C>, node: Node, options: Settings, item: DataType<C>, config: Diff<C>)
    requires ConfigStep(host, ScalarSteps(host, item, node).item, node, options) == Success(config)
    ensures var scalars := ScalarSteps(host, item, node);
            var folder := SetFolderFromElement(host, config.item, node);
            ScalarValuesFaithful(host, node, item, folder.item, scalars.changes + config.changes + folder.changes)
  {
    Pieces(host, node, options, item, config);
    ScalarNames(host, item, node);
  }

  /** The scalar records of a whole deserialization are those of the scalar steps. */
  lemma DeserializeScalarRecords<C>(host: Host<C>, node: Node, options: Settings, item: DataType<C>, config: Diff<C>)
    requires ConfigStep(host, ScalarSteps(host, item, node).item, node, options) == Success(config)
    ensures ScalarRecordsAre(ScalarSteps(host, item, node).changes + config.changes
                             + SetFolderFromElement(host, config.item, node).changes, item, node)
  {
    ConfigPiece(host, node, options, item, config);
    FolderPiece(host, config.item, node);
    ScalarRecords(host, item, node);
    ScalarRecordsAcross(ScalarSteps(host, item, node).changes, config.changes,
                        SetFolderFromElement(host, config.item, node).changes, item, node);
  }

  /** Config and Folder records after the scalar ones leave what those say about the scalar fields. */
  lemma ScalarRecordsAcross<C>(s: seq<Change<C>>, c: seq<Change<C>>, f: seq<Change<C>>, item: DataType<C>, node: Node)
    requires ScalarRecordsAre(s, item, node)
    requires c == [] || (|c| == 1 && c[0].field == Config)
    requires f == [] || (|f| == 1 && f[0].field == Folder)
    ensures ScalarRecordsAre(s + c + f, item, node)
  {
    RecordAcross(s, c, f, Name, NameRecord(item, node));
    RecordAcross(s, c, f, Key, KeyRecord(item, node));
    RecordAcross(s, c, f, EditorAlias, EditorRecord(item, node));
    RecordAcross(s, c, f, DatabaseType, StorageRecord(item, node));
  }

  /** An optional Config and an optional Folder record after `s` leave what it says about a scalar field. */
  lemma RecordAcross<C>(s: seq<Change<C>>, c: seq<Change<C>>, f: seq<Change<C>>, field: Field, e: Change<C>)
    requires RecordIs(s, field, e) && field != Config && field != Folder
    requires c == [] || (|c| == 1 && c[0].field == Config)
    requires f == [] || (|f| == 1 && f[0].field == Folder)
    ensures RecordIs(s + c + f, field, e)
  {
    forall x | x in s + c + f && x.field == field
      ensures x == e
    {
      assert x in s;
    }
  }

  lemma DeserializeConfigFaithful<C>(host: Host<C>, node: Node, options: Settings, item: DataType<C>, config: Diff<C>)
    requires ConfigStep(host, ScalarSteps(host, item, node).item, node, options) == Success(config)
    ensures var scalars := ScalarSteps(host, item, node);
            var folder := SetFolderFromElement(host, config.item, node);
            ConfigFaithful(host, node, options, item, folder.item, scalars.changes + config.changes + folder.changes)
  {
    Pieces(host, node, options, item, config);
    var scalars := ScalarSteps(host, item, node);
    var folder := SetFolderFromElement(host, config.item, node);
    assert folder.item.editorAlias == scalars.item.editorAlias;
    if config.changes != [] {
      assert ShouldDeserializeConfig(FileName(node), FileEditorAlias(node), options);
      assert DeserializeConfiguration(host, scalars.item, node) == Success(config);
      ConfigPiece(host, node, options, item, config);
      ScalarRecords(host, item, node);
      FolderPiece(host, config.item, node);
    } else if ShouldDeserializeConfig(FileName(node), FileEditorAlias(node), options) {
      assert DeserializeConfiguration(host, scalars.item, node) == Success(config);
    }
  }

  lemma DeserializeFolderFaithful<C>(host: Host<C>, node: Node, options: Settings, item: DataType<C>, config: Diff<C>)
    requires ConfigStep(host, ScalarSteps(host, item, node).item, node, options) == Success(config)
    ensures var scalars := ScalarSteps(host, item, node);
            var folder := SetFolderFromElement(host, config.item, node);
            FolderFaithful(host, node, item, folder.item, scalars.changes + config.changes + folder.changes)
  {
    Pieces(host, node, options, item, config);
    FolderRecord(host, node, options, item, config);
  }

  /** The only Folder record of a whole deserialization is the one the folder step writes. */
  lemma FolderRecord<C>(host: Host<C>, node: Node, options: Settings, item: DataType<C>, config: Diff<C>)
    requires ConfigStep(host, ScalarSteps(host, item, node).item, node, options) == Success(config)
    ensures var scalars := ScalarSteps(host, item, node);
            var folder := SetFolderFromElement(host, config.item, node);
            RecordIs(scalars.changes + config.changes + folder.changes, Folder,
                     Update(Folder, "", IdValue(folder.item.parentId), IdValue(item.parentId)))
  {
    var scalars := ScalarSteps(host, item, node);
    var folder := SetFolderFromElement(host, config.item, node);
    ScalarRecords(host, item, node);
    ConfigPiece(host, node, options, item, config);
    FolderPiece(host, config.item, node);
    assert config.item.parentId == item.parentId;
    RecordsAfter(scalars.changes + config.changes, folder.changes, Folder,
                 Update(Folder, "", IdValue(folder.item.parentId), IdValue(item.parentId)));
  }

  /** Records about other fields placed before `t` keep what `t` says about `field`. */
  lemma RecordsAfter<C>(s: seq<Change<C>>, t: seq<Change<C>>, field: Field, e: Change<C>)
    requires forall c :: c in s ==> c.field != field
    requires RecordIs(t, field, e)
    ensures RecordIs(s + t, field, e)
  {
  }

  lemma DeserializeOrderFaithful<C>(host: Host<C>, node: Node, options: Settings, item: DataType<C>, config: Diff<C>)
    requires ConfigStep(host, ScalarSteps(host, item, node).item, node, options) == Success(config)
    ensures var scalars := ScalarSteps(host, item, node);
            var folder := SetFolderFromElement(host, config.item, node);
            var cs := scalars.changes + config.changes + folder.changes;
            InFieldOrder(cs) && (cs == [] ==> folder.item == item)
  {
    Pieces(host, node, options, item, config);
  }

  /** The scalar records followed by an optional Config and an optional Folder record stay in field order. */
  lemma TailOrder(sn: seq<Field>, cn: seq<Field>, fn: seq<Field>)
    requires RanksBelow(sn, 4) && Ordered(sn)
    requires cn == [] || cn == [Config]
    requires fn == [] || fn == [Folder]
    ensures var all := sn + cn + fn;
            && Ordered(all)
            && (Name in all <==> Name in sn) && (Key in all <==> Key in sn)
            && (EditorAlias in all <==> EditorAlias in sn) && (DatabaseType in all <==> DatabaseType in sn)
            && (Config in all <==> Config in cn) && (Folder in all <==> Folder in fn)
  {
    OptionalField(cn, Config);
    OptionalField(fn, Folder);
    OrderedAppend(sn, cn, 4);
    RanksAppend(sn, cn, 5);
    OrderedAppend(sn + cn, fn, 5);
    TailMembers(sn, cn, fn);
  }

  /** Which fields occur once the optional Config and Folder fields follow the scalar ones. */
  lemma TailMembers(sn: seq<Field>, cn: seq<Field>, fn: seq<Field>)
    requires RanksBelow(sn, 4)
    requires cn == [] || cn == [Config]
    requires fn == [] || fn == [Folder]
    ensures var all := sn + cn + fn;
            && (Name in all <==> Name in sn) && (Key in all <==> Key in sn)
            && (EditorAlias in all <==> EditorAlias in sn) && (DatabaseType in all <==> DatabaseType in sn)
            && (Config in all <==> Config in cn) && (Folder in all <==> Folder in fn)
  {
    assert Config !in sn && Folder !in sn;
    assert Name !in cn + fn && Key !in cn + fn && EditorAlias !in cn + fn && DatabaseType !in cn + fn;
    assert sn + cn + fn == sn + (cn + fn);
  }

  /**
    Diffs a file node into the item FindOrCreate returned for it (`found`).
    Each of Name, Key, EditorAlias and DatabaseType yields a record exactly
    when it really changes; Config is diffed by compact JSON when the policy
    allows; the Folder element may reparent the item. The item is changed only
    where a record says so.
  */
  function DeserializeCore<C>(host: Host<C>, node: Node, options: Settings, found: Result<DataType<C>, string>)
    : (r: Result<Diff<C>, Error>)
    ensures found.Failure? ==> r == Failure(NotFound(found.error))
    ensures found.Success? ==>
              (r.Failure? <==>
                 && ShouldDeserializeConfig(FileName(node), FileEditorAlias(node), options)
                 && !IsBlank(FileConfig(node))
                 && found.value.configuration.None?)
    ensures found.Success? && r.Failure? ==> r.error == NullConfiguration
    ensures found.Success? && r.Success? ==>
              FaithfulDiff(host, node, options, found.value, r.value.item, r.value.changes)
  {
    match found
    case Failure(message) => Failure(NotFound(message))
    case Success(item) =>
      var scalars := ScalarSteps(host, item, node);
      match ConfigStep(host, scalars.item, node, options)
      case Failure(e) => Failure(e)
      case Success(config) =>
        var folder := SetFolderFromElement(host, config.item, node);
        DeserializeScalarsFaithful(host, node, options, item, config);
        DeserializeConfigFaithful(host, node, options, item, config);
        DeserializeFolderFaithful(host, node, options, item, config);
        DeserializeOrderFaithful(host, node, options, item, config);
        Success(Diff(folder.item, scalars.changes + config.changes + folder.changes))
  }

  // ---------------------------------------------------------------------
  // Serialize
  // ---------------------------------------------------------------------

  /** The Config element's text: the configuration written by the editor's codec; None when it is null. */
  function SerializeConfiguration<C>(host: Host<C>, item: DataType<C>): (r: Option<string>)
    ensures r.Some? <==> item.configuration.Some?
    ensures r.Some? ==> r.value == CodecFor(host, item.editorAlias).write(item.configuration.value)
  {
    match item.configuration
    case Some(c) => Some(CodecFor(host, item.editorAlias).write(c))
    case None => None
  }

  /**
    The file node of an item: root Key, Alias (the name) and Level; an Info
    element holding exactly Name, EditorAlias and DatabaseType, plus the
    item's folder element (when it has one) only for items below the root
    level; and a Config element, holding the codec's text, exactly when the
    configuration is not null.
  */
  function SerializeCore<C>(host: Host<C>, item: DataType<C>): (node: Node)
    ensures node.key == item.key && node.alias == item.name && node.level == item.level
    ensures FileName(node) == item.name && node.info.name.Some?
    ensures FileEditorAlias(node) == item.editorAlias && node.info.editorAlias.Some?
    ensures FileStorageType(node) == item.databaseType && node.info.databaseType.Some?
    ensures item.level == 1 ==> node.info.folder.None?
    ensures item.level != 1 ==> node.info.folder == host.folderElement(item)
    ensures node.config.Some? <==> item.configuration.Some?
    ensures node.config.Some? ==> node.config.value == CodecFor(host, item.editorAlias).write(item.configuration.value)
  {
    var folder := if item.level != 1 then host.folderElement(item) else None;
    var info := Info(Some(item.name), Some(item.editorAlias), Some(item.databaseType), folder);
    Node(item.key, item.name, item.level, info, SerializeConfiguration(host, item))
  }

  // ---------------------------------------------------------------------
  // Create and save
  // ---------------------------------------------------------------------

  /**
    Creates a new, unsaved data type for a file whose item does not exist:
    it fails when no property editor has exactly the alias `itemType`;
    otherwise the item has the requested name and editor, the given fresh key
    and, when a parent folder is given, that parent.
  */
  function CreateItem<C>(host: Host<C>, alias: string, parent: Option<Container>, itemType: string, freshKey: Guid)
    : (r: Result<DataType<C>, Error>)
    ensures r.Success? <==> itemType in host.propertyEditors
    ensures r.Failure? ==> r.error == NotFound("(Missing Package?) DataEditor " + itemType + " is not installed")
    ensures r.Success? ==> && r.value.name == alias && r.value.editorAlias == itemType && r.value.key == freshKey
                           && r.value.parentId == (if parent.Some? then parent.value.id else -1)
                           && r.value.configuration == host.defaultConfiguration(itemType)
  {
    if itemType !in host.propertyEditors then
      Failure(NotFound("(Missing Package?) DataEditor " + itemType + " is not installed"))
    else
      var item := DataType(0, freshKey, alias, itemType, host.defaultStorage, host.defaultConfiguration(itemType), -1, 0);
      Success(if parent.Some? then item.(parentId := parent.value.id) else item)
  }

  /** The items handed to the data type service: the item only when it differs from the stored one. */
  function SaveItem<C(==)>(stored: DataType<C>, item: DataType<C>): (saved: seq<DataType<C>>)
    ensures saved == [] <==> item == stored
    ensures saved != [] ==> saved == [item]
  {
    if item != stored then [item] else []
  }
}
