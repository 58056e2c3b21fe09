/**
  Properties that relate several calls of the data type serializer: the
  round trip from an item through its file back onto the same item,
  re-importing the same file, the configuration exclusion settings, and
  saving only what a deserialization changed.
*/
module DataTypeSerializerProofs {
  import opened Wrappers
  import opened Text
  import SyncCore
  import opened DataTypeSerializer

  /** A change list in which no field is recorded is empty. */
  lemma NothingRecorded<C>(cs: seq<Change<C>>)
    requires !Recorded(cs, Name) && !Recorded(cs, Key) && !Recorded(cs, EditorAlias)
    requires !Recorded(cs, DatabaseType) && !Recorded(cs, Config) && !Recorded(cs, Folder)
    ensures cs == []
  {
    if cs != [] {
      var f := Fields(cs)[0];
      assert Recorded(cs, f);
      match f
      case Name =>
      case Key =>
      case EditorAlias =>
      case DatabaseType =>
      case Config =>
      case Folder =>
    }
  }

  // ---------------------------------------------------------------------
  // Round trip
  // ---------------------------------------------------------------------

  /**
    The editor's configuration codec reads back what it writes, up to the
    compact JSON the serializer compares configurations by.
  */
  ghost predicate CodecRoundTrips<C>(host: Host<C>, item: DataType<C>) {
    item.configuration.Some? ==>
      var codec := CodecFor(host, item.editorAlias);
      IsJsonEqual(host, item.configuration.value, codec.read(codec.write(item.configuration.value)))
  }

  /**
    The Folder element written for an item below the root resolves, if at
    all, to the item's current parent.
  */
  ghost predicate FolderRoundTrips<C>(host: Host<C>, item: DataType<C>) {
    item.level != 1 && host.folderElement(item).Some? && !IsBlank(host.folderElement(item).value.path) ==>
      var f := host.folderElement(item).value;
      host.findFolder(f.key, f.path).None? || host.findFolder(f.key, f.path).value.id == item.parentId
  }

  /**
    Writing an item to its file and deserializing that file onto the same
    item succeeds, records nothing, and leaves the item as it was, whatever
    the configuration settings: every element the file holds is the value
    deserialize compares against.
  */
  lemma RoundTrip<C>(host: Host<C>, item: DataType<C>, options: Settings)
    requires CodecRoundTrips(host, item) && FolderRoundTrips(host, item)
    ensures DeserializeCore(host, SerializeCore(host, item), options, Success(item))
            == Success(Diff(item, []))
  {
    var node := SerializeCore(host, item);
    assert item.configuration.None? ==> FileConfig(node) == "";
    var r := DeserializeCore(host, node, options, Success(item));
    assert r.Success?;
    var out, cs := r.value.item, r.value.changes;
    assert !Recorded(cs, EditorAlias) && out.editorAlias == item.editorAlias;
    NothingRecorded(cs);
  }

  /**
    Without any assumption on the codecs or folders, the file of an item
    carries the item's own Name, Key, EditorAlias and DatabaseType, so
    deserializing it onto that item records none of them and keeps them.
  */
  lemma SerializedScalarsMatch<C>(host: Host<C>, item: DataType<C>, options: Settings)
    ensures var r := DeserializeCore(host, SerializeCore(host, item), options, Success(item));
            r.Success? ==>
              && !Recorded(r.value.changes, Name) && !Recorded(r.value.changes, Key)
              && !Recorded(r.value.changes, EditorAlias) && !Recorded(r.value.changes, DatabaseType)
              && r.value.item.name == item.name && r.value.item.key == item.key
              && r.value.item.editorAlias == item.editorAlias && r.value.item.databaseType == item.databaseType
  {
    var node := SerializeCore(host, item);
    var r := DeserializeCore(host, node, options, Success(item));
    if r.Success? {
      assert ScalarsFaithful(host, node, item, r.value.item, r.value.changes);
    }
  }

  // ---------------------------------------------------------------------
  // Re-import
  // ---------------------------------------------------------------------

  /**
    The file's editor alias either matches no registered editor or is
    spelled exactly as the first registered editor that matches it.
  */
  predicate AliasCanonical<C>(host: Host<C>, node: Node) {
    var e := FirstEditor(host.dataEditors, FileEditorAlias(node));
    e.None? || e.value == FileEditorAlias(node)
  }

  /**
    Importing the same file a second time records nothing and changes
    nothing, provided the file's editor alias is spelled as the registry
    spells it (see ReimportRepeatsCaseOnlyAlias for why that is needed).
  */
  lemma Idempotent<C>(host: Host<C>, node: Node, options: Settings, item: DataType<C>)
    requires AliasCanonical(host, node)
    requires DeserializeCore(host, node, options, Success(item)).Success?
    ensures var once := DeserializeCore(host, node, options, Success(item)).value.item;
            DeserializeCore(host, node, options, Success(once)) == Success(Diff(once, []))
  {
    SecondRunRecordsNothing(host, node, options, item);
  }

  lemma SecondRunSucceeds<C>(host: Host<C>, node: Node, options: Settings, item: DataType<C>)
    requires DeserializeCore(host, node, options, Success(item)).Success?
    ensures var once := DeserializeCore(host, node, options, Success(item)).value.item;
            DeserializeCore(host, node, options, Success(once)).Success?
  {
    var first := DeserializeCore(host, node, options, Success(item)).value;
    assert ConfigAndFolderFaithful(host, node, options, item, first.item, first.changes);
  }

  lemma SecondRunRecordsNothing<C>(host: Host<C>, node: Node, options: Settings, item: DataType<C>)
    requires AliasCanonical(host, node)
    requires DeserializeCore(host, node, options, Success(item)).Success?
    ensures var once := DeserializeCore(host, node, options, Success(item)).value.item;
            var again := DeserializeCore(host, node, options, Success(once));
            again.Success? && again.value.changes == []
  {
    SecondRunSucceeds(host, node, options, item);
    var first := DeserializeCore(host, node, options, Success(item)).value;
    var once := first.item;
    assert ScalarsFaithful(host, node, item, once, first.changes);
    assert ConfigAndFolderFaithful(host, node, options, item, once, first.changes);
    var r := DeserializeCore(host, node, options, Success(once)).value;
    assert ScalarsFaithful(host, node, once, r.item, r.changes);
    assert !Recorded(r.changes, EditorAlias);
    NothingRecorded(r.changes);
  }

  /** A host whose registry holds the single editor "Umbraco.TextBox". */
  function TextBoxHost(): Host<int> {
    Host(["Umbraco.TextBox"], ["Umbraco.TextBox"], Nvarchar, _ => None, _ => None,
         Codec(_ => 0, _ => ""), _ => "", (_, _) => None, _ => None)
  }

  /** A text box data type at the root, with no configuration. */
  function TextBoxItem(): DataType<int> {
    DataType(7, 1, "Text", "Umbraco.TextBox", Nvarchar, None, -1, 1)
  }

  /** The file of TextBoxItem with the editor alias spelled "Umbraco.Textbox". */
  function CaseOnlyNode(): Node {
    Node(1, "Text", 1, Info(Some("Text"), Some("Umbraco.Textbox"), Some(Nvarchar), None), None)
  }

  /** The record an EditorAlias switch from "Umbraco.TextBox" to "Umbraco.Textbox" yields. */
  function CaseOnlyRecord(): Change<int> {
    Update(EditorAlias, "EditorAlias", StringValue("Umbraco.TextBox"), StringValue("Umbraco.Textbox"))
  }

  lemma CaseOnlyLookup()
    ensures FirstEditor(["Umbraco.TextBox"], "Umbraco.Textbox") == Some("Umbraco.TextBox")
  {
    assert "Umbraco.TextBox" == "Umbraco.Text" + ['B'] + "ox";
    assert "Umbraco.Textbox" == "Umbraco.Text" + ['b'] + "ox";
    FoldOneChar("Umbraco.Text", 'B', 'b', "ox");
  }

  lemma CaseOnlySwitch()
    ensures SwitchesEditor(TextBoxHost(), TextBoxItem(), CaseOnlyNode())
    ensures FirstEditor(TextBoxHost().dataEditors, FileEditorAlias(CaseOnlyNode())) == Some("Umbraco.TextBox")
  {
    CaseOnlyLookup();
  }

  lemma CaseOnlyEditor()
    ensures EditorChanges(TextBoxHost(), TextBoxItem(), CaseOnlyNode()) == [CaseOnlyRecord()]
    ensures EditorAfter(TextBoxHost(), TextBoxItem(), CaseOnlyNode()) == "Umbraco.TextBox"
  {
    CaseOnlySwitch();
  }

  lemma CaseOnlyOthers()
    ensures NameChanges<int>(TextBoxItem(), CaseOnlyNode()) == []
    ensures KeyChanges<int>(TextBoxItem(), CaseOnlyNode()) == []
    ensures StorageChanges<int>(TextBoxItem(), CaseOnlyNode()) == []
  {
  }

  lemma CaseOnlyScalars()
    ensures ScalarSteps(TextBoxHost(), TextBoxItem(), CaseOnlyNode()) == Diff(TextBoxItem(), [CaseOnlyRecord()])
  {
    CaseOnlyScalarItem();
    CaseOnlyScalarChanges();
  }

  lemma CaseOnlyScalarItem()
    ensures ScalarSteps(TextBoxHost(), TextBoxItem(), CaseOnlyNode()).item == TextBoxItem()
  {
    CaseOnlyEditor();
  }

  lemma CaseOnlyScalarChanges()
    ensures ScalarSteps(TextBoxHost(), TextBoxItem(), CaseOnlyNode()).changes == [CaseOnlyRecord()]
  {
    var host, item, node := TextBoxHost(), TextBoxItem(), CaseOnlyNode();
    CaseOnlyEditor();
    CaseOnlyOthers();
    OnlyEditorChanges(host, item, node);
  }

  /** When only the editor step records anything, the scalar records are the editor step's. */
  lemma OnlyEditorChanges<C>(host: Host<C>, item: DataType<C>, node: Node)
    requires NameChanges(item, node) == [] && KeyChanges(item, node) == [] && StorageChanges(item, node) == []
    ensures ScalarSteps(host, item, node).changes == EditorChanges(host, item, node)
  {
  }

  lemma CaseOnlySteps()
    ensures DeserializeCore(TextBoxHost(), CaseOnlyNode(), map[], Success(TextBoxItem()))
            == Success(Diff(TextBoxItem(), [CaseOnlyRecord()] + [] + []))
  {
    var host, item, node := TextBoxHost(), TextBoxItem(), CaseOnlyNode();
    CaseOnlyScalars();
    assert ConfigStep(host, item, node, map[]) == Success(Diff(item, []));
    assert SetFolderFromElement(host, item, node) == Diff(item, []);
  }

  /**
    A file whose editor alias differs from the registered alias only in case
    records an EditorAlias change on every import and leaves the item as it
    was: the lookup ignores case but the comparison before it does not.
  */
  lemma ReimportRepeatsCaseOnlyAlias()
    ensures DeserializeCore(TextBoxHost(), CaseOnlyNode(), map[], Success(TextBoxItem()))
            == Success(Diff(TextBoxItem(), [CaseOnlyRecord()]))
  {
    CaseOnlySteps();
    assert [CaseOnlyRecord()] + [] + [] == [CaseOnlyRecord()];
  }

  // ---------------------------------------------------------------------
  // Configuration exclusion
  // ---------------------------------------------------------------------

  /**
    When the policy excludes a file's configuration, deserializing it never
    fails on the configuration, never records a Config change and leaves the
    configuration as it was.
  */
  lemma ExcludedConfigUntouched<C>(host: Host<C>, node: Node, options: Settings, item: DataType<C>)
    requires !ShouldDeserializeConfig(FileName(node), FileEditorAlias(node), options)
    ensures var r := DeserializeCore(host, node, options, Success(item));
            && r.Success? && !Recorded(r.value.changes, Config)
            && r.value.item.configuration == item.configuration
  {
    var r := DeserializeCore(host, node, options, Success(item));
    assert ConfigAndFolderFaithful(host, node, options, item, r.value.item, r.value.changes);
  }

  /**
    An editor alias listed, in any case, in a comma-separated NoConfigEditors
    setting turns configuration import off for that editor's files.
  */
  lemma {:induction false} ListedEditorExcluded(editors: seq<string>, k: nat, name: string, alias: string,
                                                options: Settings)
    requires k < |editors| && InvariantEquals(editors[k], alias)
    requires "NoConfigEditors" in options && options["NoConfigEditors"] == Join(editors, ",")
    requires !IsBlank(Join(editors, ","))
    ensures !ShouldDeserializeConfig(name, alias, options)
  {
    PartOfJoin(editors, ",", k);
    FoldSubstring(editors[k], Join(editors, ","));
  }

  /**
    A name listed, in any case, in a comma-separated NoConfigNames setting
    turns configuration import off for the file of that name.
  */
  lemma {:induction false} ListedNameExcluded(names: seq<string>, k: nat, name: string, alias: string,
                                              options: Settings)
    requires k < |names| && InvariantEquals(names[k], name)
    requires "NoConfigNames" in options && options["NoConfigNames"] == Join(names, ",")
    requires !IsBlank(Join(names, ","))
    ensures !ShouldDeserializeConfig(name, alias, options)
  {
    PartOfJoin(names, ",", k);
    FoldSubstring(names[k], Join(names, ","));
  }

  /**
    The settings are matched as substrings, not as lists: NoConfigNames set
    to "Approved Colour" also excludes a data type named "colour".
  */
  lemma SubstringOverMatch()
    ensures !ShouldDeserializeConfig("colour", "Umbraco.ColorPicker", map["NoConfigNames" := "Approved Colour"])
  {
    ApprovedColourSettings();
    ColourInApprovedColour();
    NamesSettingExcludes("colour", "Umbraco.ColorPicker", map["NoConfigNames" := "Approved Colour"]);
  }

  lemma ApprovedColourSettings()
    ensures GetSetting(map["NoConfigNames" := "Approved Colour"], "NoConfigEditors", "") == ""
    ensures GetSetting(map["NoConfigNames" := "Approved Colour"], "NoConfigNames", "") == "Approved Colour"
    ensures !IsBlank("Approved Colour")
  {
    assert |"NoConfigEditors"| != |"NoConfigNames"|;
    assert !IsWhiteSpace("Approved Colour"[0]);
  }

  /** A non-blank NoConfigNames setting that contains the name excludes it when NoConfigEditors is not set. */
  lemma NamesSettingExcludes(name: string, alias: string, options: Settings)
    requires GetSetting(options, "NoConfigEditors", "") == ""
    requires !IsBlank(GetSetting(options, "NoConfigNames", ""))
    requires InvariantContains(GetSetting(options, "NoConfigNames", ""), name)
    ensures !ShouldDeserializeConfig(name, alias, options)
  {
  }

  lemma ColourInApprovedColour()
    ensures InvariantContains("Approved Colour", "colour")
  {
    ColourAt9();
    FoldSubstring("Colour", "Approved Colour");
    CapitalFolds();
  }

  lemma ColourAt9()
    ensures IsSubstring("Colour", "Approved Colour")
  {
    assert "Approved Colour"[9..15] == "Colour";
    assert OccursAt("Colour", "Approved Colour", 9);
  }

  lemma CapitalFolds()
    ensures Fold("Colour") == Fold("colour")
  {
    assert "Colour" == [] + ['C'] + "olour" && "colour" == [] + ['c'] + "olour";
    FoldOneChar([], 'C', 'c', "olour");
  }


  /** With neither setting given, every configuration is imported. */
  lemma NoSettingsImportAll(name: string, alias: string, options: Settings)
    requires "NoConfigEditors" !in options && "NoConfigNames" !in options
    ensures ShouldDeserializeConfig(name, alias, options)
  {
  }

  // ---------------------------------------------------------------------
  // Saving
  // ---------------------------------------------------------------------

  /**
    An import that records nothing saves nothing; one that records a change
    of Name, Key, DatabaseType, Config or Folder saves the item. (An
    EditorAlias record alone may leave the item as it was; see
    ReimportRepeatsCaseOnlyAlias.)
  */
  lemma SaveFollowsRecords<C>(host: Host<C>, node: Node, options: Settings, item: DataType<C>)
    requires DeserializeCore(host, node, options, Success(item)).Success?
    ensures var d := DeserializeCore(host, node, options, Success(item)).value;
            && (d.changes == [] ==> SaveItem(item, d.item) == [])
            && ((Recorded(d.changes, Name) || Recorded(d.changes, Key) || Recorded(d.changes, DatabaseType)
                 || Recorded(d.changes, Config) || Recorded(d.changes, Folder))
                ==> SaveItem(item, d.item) == [d.item])
  {
    var d := DeserializeCore(host, node, options, Success(item)).value;
    assert ScalarsFaithful(host, node, item, d.item, d.changes);
    assert ConfigAndFolderFaithful(host, node, options, item, d.item, d.changes);
  }

  // ---------------------------------------------------------------------
  // Creation, JSON equality and the Config policy
  // ---------------------------------------------------------------------

  /**
    A data type created for a file, with the file's editor alias as its type,
    and then deserialized from that file carries the file's name, key,
    editor alias and database type, whatever alias it was created under; the
    editor alias needs no record.
  */
  lemma CreateThenDeserialize<C>(host: Host<C>, node: Node, options: Settings, alias: string,
                                 parent: Option<Container>, freshKey: SyncCore.Guid)
    requires FileEditorAlias(node) in host.propertyEditors
    ensures CreateItem(host, alias, parent, FileEditorAlias(node), freshKey).Success?
    ensures var created := CreateItem(host, alias, parent, FileEditorAlias(node), freshKey).value;
            DeserializeCore(host, node, options, Success(created)).Success? ==>
              var d := DeserializeCore(host, node, options, Success(created)).value;
              && d.item.name == FileName(node) && d.item.key == node.key
              && d.item.editorAlias == FileEditorAlias(node)
              && d.item.databaseType == FileStorageType(node)
              && !Recorded(d.changes, EditorAlias)
  {
    var created := CreateItem(host, alias, parent, FileEditorAlias(node), freshKey).value;
    if DeserializeCore(host, node, options, Success(created)).Success? {
      var d := DeserializeCore(host, node, options, Success(created)).value;
      assert ScalarsFaithful(host, node, created, d.item, d.changes);
    }
  }

  /** Comparing by compact JSON is an equivalence: reflexive, symmetric and transitive. */
  lemma JsonEqualIsEquivalence<C>(host: Host<C>, a: C, b: C, c: C)
    ensures IsJsonEqual(host, a, a)
    ensures IsJsonEqual(host, a, b) ==> IsJsonEqual(host, b, a)
    ensures IsJsonEqual(host, a, b) && IsJsonEqual(host, b, c) ==> IsJsonEqual(host, a, c)
  {
  }

  /**
    A Config text that reads back JSON-equal to the current configuration
    changes nothing, even when the objects differ in ways the compact JSON
    does not show.
  */
  lemma JsonEqualConfigKept<C>(host: Host<C>, item: DataType<C>, node: Node)
    requires item.configuration.Some?
    requires IsJsonEqual(host, item.configuration.value, CodecFor(host, item.editorAlias).read(FileConfig(node)))
    ensures DeserializeConfiguration(host, item, node) == Success(Diff(item, []))
  {
  }

  /**
    The configuration decision sees the current configuration only through its
    compact JSON: two JSON-equal configurations both succeed, record a change
    in the same cases, and end with the same configuration when they do.
  */
  lemma ConfigDecisionThroughJson<C>(host: Host<C>, item: DataType<C>, node: Node, a: C, b: C)
    requires IsJsonEqual(host, a, b)
    ensures var ra := DeserializeConfiguration(host, item.(configuration := Some(a)), node);
            var rb := DeserializeConfiguration(host, item.(configuration := Some(b)), node);
            && ra.Success? && rb.Success?
            && (ra.value.changes == [] <==> rb.value.changes == [])
            && (ra.value.changes != [] ==> ra.value.item.configuration == rb.value.item.configuration)
  {
    var incoming := CodecFor(host, item.editorAlias).read(FileConfig(node));
    JsonEqualIsEquivalence(host, a, b, incoming);
    JsonEqualIsEquivalence(host, b, a, incoming);
  }

  /** Text added to a setting that already excludes a file keeps it excluded. */
  lemma LongerSettingExcludesMore(name: string, alias: string, options: Settings, key: string, s: string, t: string)
    requires key == "NoConfigEditors" || key == "NoConfigNames"
    ensures !ShouldDeserializeConfig(name, alias, options[key := s]) ==>
              !ShouldDeserializeConfig(name, alias, options[key := s + t])
  {
    var before, after := options[key := s], options[key := s + t];
    if !ShouldDeserializeConfig(name, alias, before) {
      var needle := if key == "NoConfigEditors" then alias else name;
      var other := if key == "NoConfigEditors" then "NoConfigNames" else "NoConfigEditors";
      assert GetSetting(after, other, "") == GetSetting(before, other, "");
      if !IsBlank(s) && InvariantContains(s, needle) {
        ExtendedStaysListed(s, t, needle);
      }
    }
  }

  /** A non-blank text containing `needle` ignoring case stays so when text is appended. */
  lemma ExtendedStaysListed(s: string, t: string, needle: string)
    requires !IsBlank(s) && InvariantContains(s, needle)
    ensures !IsBlank(s + t) && InvariantContains(s + t, needle)
  {
    ExtendedNotBlank(s, t);
    ExtendedContains(s, t, needle);
  }

  lemma ExtendedNotBlank(s: string, t: string)
    requires !IsBlank(s)
    ensures !IsBlank(s + t)
  {
    var i :| 0 <= i < |s| && !IsWhiteSpace(s[i]);
    assert (s + t)[i] == s[i];
  }

  lemma ExtendedContains(s: string, t: string, needle: string)
    requires InvariantContains(s, needle)
    ensures InvariantContains(s + t, needle)
  {
    var fn, fs := Fold(needle), Fold(s);
    var i :| 0 <= i <= |fs| - |fn| && OccursAt(fn, fs, i);
    FoldAppend(s, t);
    assert Fold(s + t)[i..i + |fn|] == fs[i..i + |fn|];
    assert OccursAt(fn, Fold(s + t), i);
  }

  /** The policy ignores the case of the file's name and editor alias. */
  lemma PolicyIgnoresCase(name: string, alias: string, options: Settings)
    ensures ShouldDeserializeConfig(Fold(name), Fold(alias), options) == ShouldDeserializeConfig(name, alias, options)
  {
    FoldTwice(name);
    FoldTwice(alias);
  }

  /** Folding an already folded string changes nothing. */
  lemma FoldTwice(s: string)
    ensures Fold(Fold(s)) == Fold(s)
  {
    assert forall i :: 0 <= i < |s| ==> Fold(Fold(s))[i] == FoldChar(FoldChar(s[i])) == Fold(s)[i];
  }
}
