/**
  Properties of the post-import step: each flagged file is imported once,
  in order; a second pass follows exactly the imports that succeeded, with
  the item they produced; folder cleaning happens once, at the end. And a
  data type's file name depends on its name alone.
*/
module DataTypeHandlerProofs {
  import opened Wrappers
  import DataTypeSerializer
  import opened DataTypeHandler

  /** The files imported by a trace of calls, in order. */
  function ImportedFiles<T>(cs: seq<Call<T>>): seq<string> {
    if cs == [] then []
    else ImportedFiles(cs[..|cs| - 1]) + (if cs[|cs| - 1].ImportCall? then [cs[|cs| - 1].file] else [])
  }

  /** The file names of a list of actions. */
  function FileNames(actions: seq<PostAction>): (r: seq<string>)
    ensures |r| == |actions| && forall i :: 0 <= i < |actions| ==> r[i] == actions[i].fileName
  {
    seq(|actions|, i requires 0 <= i < |actions| => actions[i].fileName)
  }

  lemma {:induction false} ImportedFilesAppend<T>(a: seq<Call<T>>, b: seq<Call<T>>)
    ensures ImportedFiles(a + b) == ImportedFiles(a) + ImportedFiles(b)
    decreases |b|
  {
    if b == [] {
      assert a + b == a;
    } else {
      assert (a + b)[..|a + b| - 1] == a + b[..|b| - 1];
      ImportedFilesAppend(a, b[..|b| - 1]);
    }
  }

  /** Every action's file is imported exactly once, in the order of the actions. */
  lemma {:induction false} EachFileImportedOnce<T>(actions: seq<PostAction>, importFile: string -> Attempt<T>)
    ensures ImportedFiles(Rounds(actions, importFile)) == FileNames(actions)
    decreases |actions|
  {
    if actions != [] {
      var init, last := actions[..|actions| - 1], actions[|actions| - 1];
      assert actions == init + [last];
      EachFileImportedOnce(init, importFile);
      ImportedFilesAppend(Rounds(init, importFile), Round(last, importFile));
      RoundImportsOnce(last, importFile);
      FileNamesSnoc(init, last);
    }
  }

  lemma FileNamesSnoc(init: seq<PostAction>, last: PostAction)
    ensures FileNames(init + [last]) == FileNames(init) + [last.fileName]
  {
  }

  lemma RoundImportsOnce<T>(action: PostAction, importFile: string -> Attempt<T>)
    ensures ImportedFiles(Round(action, importFile)) == [action.fileName]
  {
    var one := [ImportCall(action.fileName)];
    assert ImportedFiles(one) == [action.fileName] by { assert one[..0] == []; }
    if importFile(action.fileName).Succeeded? {
      ImportedFilesAppend(one, [SecondPassCall(action.fileName, importFile(action.fileName).item)]);
    }
  }

  /**
    A trace in which every second pass comes right after the successful
    import of its file and receives the imported item, every successful
    import is followed right away by its second pass, and nothing cleans
    folders.
  */
  ghost predicate Paired<T>(cs: seq<Call<T>>, importFile: string -> Attempt<T>) {
    && (forall i :: 0 <= i < |cs| && cs[i].SecondPassCall? ==>
          0 < i && cs[i - 1] == ImportCall(cs[i].file) && importFile(cs[i].file) == Succeeded(cs[i].item))
    && (forall i :: 0 <= i < |cs| && cs[i].ImportCall? && importFile(cs[i].file).Succeeded? ==>
          i + 1 < |cs| && cs[i + 1] == SecondPassCall(cs[i].file, importFile(cs[i].file).item))
    && (forall i :: 0 <= i < |cs| ==> !cs[i].CleanCall?)
  }

  lemma PairedAppend<T>(a: seq<Call<T>>, b: seq<Call<T>>, importFile: string -> Attempt<T>)
    requires Paired(a, importFile) && Paired(b, importFile)
    ensures Paired(a + b, importFile)
  {
    var ab := a + b;
    forall i | 0 <= i < |ab| && ab[i].SecondPassCall?
      ensures 0 < i && ab[i - 1] == ImportCall(ab[i].file) && importFile(ab[i].file) == Succeeded(ab[i].item)
    {
      if i >= |a| {
        assert ab[i] == b[i - |a|];
        assert ab[i - 1] == b[i - |a| - 1];
      }
    }
    forall i | 0 <= i < |ab| && ab[i].ImportCall? && importFile(ab[i].file).Succeeded?
      ensures i + 1 < |ab| && ab[i + 1] == SecondPassCall(ab[i].file, importFile(ab[i].file).item)
    {
      if i >= |a| {
        assert ab[i] == b[i - |a|];
        assert ab[i + 1] == b[i + 1 - |a|];
      } else {
        assert ab[i] == a[i] && ab[i + 1] == a[i + 1];
      }
    }
    forall i | 0 <= i < |ab| ensures !ab[i].CleanCall? {
      if i >= |a| { assert ab[i] == b[i - |a|]; }
    }
  }

  /**
    The rounds pair each second pass with the successful import just
    before it, give it the imported item, skip it after a failed import,
    and clean nothing.
  */
  lemma {:induction false} SecondPassOnlyAfterSuccess<T>(actions: seq<PostAction>, importFile: string -> Attempt<T>)
    ensures Paired(Rounds(actions, importFile), importFile)
    decreases |actions|
  {
    if actions != [] {
      var init, last := actions[..|actions| - 1], actions[|actions| - 1];
      SecondPassOnlyAfterSuccess(init, importFile);
      PairedAppend(Rounds(init, importFile), Round(last, importFile), importFile);
    }
  }

  /**
    When there is work, the folder cleaning is the last call and the only
    one, and it starts from the root.
  */
  lemma CleanupLast<T>(folder: string, actions: seq<PostAction>, importFile: string -> Attempt<T>,
                       calls: seq<Call<T>>)
    requires actions != []
    requires calls == Rounds(actions, importFile) + [CleanCall(folder, RootId)]
    ensures |calls| > 0 && calls[|calls| - 1] == CleanCall(folder, -1)
    ensures forall i :: 0 <= i < |calls| - 1 ==> !calls[i].CleanCall?
  {
    SecondPassOnlyAfterSuccess(actions, importFile);
    forall i | 0 <= i < |calls| - 1 ensures !calls[i].CleanCall? {
      assert calls[i] == Rounds(actions, importFile)[i];
    }
  }

  /** Two data types with the same name get the same file name, whatever else differs; renaming renames the file. */
  lemma FileNameDependsOnlyOnName<C>(a: DataTypeSerializer.DataType<C>, b: DataTypeSerializer.DataType<C>,
                                     safe: string -> string, newName: string)
    ensures a.name == b.name ==> GetItemFileName(a, safe) == GetItemFileName(b, safe)
    ensures GetItemFileName(a.(name := newName), safe) == safe(newName)
  {
  }

  /**
    After a file is deserialized, the item's file is named after the file's
    Name element: an import that renames a data type moves its file.
  */
  lemma ImportedItemFileName<C>(host: DataTypeSerializer.Host<C>, node: DataTypeSerializer.Node,
                                options: DataTypeSerializer.Settings,
                                found: Result<DataTypeSerializer.DataType<C>, string>, safe: string -> string)
    requires DataTypeSerializer.DeserializeCore(host, node, options, found).Success?
    ensures GetItemFileName(DataTypeSerializer.DeserializeCore(host, node, options, found).value.item, safe)
            == safe(DataTypeSerializer.FileName(node))
  {
    var d := DataTypeSerializer.DeserializeCore(host, node, options, found).value;
    assert DataTypeSerializer.ScalarsFaithful(host, node, found.value, d.item, d.changes);
  }

  /** The file name of an item is the safe form of the Name its serialized file carries. */
  lemma SerializedFileName<C>(host: DataTypeSerializer.Host<C>, item: DataTypeSerializer.DataType<C>,
                              safe: string -> string)
    ensures GetItemFileName(item, safe) == safe(DataTypeSerializer.FileName(DataTypeSerializer.SerializeCore(host, item)))
  {
  }
}
