/**
  The data type handler's post-import step: after a full import, every file
  an earlier handler flagged is imported again, the second pass runs for each
  import that succeeded, and empty data type folders are cleaned last. Also
  the name of a data type's file.

  The base handler's Import, ImportSecondPass and CleanFolders are
  parameters: `importFile` gives the outcome of importing a file, and
  `cleanFolders` the actions of cleaning the folders under a parent id. The
  calls are returned as a trace so their order can be stated.
*/
module DataTypeHandler {
  import opened Wrappers
  import DataTypeSerializer

  /** An action from the earlier import run; only its file name is used here. */
  datatype PostAction = PostAction(fileName: string)

  /** The outcome of importing one file: the imported item, or failure. */
  datatype Attempt<T> = Succeeded(item: T) | Failed

  /** A call ProcessPostImport makes into the base handler. */
  datatype Call<T> =
    | ImportCall(file: string)
    | SecondPassCall(file: string, item: T)
    | CleanCall(folder: string, parent: int)

  /** The parent id folder cleaning starts from: the root. */
  const RootId: int := -1

  /** The calls for one action: import its file, then the second pass when the import succeeded. */
  function Round<T>(action: PostAction, importFile: string -> Attempt<T>): seq<Call<T>> {
    match importFile(action.fileName)
    case Succeeded(item) => [ImportCall(action.fileName), SecondPassCall(action.fileName, item)]
    case Failed => [ImportCall(action.fileName)]
  }

  /** The calls for a list of actions, one round each, in list order. */
  function Rounds<T>(actions: seq<PostAction>, importFile: string -> Attempt<T>): seq<Call<T>> {
    if actions == [] then []
    else Rounds(actions[..|actions| - 1], importFile) + Round(actions[|actions| - 1], importFile)
  }

  /**
    `ProcessPostImport(folder, actions)`: nothing to do (no calls, no result)
    when the actions are missing or empty; otherwise a round per action in
    order, then one folder cleaning from the root whose actions are returned.
  */
  method ProcessPostImport<T, R>(folder: string, actions: Option<seq<PostAction>>,
                                 importFile: string -> Attempt<T>, cleanFolders: (string, int) -> R)
    returns (result: Option<R>, calls: seq<Call<T>>)
    ensures (actions.None? || actions.value == []) <==> result.None?
    ensures result.None? ==> calls == []
    ensures result.Some? ==> result.value == cleanFolders(folder, RootId)
    ensures result.Some? ==> calls == Rounds(actions.value, importFile) + [CleanCall(folder, RootId)]
  {
    if actions.None? || actions.value == [] {
      return None, [];
    }
    var todo := actions.value;
    calls := [];
    var i := 0;
    while i < |todo|
      invariant 0 <= i <= |todo|
      invariant calls == Rounds(todo[..i], importFile)
    {
      var action := todo[i];
      calls := calls + [ImportCall(action.fileName)];
      var attempt := importFile(action.fileName);
      if attempt.Succeeded? {
        calls := calls + [SecondPassCall(action.fileName, attempt.item)];
      }
      assert todo[..i + 1][..i] == todo[..i];
      i := i + 1;
    }
    assert todo[..i] == todo;
    calls := calls + [CleanCall(folder, RootId)];
    result := Some(cleanFolders(folder, RootId));
  }

  /** `GetItemFileName`: the safe-file-name form of the data type's name. */
  function GetItemFileName<C>(item: DataTypeSerializer.DataType<C>, safe: string -> string): string {
    safe(item.name)
  }
}
