/**
  The dictionary handler: the one-way policy that stops existing dictionary
  items from being overwritten, the recursive pre-order export of the
  dictionary tree with its progress callback, the child lookup the base
  handler walks, and the folder path of a dictionary item built from its
  chain of parents.

  The localization service is modelled as a finite forest of dictionary
  items, in the order the service returns them: the root items, each with
  its children. The file system is left out; the export of one item, the
  safe-file-name transformation and the directory separator are parameters.
*/
module DictionaryHandler {
  import opened Wrappers
  import opened Text
  import opened SyncCore

  /** A dictionary item: its integer id, its Guid key, its ItemKey (the name) and the key of its parent, if any. */
  datatype DictItem = DictItem(id: int, key: Guid, itemKey: string, parentId: Option<Guid>)

  /** A dictionary item with its children, in the order the service lists them. */
  datatype Tree = Tree(item: DictItem, kids: seq<Tree>)

  /** The handler's settings from the configuration file. */
  datatype HandlerSettings = HandlerSettings(settings: map<string, string>)

  /** The actions the handler reports back. */
  datatype SyncAction =
    | SetAction(success: bool, name: string, change: ChangeType)
    | ReportAction(update: bool, name: string, message: string)

  /**
    What Import or ReportElement does: answer with its own actions, hand over
    to the base handler, or throw because no settings were given.
  */
  datatype Outcome = Handled(actions: seq<SyncAction>) | Delegate | NullSettings

  /** One call of the progress callback: the item's name, its position among its siblings and their number. */
  datatype Visit = Visit(name: string, count: nat, total: nat)

  // ---------------------------------------------------------------------
  // One-way policy
  // ---------------------------------------------------------------------

  /** One-way mode: the "OneWay" setting is present and equals "true", ignoring case. */
  predicate IsOneWay(config: HandlerSettings) {
    "OneWay" in config.settings && InvariantEquals(config.settings["OneWay"], "true")
  }

  /** `v` is one of the sixteen spellings of "true" in upper and lower case letters. */
  predicate SpelledTrue(v: string) {
    && |v| == 4
    && (v[0] == 't' || v[0] == 'T') && (v[1] == 'r' || v[1] == 'R')
    && (v[2] == 'u' || v[2] == 'U') && (v[3] == 'e' || v[3] == 'E')
  }

  const OverwriteMessage: string := "Existing Item will not be overwritten"

  /**
    Import of a file: the one-way test reads the settings without checking
    for null, so an import without settings throws. In one-way mode, when the
    file's item already exists, the import stops with one successful action
    that reports no change for that item; otherwise the base handler imports
    the file.
  */
  function Import(config: Option<HandlerSettings>, existing: Option<DictItem>): (o: Outcome)
    ensures o == NullSettings <==> config.None?
    ensures o.Handled? <==> config.Some? && IsOneWay(config.value) && existing.Some?
    ensures o.Handled? ==> o.actions == [SetAction(true, existing.value.itemKey, NoChange)]
  {
    match config
    case None => NullSettings
    case Some(settings) =>
      if IsOneWay(settings) && existing.Some? then Handled([SetAction(true, existing.value.itemKey, NoChange)])
      else Delegate
  }

  /**
    Report of a file: with settings in one-way mode, when the file's item
    already exists, the report is one action that will not update it, with a
    message saying so; otherwise (including when no settings are given) the
    base handler reports the file.
  */
  function ReportElement(config: Option<HandlerSettings>, existing: Option<DictItem>): (o: Outcome)
    ensures o.Handled? <==> config.Some? && IsOneWay(config.value) && existing.Some?
    ensures o.Handled? ==> o.actions == [ReportAction(false, existing.value.itemKey, OverwriteMessage)]
    ensures !o.Handled? ==> o == Delegate
  {
    if config.Some? && IsOneWay(config.value) && existing.Some? then
      Handled([ReportAction(false, existing.value.itemKey, OverwriteMessage)])
    else Delegate
  }

  // ---------------------------------------------------------------------
  // The forest
  // ---------------------------------------------------------------------

  /** The items of a list of trees. */
  function Items(ts: seq<Tree>): (r: seq<DictItem>)
    ensures |r| == |ts| && forall i :: 0 <= i < |ts| ==> r[i] == ts[i].item
  {
    seq(|ts|, i requires 0 <= i < |ts| => ts[i].item)
  }

  /** Every subtree of a forest, in pre-order: each tree, then its children's subtrees, then its next sibling's. */
  function Subtrees(ts: seq<Tree>): seq<Tree>
    decreases ts, 1
  {
    SubtreesUpTo(ts, |ts|)
  }

  /** The pre-order subtrees of the first `n` trees of `ts`. */
  function SubtreesUpTo(ts: seq<Tree>, n: nat): seq<Tree>
    requires n <= |ts|
    decreases ts, 0, n
  {
    if n == 0 then [] else SubtreesUpTo(ts, n - 1) + [ts[n - 1]] + Subtrees(ts[n - 1].kids)
  }

  /** The items of a forest in pre-order. */
  function PreOrder(ts: seq<Tree>): seq<DictItem> {
    Items(Subtrees(ts))
  }

  /** The first tree in `ts` whose item satisfies `p`. */
  function FirstMatch(ts: seq<Tree>, p: DictItem -> bool): (r: Option<Tree>)
    ensures r.Some? ==> r.value in ts && p(r.value.item)
    ensures r.Some? ==> exists i :: 0 <= i < |ts| && ts[i] == r.value && forall j :: 0 <= j < i ==> !p(ts[j].item)
    ensures r.None? <==> forall t :: t in ts ==> !p(t.item)
  {
    if ts == [] then None
    else if p(ts[0].item) then Some(ts[0])
    else
      var rest := FirstMatch(ts[1..], p);
      assert forall t :: t in ts ==> t == ts[0] || t in ts[1..];
      if rest.Some? then
        var i :| 0 <= i < |ts[1..]| && ts[1..][i] == rest.value && forall j :: 0 <= j < i ==> !p(ts[1..][j].item);
        assert ts[i + 1] == rest.value;
        rest
      else rest
  }

  /** `GetDictionaryItemById(int)`: the first item in pre-order with that id. */
  function FindById(roots: seq<Tree>, id: int): Option<Tree> {
    FirstMatch(Subtrees(roots), (i: DictItem) => i.id == id)
  }

  /** `GetDictionaryItemById(Guid)`: the first item in pre-order with that key. */
  function FindByKey(roots: seq<Tree>, key: Guid): (r: Option<Tree>)
    ensures r.Some? ==> r.value in Subtrees(roots) && r.value.item.key == key
    ensures r.None? <==> forall t :: t in Subtrees(roots) ==> t.item.key != key
  {
    FirstMatch(Subtrees(roots), (i: DictItem) => i.key == key)
  }

  /** `GetDictionaryItemChildren(key)`: the children of the item with that key; none when there is no such item. */
  function ChildrenOf(roots: seq<Tree>, key: Guid): seq<Tree> {
    match FindByKey(roots, key)
    case Some(t) => t.kids
    case None => []
  }

  /**
    The items the base handler walks under a parent id: the root items for
    -1, the children of the item with that id, or nothing when no item has it.
  */
  function GetChildItems(roots: seq<Tree>, parent: int): (r: seq<DictItem>)
    ensures parent == -1 ==> r == Items(roots)
    ensures parent != -1 && (forall t :: t in Subtrees(roots) ==> t.item.id != parent) ==> r == []
    ensures parent != -1 && FindById(roots, parent).Some? ==>
              && FindById(roots, parent).value.item.id == parent
              && r == Items(ChildrenOf(roots, FindById(roots, parent).value.item.key))
    ensures parent != -1 && r != [] ==>
              exists t :: t in Subtrees(roots) && t.item.id == parent && r == Items(ChildrenOf(roots, t.item.key))
  {
    if parent == -1 then Items(roots)
    else
      match FindById(roots, parent)
      case Some(t) => Items(ChildrenOf(roots, t.item.key))
      case None => []
  }

  /**
    A store the service keeps consistent: keys are unique and never the empty
    Guid, root items have no parent, and each child's ParentId is the key of
    the item it is listed under.
  */
  ghost predicate WellFormed(roots: seq<Tree>) {
    && (forall r :: r in roots ==> r.item.parentId.None?)
    && (forall t, k :: t in Subtrees(roots) && k in t.kids ==> k.item.parentId == Some(t.item.key))
    && (forall t :: t in Subtrees(roots) ==> t.item.key != EmptyGuid)
    && UniqueKeys(roots)
  }

  /** No two subtrees of the store carry the same key. */
  ghost predicate UniqueKeys(roots: seq<Tree>) {
    var s := Subtrees(roots);
    forall i, j :: 0 <= i < j < |s| ==> s[i].item.key != s[j].item.key
  }

  // ---------------------------------------------------------------------
  // Export
  // ---------------------------------------------------------------------

  /** The progress calls for the subtrees of `ts`, in pre-order, each counted among its own siblings. */
  function Visits(ts: seq<Tree>): seq<Visit>
    decreases ts, 1
  {
    VisitsUpTo(ts, |ts|)
  }

  /** The progress calls for the first `n` trees of `ts` and their subtrees. */
  function VisitsUpTo(ts: seq<Tree>, n: nat): seq<Visit>
    requires n <= |ts|
    decreases ts, 0, n
  {
    if n == 0 then []
    else VisitsUpTo(ts, n - 1) + [Visit(ts[n - 1].item.itemKey, n, |ts|)] + Visits(ts[n - 1].kids)
  }

  /** The actions of exporting each item of `items` in turn. */
  function Exports<A>(items: seq<DictItem>, exportItem: DictItem -> seq<A>): seq<A> {
    if items == [] then [] else Exports(items[..|items| - 1], exportItem) + exportItem(items[|items| - 1])
  }

  lemma {:induction false} ExportsAppend<A>(a: seq<DictItem>, b: seq<DictItem>, exportItem: DictItem -> seq<A>)
    ensures Exports(a + b, exportItem) == Exports(a, exportItem) + Exports(b, exportItem)
    decreases |b|
  {
    if b == [] {
      assert a + b == a;
    } else {
      var init := b[..|b| - 1];
      assert (a + b)[..|a + b| - 1] == a + init;
      ExportsAppend(a, init, exportItem);
    }
  }

  /**
    `ExportAll(parent, ...)` once the items of one level are known: for each
    item in turn, the callback (when there is one) with the item's position
    among these items and their number, the item's own exportItem, and then the
    export of its children.
  */
  method ExportLevel<A>(items: seq<Tree>, exportItem: DictItem -> seq<A>)
    returns (actions: seq<A>, calls: seq<Visit>)
    ensures actions == Exports(PreOrder(items), exportItem)
    ensures calls == Visits(items)
    decreases items, 1
  {
    actions, calls := [], [];
    var count := 0;
    while count < |items|
      invariant 0 <= count <= |items|
      invariant actions == Exports(Items(SubtreesUpTo(items, count)), exportItem)
      invariant calls == VisitsUpTo(items, count)
    {
      var own, ownCalls := ExportItem(items, count, exportItem);
      LevelStep(items, count, exportItem, actions, own);
      VisitStep(items, count, calls, ownCalls);
      actions := actions + own;
      calls := calls + ownCalls;
      count := count + 1;
    }
    ExportDone(items, exportItem);
  }

  /**
    The body of ExportLevel's loop for the `n`-th item: the callback, the
    item's own export, then the export of its children.
  */
  method ExportItem<A>(items: seq<Tree>, n: nat, exportItem: DictItem -> seq<A>)
    returns (actions: seq<A>, calls: seq<Visit>)
    requires n < |items|
    ensures actions == exportItem(items[n].item) + Exports(PreOrder(items[n].kids), exportItem)
    ensures calls == [Visit(items[n].item.itemKey, n + 1, |items|)] + Visits(items[n].kids)
    decreases items, 0
  {
    var t := items[n];
    assert t in items;
    calls := [Visit(t.item.itemKey, n + 1, |items|)];
    actions := exportItem(t.item);
    var more, moreCalls := ExportLevel(t.kids, exportItem);
    actions := actions + more;
    calls := calls + moreCalls;
  }

  lemma ExportDone<A>(items: seq<Tree>, exportItem: DictItem -> seq<A>)
    ensures Exports(Items(SubtreesUpTo(items, |items|)), exportItem) == Exports(PreOrder(items), exportItem)
    ensures VisitsUpTo(items, |items|) == Visits(items)
  {
  }

  /** One iteration of ExportLevel's loop keeps its invariant on the actions. */
  lemma LevelStep<A>(items: seq<Tree>, n: nat, exportItem: DictItem -> seq<A>, actions: seq<A>, own: seq<A>)
    requires n < |items|
    requires actions == Exports(Items(SubtreesUpTo(items, n)), exportItem)
    requires own == exportItem(items[n].item) + Exports(PreOrder(items[n].kids), exportItem)
    ensures actions + own == Exports(Items(SubtreesUpTo(items, n + 1)), exportItem)
  {
    ExportStep(items, n, exportItem);
    assert actions + own == actions + exportItem(items[n].item) + Exports(PreOrder(items[n].kids), exportItem);
  }

  /** One iteration of ExportLevel's loop keeps its invariant on the progress calls. */
  lemma VisitStep(items: seq<Tree>, n: nat, calls: seq<Visit>, ownCalls: seq<Visit>)
    requires n < |items|
    requires calls == VisitsUpTo(items, n)
    requires ownCalls == [Visit(items[n].item.itemKey, n + 1, |items|)] + Visits(items[n].kids)
    ensures calls + ownCalls == VisitsUpTo(items, n + 1)
  {
    assert calls + ownCalls == calls + [Visit(items[n].item.itemKey, n + 1, |items|)] + Visits(items[n].kids);
  }

  /** Exporting the first `n + 1` trees: the first `n`, then tree `n`'s item, then its subtrees. */
  lemma ExportStep<A>(items: seq<Tree>, n: nat, exportItem: DictItem -> seq<A>)
    requires n < |items|
    ensures Exports(Items(SubtreesUpTo(items, n + 1)), exportItem)
            == Exports(Items(SubtreesUpTo(items, n)), exportItem) + exportItem(items[n].item)
               + Exports(PreOrder(items[n].kids), exportItem)
  {
    var t := items[n];
    var done := Items(SubtreesUpTo(items, n));
    ExportsAppend(done, [t.item], exportItem);
    assert Exports([t.item], exportItem) == exportItem(t.item) by {
      assert [t.item][..0] == [];
    }
    ExportsAppend(done + [t.item], PreOrder(t.kids), exportItem);
    ItemsStep(items, n);
  }

  lemma ItemsStep(items: seq<Tree>, n: nat)
    requires n < |items|
    ensures Items(SubtreesUpTo(items, n + 1)) == Items(SubtreesUpTo(items, n)) + [items[n].item] + PreOrder(items[n].kids)
  {
    ItemsAppend(SubtreesUpTo(items, n) + [items[n]], Subtrees(items[n].kids));
    ItemsAppend(SubtreesUpTo(items, n), [items[n]]);
  }

  /** The items of two consecutive lists of trees. */
  lemma ItemsAppend(a: seq<Tree>, b: seq<Tree>)
    ensures Items(a + b) == Items(a) + Items(b)
  {
  }

  /** The items `ExportAll(parent, ...)` starts from: the root items for the empty key, else that item's children. */
  function ExportStart(roots: seq<Tree>, parent: Guid): seq<Tree> {
    if parent == EmptyGuid then roots else ChildrenOf(roots, parent)
  }

  /** `ExportAll(parent, folder, config, callback)`. */
  method ExportAllFrom<A>(roots: seq<Tree>, parent: Guid, exportItem: DictItem -> seq<A>, hasCallback: bool)
    returns (actions: seq<A>, calls: seq<Visit>)
    ensures actions == Exports(PreOrder(ExportStart(roots, parent)), exportItem)
    ensures calls == if hasCallback then Visits(ExportStart(roots, parent)) else []
  {
    var visits;
    actions, visits := ExportLevel(ExportStart(roots, parent), exportItem);
    calls := if hasCallback then visits else [];
  }

  /** What a full export does to the export folder, in order. */
  datatype Effect<A> = CleanFolder(folder: string) | Write(action: A)

  /** Writing each action in turn. */
  function Writes<A>(actions: seq<A>): (r: seq<Effect<A>>)
    ensures |r| == |actions| && forall i :: 0 <= i < |r| ==> r[i] == Write(actions[i])
  {
    seq(|actions|, i requires 0 <= i < |actions| => Write(actions[i]))
  }

  /**
    `ExportAll(folder, config, callback)`: the folder is cleaned first, then
    the whole dictionary is exported from the empty key, that is from the
    roots, each export action following the clean in pre-order.
  */
  method ExportAll<A>(roots: seq<Tree>, folder: string, exportItem: DictItem -> seq<A>, hasCallback: bool)
    returns (effects: seq<Effect<A>>, calls: seq<Visit>)
    ensures |effects| == 1 + |Exports(PreOrder(roots), exportItem)|
    ensures effects[0] == CleanFolder(folder)
    ensures forall i :: 1 <= i < |effects| ==> effects[i] == Write(Exports(PreOrder(roots), exportItem)[i - 1])
    ensures calls == if hasCallback then Visits(roots) else []
  {
    effects := [CleanFolder(folder)];
    var actions;
    actions, calls := ExportAllFrom(roots, EmptyGuid, exportItem, hasCallback);
    effects := effects + Writes(actions);
  }

  // ---------------------------------------------------------------------
  // Item paths
  // ---------------------------------------------------------------------

  /**
    The parent of `item`, when its ParentId names an item the service
    finds, ranks below it: the store's parent links have no cycle.
  */
  predicate ParentRanked(roots: seq<Tree>, item: DictItem, rank: Guid -> nat) {
    item.parentId.Some? && FindByKey(roots, item.parentId.value).Some? ==> rank(item.parentId.value) < rank(item.key)
  }

  /** Every item of the store ranks above its parent. */
  ghost predicate Ranked(roots: seq<Tree>, rank: Guid -> nat) {
    forall t :: t in Subtrees(roots) ==> ParentRanked(roots, t.item, rank)
  }

  /** The item has no parent the service can find: the top of its chain. */
  predicate Orphan(roots: seq<Tree>, item: DictItem) {
    item.parentId.None? || FindByKey(roots, item.parentId.value).None?
  }

  /**
    The folder path of a dictionary item: its safe name, preceded by its
    parent's path and the separator when the parent is found. The source
    recurses without bound; `rank` witnesses that the chain ends.
  */
  function GetDictionaryPath(roots: seq<Tree>, item: DictItem, safe: string -> string, sep: char,
                             ghost rank: Guid -> nat): string
    requires Ranked(roots, rank) && ParentRanked(roots, item, rank)
    decreases rank(item.key)
  {
    if item.parentId.Some? then
      match FindByKey(roots, item.parentId.value)
      case Some(p) => GetDictionaryPath(roots, p.item, safe, sep, rank) + [sep] + safe(item.itemKey)
      case None => safe(item.itemKey)
    else safe(item.itemKey)
  }

  /**
    The chain of an item's ancestors, root first, ending with the item:
    each element is the found parent of the next, and the first has none.
  */
  function Ancestry(roots: seq<Tree>, item: DictItem, ghost rank: Guid -> nat): (chain: seq<DictItem>)
    requires Ranked(roots, rank) && ParentRanked(roots, item, rank)
    ensures |chain| >= 1 && chain[|chain| - 1] == item
    ensures Orphan(roots, chain[0])
    ensures Linked(roots, chain)
    decreases rank(item.key)
  {
    if Orphan(roots, item) then [item]
    else
      var p := FindByKey(roots, item.parentId.value).value;
      var front := Ancestry(roots, p.item, rank);
      LinkedSnoc(roots, front, p, item);
      front + [item]
  }

  /** Each item of the chain is the found parent of the next. */
  predicate Linked(roots: seq<Tree>, chain: seq<DictItem>) {
    forall i :: 0 <= i < |chain| - 1 ==>
      && chain[i + 1].parentId == Some(chain[i].key)
      && FindByKey(roots, chain[i].key).Some? && FindByKey(roots, chain[i].key).value.item == chain[i]
  }

  lemma LinkedSnoc(roots: seq<Tree>, front: seq<DictItem>, p: Tree, item: DictItem)
    requires front != [] && front[|front| - 1] == p.item && Linked(roots, front)
    requires item.parentId.Some? && FindByKey(roots, item.parentId.value) == Some(p)
    ensures Linked(roots, front + [item])
  {
    var chain := front + [item];
    forall i | 0 <= i < |chain| - 1
      ensures chain[i + 1].parentId == Some(chain[i].key)
      ensures FindByKey(roots, chain[i].key).Some? && FindByKey(roots, chain[i].key).value.item == chain[i]
    {
      if i < |front| - 1 {
        assert chain[i] == front[i] && chain[i + 1] == front[i + 1];
      } else {
        assert chain[i] == p.item && chain[i + 1] == item;
      }
    }
  }

  /** The safe names of a list of items. */
  function SafeNames(items: seq<DictItem>, safe: string -> string): (r: seq<string>)
    ensures |r| == |items| && forall i :: 0 <= i < |items| ==> r[i] == safe(items[i].itemKey)
  {
    seq(|items|, i requires 0 <= i < |items| => safe(items[i].itemKey))
  }

  /**
    `GetItemPath`: in flat mode the item's safe name; otherwise its folder
    path. Whether Guid names are used makes no difference.
  */
  function GetItemPath(roots: seq<Tree>, item: DictItem, useGuid: bool, isFlat: bool, safe: string -> string,
                       sep: char, ghost rank: Guid -> nat): (r: string)
    requires !isFlat ==> Ranked(roots, rank) && ParentRanked(roots, item, rank)
    ensures isFlat ==> r == safe(item.itemKey)
    ensures !isFlat ==> r == Join(SafeNames(Ancestry(roots, item, rank), safe), [sep])
  {
    if isFlat then safe(item.itemKey)
    else
      PathIsJoinedAncestry(roots, item, safe, sep, rank);
      GetDictionaryPath(roots, item, safe, sep, rank)
  }

  /** The folder path is the root-first chain of safe names joined by the separator. */
  lemma {:induction false} PathIsJoinedAncestry(roots: seq<Tree>, item: DictItem, safe: string -> string, sep: char,
                                                rank: Guid -> nat)
    requires Ranked(roots, rank) && ParentRanked(roots, item, rank)
    ensures GetDictionaryPath(roots, item, safe, sep, rank) == Join(SafeNames(Ancestry(roots, item, rank), safe), [sep])
    decreases rank(item.key)
  {
    if !Orphan(roots, item) {
      var p := FindByKey(roots, item.parentId.value).value;
      PathIsJoinedAncestry(roots, p.item, safe, sep, rank);
      var front := Ancestry(roots, p.item, rank);
      SafeNamesSnoc(front, item, safe);
      JoinSnoc(SafeNames(front, safe), safe(item.itemKey), [sep]);
    }
  }

  lemma SafeNamesSnoc(front: seq<DictItem>, item: DictItem, safe: string -> string)
    ensures SafeNames(front + [item], safe) == SafeNames(front, safe) + [safe(item.itemKey)]
  {
  }
}
