/**
  Properties of the dictionary handler: the exact spellings one-way mode
  accepts, Import and ReportElement deciding alike, the pre-order shape of
  the export, the progress counts, and truncated paths.
*/
module DictionaryHandlerProofs {
  import opened Wrappers
  import opened Text
  import SyncCore
  import opened DictionaryHandler

  // ---------------------------------------------------------------------
  // One-way policy
  // ---------------------------------------------------------------------

  /** Folding a character gives a lower-case letter exactly for that letter in either case. */
  lemma FoldCharTo(c: char, lower: char)
    requires 'a' <= lower <= 'z'
    ensures FoldChar(c) == lower <==> c == lower || c == (lower as int - 32) as char
  {
  }

  /** Folding "true" leaves it as it is. */
  lemma FoldTrue()
    ensures Fold("true") == "true"
  {
    assert Fold("e") == "e";
    assert Fold("ue") == "ue";
    assert Fold("rue") == "rue";
  }

  /**
    One-way mode is on exactly when the "OneWay" setting is one of the
    sixteen case spellings of "true": nothing shorter, longer or padded.
  */
  lemma {:induction false} OneWayExactly(config: HandlerSettings)
    ensures IsOneWay(config) <==> "OneWay" in config.settings && SpelledTrue(config.settings["OneWay"])
  {
    FoldTrue();
    if "OneWay" in config.settings {
      var v := config.settings["OneWay"];
      FoldCharTo(if |v| == 4 then v[0] else 't', 't');
      FoldCharTo(if |v| == 4 then v[1] else 'r', 'r');
      FoldCharTo(if |v| == 4 then v[2] else 'u', 'u');
      FoldCharTo(if |v| == 4 then v[3] else 'e', 'e');
      if SpelledTrue(v) {
        assert Fold(v) == "true" by {
          assert forall i :: 0 <= i < 4 ==> Fold(v)[i] == "true"[i];
        }
      }
      if InvariantEquals(v, "true") {
        assert |v| == 4;
        assert FoldChar(v[0]) == 't' && FoldChar(v[1]) == 'r' && FoldChar(v[2]) == 'u' && FoldChar(v[3]) == 'e' by {
          assert Fold(v)[0] == 't' && Fold(v)[1] == 'r' && Fold(v)[2] == 'u' && Fold(v)[3] == 'e';
        }
      }
    }
  }

  /**
    Import and ReportElement with the same settings take over from the base
    handler in the same cases, and then both name the existing item. They
    part ways without settings: Import throws where ReportElement hands over.
  */
  lemma ImportReportAgree(config: Option<HandlerSettings>, existing: Option<DictItem>)
    ensures config.Some? ==> (Import(config, existing).Handled? <==> ReportElement(config, existing).Handled?)
    ensures Import(config, existing).Handled? ==>
              && |Import(config, existing).actions| == 1 && |ReportElement(config, existing).actions| == 1
              && Import(config, existing).actions[0].name == ReportElement(config, existing).actions[0].name
              && Import(config, existing).actions[0].success && !ReportElement(config, existing).actions[0].update
    ensures config.None? ==> Import(config, existing) == NullSettings && ReportElement(config, existing) == Delegate
  {
  }

  /** When the file's item does not exist yet, both Import and ReportElement with settings hand over to the base handler. */
  lemma NewItemsAlwaysImported(config: HandlerSettings, report: Option<HandlerSettings>)
    ensures Import(Some(config), None) == Delegate && ReportElement(report, None) == Delegate
  {
  }

  // ---------------------------------------------------------------------
  // Pre-order
  // ---------------------------------------------------------------------

  /** SubtreesUpTo depends only on the first `n` trees. */
  lemma {:induction false} SubtreesUpToPrefix(s: seq<Tree>, t: seq<Tree>, n: nat)
    requires n <= |s| && n <= |t| && s[..n] == t[..n]
    ensures SubtreesUpTo(s, n) == SubtreesUpTo(t, n)
  {
    if n > 0 {
      assert s[..n - 1] == t[..n - 1] && s[n - 1] == t[n - 1] by {
        assert s[..n - 1] == s[..n][..n - 1] && t[..n - 1] == t[..n][..n - 1];
        assert s[n - 1] == s[..n][n - 1] && t[n - 1] == t[..n][n - 1];
      }
      SubtreesUpToPrefix(s, t, n - 1);
    }
  }

  lemma SubtreesUpToIsPrefix(ts: seq<Tree>, n: nat)
    requires n <= |ts|
    ensures SubtreesUpTo(ts, n) == Subtrees(ts[..n])
  {
    SubtreesUpToPrefix(ts, ts[..n], n);
  }

  /** The subtrees of two consecutive lists of trees. */
  lemma {:induction false} SubtreesAppend(a: seq<Tree>, b: seq<Tree>)
    ensures Subtrees(a + b) == Subtrees(a) + Subtrees(b)
    decreases |b|
  {
    if b == [] {
      assert a + b == a;
    } else {
      var init, x := b[..|b| - 1], b[|b| - 1];
      var n := |a + b|;
      assert (a + b)[n - 1] == x;
      SubtreesUpToIsPrefix(a + b, n - 1);
      assert (a + b)[..n - 1] == a + init;
      SubtreesAppend(a, init);
      SubtreesUpToIsPrefix(b, |b| - 1);
    }
  }

  /**
    The export order is pre-order: the trees before the k-th, then the k-th
    tree itself, then all of its descendants, then the trees after it.
  */
  lemma PreOrderSplit(ts: seq<Tree>, k: nat)
    requires k < |ts|
    ensures Subtrees(ts) == Subtrees(ts[..k]) + [ts[k]] + Subtrees(ts[k].kids) + Subtrees(ts[k + 1..])
  {
    SplitAt(ts, k);
    SubtreesAround(ts[..k], ts[k], ts[k + 1..]);
  }

  lemma SplitAt<T>(s: seq<T>, k: nat)
    requires k < |s|
    ensures s[..k] + [s[k]] + s[k + 1..] == s
  {
  }

  lemma SubtreesAround(before: seq<Tree>, x: Tree, after: seq<Tree>)
    ensures Subtrees(before + [x] + after) == Subtrees(before) + [x] + Subtrees(x.kids) + Subtrees(after)
  {
    SubtreesAppend(before + [x], after);
    SubtreesAppend(before, [x]);
    SubtreesSingle(x);
  }

  lemma SubtreesSingle(x: Tree)
    ensures Subtrees([x]) == [x] + Subtrees(x.kids)
  {
    assert SubtreesUpTo([x], 0) == [];
  }

  // ---------------------------------------------------------------------
  // Progress callback
  // ---------------------------------------------------------------------

  /** A list of progress calls names the items of a list of subtrees, one call each, in the same order. */
  predicate NamesMatch(vs: seq<Visit>, ss: seq<Tree>) {
    |vs| == |ss| && forall i :: 0 <= i < |vs| ==> vs[i].name == ss[i].item.itemKey
  }

  /** Every progress call counts from 1 up to at most its total. */
  predicate CountsInRange(vs: seq<Visit>) {
    forall i :: 0 <= i < |vs| ==> 1 <= vs[i].count <= vs[i].total
  }

  lemma NamesMatchAppend(v1: seq<Visit>, s1: seq<Tree>, v2: seq<Visit>, s2: seq<Tree>)
    requires NamesMatch(v1, s1) && NamesMatch(v2, s2)
    ensures NamesMatch(v1 + v2, s1 + s2)
  {
    forall i | 0 <= i < |v1 + v2| ensures (v1 + v2)[i].name == (s1 + s2)[i].item.itemKey {
      if i >= |v1| {
        assert (v1 + v2)[i] == v2[i - |v1|] && (s1 + s2)[i] == s2[i - |s1|];
      }
    }
  }

  lemma CountsAppend(v1: seq<Visit>, v2: seq<Visit>)
    requires CountsInRange(v1) && CountsInRange(v2)
    ensures CountsInRange(v1 + v2)
  {
    forall i | 0 <= i < |v1 + v2| ensures 1 <= (v1 + v2)[i].count <= (v1 + v2)[i].total {
      if i >= |v1| { assert (v1 + v2)[i] == v2[i - |v1|]; }
    }
  }

  /**
    The callback is called once per exported item, in export order, and each
    call's count lies between 1 and that call's total.
  */
  lemma {:induction false} VisitsFollowPreOrder(ts: seq<Tree>)
    ensures NamesMatch(Visits(ts), Subtrees(ts)) && CountsInRange(Visits(ts))
    decreases ts, 1
  {
    VisitsUpToFollowPreOrder(ts, |ts|);
  }

  lemma {:induction false} VisitsUpToFollowPreOrder(ts: seq<Tree>, n: nat)
    requires n <= |ts|
    ensures NamesMatch(VisitsUpTo(ts, n), SubtreesUpTo(ts, n)) && CountsInRange(VisitsUpTo(ts, n))
    decreases ts, 0, n
  {
    if n > 0 {
      var t := ts[n - 1];
      VisitsUpToFollowPreOrder(ts, n - 1);
      VisitsFollowPreOrder(t.kids);
      var one := [Visit(t.item.itemKey, n, |ts|)];
      NamesMatchAppend(VisitsUpTo(ts, n - 1), SubtreesUpTo(ts, n - 1), one, [t]);
      NamesMatchAppend(VisitsUpTo(ts, n - 1) + one, SubtreesUpTo(ts, n - 1) + [t], Visits(t.kids), Subtrees(t.kids));
      CountsAppend(VisitsUpTo(ts, n - 1), one);
      CountsAppend(VisitsUpTo(ts, n - 1) + one, Visits(t.kids));
    }
  }

  lemma {:induction false} VisitsUpToGrows(ts: seq<Tree>, n: nat, m: nat)
    requires n <= m <= |ts|
    ensures VisitsUpTo(ts, n) <= VisitsUpTo(ts, m)
    decreases m
  {
    if n < m {
      VisitsUpToGrows(ts, n, m - 1);
      var shorter := VisitsUpTo(ts, m - 1);
      var rest := [Visit(ts[m - 1].item.itemKey, m, |ts|)] + Visits(ts[m - 1].kids);
      assert VisitsUpTo(ts, m) == shorter + rest;
      assert shorter <= shorter + rest;
    }
  }

  /**
    The counter restarts at each level: after the calls for the first k
    trees comes the call for tree k, counted k + 1 of all its siblings, and
    right after it the calls for its children, the first of them counted 1
    of the children's number.
  */
  lemma SiblingCounts(ts: seq<Tree>, k: nat)
    requires k < |ts|
    ensures VisitsUpTo(ts, k) + [Visit(ts[k].item.itemKey, k + 1, |ts|)] + Visits(ts[k].kids) <= Visits(ts)
    ensures ts[k].kids != [] ==> [Visit(ts[k].kids[0].item.itemKey, 1, |ts[k].kids|)] <= Visits(ts[k].kids)
  {
    VisitsUpToGrows(ts, k + 1, |ts|);
    var kids := ts[k].kids;
    if kids != [] {
      VisitsUpToGrows(kids, 1, |kids|);
      assert VisitsUpTo(kids, 1) == [] + [Visit(kids[0].item.itemKey, 1, |kids|)] + Visits(kids[0].kids);
    }
  }

  // ---------------------------------------------------------------------
  // Child lookup, export walk and parent links
  // ---------------------------------------------------------------------

  /** With unique keys, looking an item up by its own key finds that very item. */
  lemma KeyFindsItself(roots: seq<Tree>, t: Tree)
    requires UniqueKeys(roots) && t in Subtrees(roots)
    ensures FindByKey(roots, t.item.key) == Some(t)
  {
    var s := Subtrees(roots);
    var r := FindByKey(roots, t.item.key);
    var i :| 0 <= i < |s| && s[i] == r.value;
    var j :| 0 <= j < |s| && s[j] == t;
    assert s[i].item.key == s[j].item.key;
  }

  /**
    In a well-formed store, the items the base handler walks under a parent
    id are the items the export walks at the same level: the roots for -1,
    else the children of the item with that id.
  */
  lemma ChildItemsMatchExport(roots: seq<Tree>, parent: int)
    requires WellFormed(roots)
    ensures parent == -1 ==> GetChildItems(roots, parent) == Items(ExportStart(roots, SyncCore.EmptyGuid))
    ensures parent != -1 && FindById(roots, parent).Some? ==>
              var t := FindById(roots, parent).value;
              && GetChildItems(roots, parent) == Items(t.kids)
              && ExportStart(roots, t.item.key) == t.kids
  {
    if parent != -1 && FindById(roots, parent).Some? {
      var t := FindById(roots, parent).value;
      KeyFindsItself(roots, t);
    }
  }

  /**
    In a well-formed store, the parent the path lookup finds for a child is
    the item the export walk lists it under, and a root item is the top of
    its own chain.
  */
  lemma KidFindsParent(roots: seq<Tree>, t: Tree, k: Tree)
    requires WellFormed(roots) && t in Subtrees(roots) && k in t.kids
    ensures k.item.parentId == Some(t.item.key)
    ensures FindByKey(roots, k.item.parentId.value) == Some(t)
    ensures !Orphan(roots, k.item)
  {
    KeyFindsItself(roots, t);
  }

  // ---------------------------------------------------------------------
  // Paths
  // ---------------------------------------------------------------------

  /** An item whose parent is missing, or that has none, gets its own safe name as path, whatever the mode. */
  lemma MissingParentTruncates(roots: seq<Tree>, item: DictItem, useGuid: bool, isFlat: bool, safe: string -> string,
                               sep: char, rank: SyncCore.Guid -> nat)
    requires Orphan(roots, item)
    requires Ranked(roots, rank) && ParentRanked(roots, item, rank)
    ensures Ancestry(roots, item, rank) == [item]
    ensures GetItemPath(roots, item, useGuid, isFlat, safe, sep, rank) == safe(item.itemKey)
  {
    assert SafeNames([item], safe) == [safe(item.itemKey)];
  }

  /** The path of an item whose parent is found extends the parent's path by the separator and its own safe name. */
  lemma PathExtendsParent(roots: seq<Tree>, item: DictItem, safe: string -> string, sep: char, rank: SyncCore.Guid -> nat)
    requires !Orphan(roots, item)
    requires Ranked(roots, rank) && ParentRanked(roots, item, rank)
    ensures var parent := FindByKey(roots, item.parentId.value).value.item;
            ParentRanked(roots, parent, rank) &&
            GetItemPath(roots, item, false, false, safe, sep, rank)
            == GetItemPath(roots, parent, false, false, safe, sep, rank) + [sep] + safe(item.itemKey)
  {
    var parent := FindByKey(roots, item.parentId.value).value.item;
    PathIsJoinedAncestry(roots, item, safe, sep, rank);
    PathIsJoinedAncestry(roots, parent, safe, sep, rank);
  }
}
