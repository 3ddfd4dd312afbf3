/**
 * The deep merge as the program runs it: the base document is updated in place and takes over
 * objects of the extension. Proved to compute the merge of values.
 */
module HeapMerge {
  import opened Results
  import opened Trees
  import opened Merge
  import opened MergeFacts
  import opened NamedLists
  import opened Documents
  import opened HeapLists

  /** The outcome tells what happened on values. */
  ghost predicate Reports<T>(out: Outcome<MergeError>, r: Result<T, MergeError>) {
    && (out.Pass? <==> r.Success?)
    && (out.Fail? ==> r.Failure? && out.error == r.error)
  }

  /** Two items of the same name. */
  predicate Namesakes(a: Tree, b: Tree) {
    HasAttr(a, NAME) && HasAttr(b, NAME) && NameOf(a) == NameOf(b)
  }

  /** Only namesakes have objects in common. */
  ghost predicate OnlyNamesakesShare(trees: seq<Tree>, parts: seq<set<object>>, extTrees: seq<Tree>,
                                     extParts: seq<set<object>>, from: nat)
    requires |trees| == |parts| && |extTrees| == |extParts|
  {
    forall p, q :: 0 <= p < |parts| && from <= q < |extParts| && !Namesakes(trees[p], extTrees[q]) ==>
      parts[p] !! extParts[q]
  }

  /** Whether some item has no name. */
  method Nameless(l: PyList) returns (r: bool)
    requires l.Valid()
    ensures r <==> exists i :: 0 <= i < |l.trees| && !HasAttr(l.trees[i], NAME)
  {
    var i := 0;
    while i < |l.items|
      invariant i <= |l.items|
      invariant forall j :: 0 <= j < i ==> HasAttr(l.trees[j], NAME)
    {
      assert Holds(l.items[i], l.parts[i], l.trees[i]);
      if !HasKey(l.items[i], NAME) {
        return true;
      }
      i := i + 1;
    }
    r := false;
  }

  lemma {:induction false} StaysFailed(base: seq<Tree>, ext: seq<Tree>, m: nat, n: nat)
    requires IsNamedList(ext) && m <= n <= |ext| && AppendNew(base, ext, m).Failure?
    ensures AppendNew(base, ext, n) == AppendNew(base, ext, m)
  {
    if m < n {
      StaysFailed(base, ext, m, n - 1);
    }
  }

  /** A new item with objects in common with namesakes only. */
  ghost predicate ApartFromOthers(trees: seq<Tree>, parts: seq<set<object>>, t: Tree, repr: set<object>)
    requires |trees| == |parts|
  {
    forall p :: 0 <= p < |parts| && !Namesakes(trees[p], t) ==> parts[p] !! repr
  }

  lemma ShareAt(trees: seq<Tree>, parts: seq<set<object>>, extTrees: seq<Tree>, extParts: seq<set<object>>, j: nat)
    requires |trees| == |parts| && |extTrees| == |extParts| && j < |extTrees|
    requires OnlyNamesakesShare(trees, parts, extTrees, extParts, j)
    ensures ApartFromOthers(trees, parts, extTrees[j], extParts[j])
  {
  }

  /** One round of the second loop. */
  method AppendOne(l: PyList, item: Value, ghost repr: set<object>, ghost t: Tree) returns (out: Outcome<MergeError>)
    requires l.Valid() && LeafNames(l.trees) && Holds(item, repr, t) && l !in repr
    requires HasAttr(t, NAME) || HasAttr(t, MARKER)
    requires HasAttr(t, NAME) ==> NameOf(t).Leaf?
    requires ApartFromOthers(l.trees, l.parts, t, repr)
    modifies l
    ensures Reports(out, AppendItem(old(l.trees), t))
    ensures out.Pass? ==>
              && l.Valid() && LeafNames(l.trees) && AppendItem(old(l.trees), t) == Success(l.trees)
              && ((l.trees == old(l.trees) && l.parts == old(l.parts))
                  || (l.trees == old(l.trees) + [t] && l.parts == old(l.parts) + [repr]))
              && l.Repr <= old(l.Repr) + repr
  {
    if HasKey(item, MARKER) {
      return Pass;
    }
    NameHeld(item, repr, t);
    var nameless := Nameless(l);
    if nameless {
      return Fail(MissingName);
    }
    var at := FindNamed(l, NameValue(item));
    if at.None? {
      l.Append(item, repr, t);
    }
    out := Pass;
  }

  lemma ShareAfterAppend(trees: seq<Tree>, parts: seq<set<object>>, trees': seq<Tree>, parts': seq<set<object>>,
                         extTrees: seq<Tree>, extParts: seq<set<object>>, j: nat)
    requires |trees| == |parts| && |extTrees| == |extParts| && j < |extTrees| && Apart(extParts)
    requires OnlyNamesakesShare(trees, parts, extTrees, extParts, j)
    requires (trees' == trees && parts' == parts)
        || (trees' == trees + [extTrees[j]] && parts' == parts + [extParts[j]])
    ensures OnlyNamesakesShare(trees', parts', extTrees, extParts, j + 1)
  {
  }

  lemma LeafNameAt(trees: seq<Tree>, j: nat)
    requires LeafNames(trees) && IsNamedList(trees) && j < |trees|
    ensures HasAttr(trees[j], NAME) || HasAttr(trees[j], MARKER)
    ensures HasAttr(trees[j], NAME) ==> NameOf(trees[j]).Leaf?
  {
  }

  /** Second loop: items of the extension whose name is not taken join the list. */
  method AppendNewItems(l: PyList, ext: PyList) returns (out: Outcome<MergeError>)
    requires l.Valid() && ext.Valid() && l !in ext.Repr
    requires IsNamedList(ext.trees) && LeafNames(l.trees) && LeafNames(ext.trees)
    requires OnlyNamesakesShare(l.trees, l.parts, ext.trees, ext.parts, 0)
    modifies l
    ensures Reports(out, AppendNew(old(l.trees), ext.trees, |ext.trees|))
    ensures out.Pass? ==> l.Valid() && AppendNew(old(l.trees), ext.trees, |ext.trees|) == Success(l.trees)
    ensures out.Pass? ==> l.Repr <= old(l.Repr) + ext.Repr
  {
    hide Merge.AppendItem, Documents.Apart, OnlyNamesakesShare, ApartFromOthers, HeapLists.LeafNames, Trees.IsNamedList;
    ghost var before := l.trees;
    var j := 0;
    while j < |ext.items|
      invariant j <= |ext.items|
      invariant l.Valid() && LeafNames(l.trees)
      invariant AppendNew(before, ext.trees, j) == Success(l.trees)
      invariant OnlyNamesakesShare(l.trees, l.parts, ext.trees, ext.parts, j)
      invariant l.Repr <= old(l.Repr) + ext.Repr
    {
      assert ext.Valid();
      assert Holds(ext.items[j], ext.parts[j], ext.trees[j]);
      ghost var trees, parts := l.trees, l.parts;
      ShareAt(trees, parts, ext.trees, ext.parts, j);
      LeafNameAt(ext.trees, j);
      out := AppendOne(l, ext.items[j], ext.parts[j], ext.trees[j]);
      if out.Fail? {
        StaysFailed(before, ext.trees, j + 1, |ext.trees|);
        return;
      }
      ShareAfterAppend(trees, parts, l.trees, l.parts, ext.trees, ext.parts, j);
      j := j + 1;
    }
    out := Pass;
  }

  // ---------- the recursion ----------

  /** The objects of the child under `key`. */
  ghost function PartOf(o: ObjDict, key: string): set<object>
    reads o
  {
    if key in o.keys && |o.parts| == |o.keys| then o.parts[KeyIndex(o.keys, key)] else {}
  }

  ghost predicate ListsOnly(s: set<object>) {
    forall o :: o in s ==> o is PyList
  }

  /**
   * A dict part way through a merge: the keys it started with come first, and the columns whose
   * key is not in `done` are as they were, made of objects of `repr`.
   */
  ghost predicate Untouched(keys0: seq<string>, trees0: seq<Tree>, repr: set<object>,
                            keys: seq<string>, trees: seq<Tree>, parts: seq<set<object>>, done: seq<string>)
    requires |keys0| == |trees0| && |keys| == |trees| == |parts|
  {
    && |keys0| <= |keys|
    && forall p :: 0 <= p < |keys| && keys[p] !in done ==>
         p < |keys0| && keys[p] == keys0[p] && trees[p] == trees0[p] && parts[p] <= repr
  }

  /** The columns of all keys but `key` are the same, and new columns come last. */
  ghost predicate OnlyColumn(keys0: seq<string>, trees0: seq<Tree>, parts0: seq<set<object>>,
                             keys: seq<string>, trees: seq<Tree>, parts: seq<set<object>>, key: string)
    requires |keys0| == |trees0| == |parts0| && |keys| == |trees| == |parts|
  {
    && |keys0| <= |keys|
    && forall p :: 0 <= p < |keys| && keys[p] != key ==>
         p < |keys0| && keys[p] == keys0[p] && trees[p] == trees0[p] && parts[p] == parts0[p]
  }

  lemma ColumnReplaced(keys: seq<string>, trees: seq<Tree>, parts: seq<set<object>>, s: nat, t: Tree, part: set<object>)
    requires |keys| == |trees| == |parts| && s < |keys|
    ensures OnlyColumn(keys, trees, parts, keys, trees[s := t], parts[s := part], keys[s])
  {
  }

  lemma ColumnAdded(keys: seq<string>, trees: seq<Tree>, parts: seq<set<object>>, key: string, t: Tree,
                    part: set<object>)
    requires |keys| == |trees| == |parts|
    ensures OnlyColumn(keys, trees, parts, keys + [key], trees + [t], parts + [part], key)
  {
  }

  lemma StillUntouched(keys0: seq<string>, trees0: seq<Tree>, repr: set<object>,
                       keys1: seq<string>, trees1: seq<Tree>, parts1: seq<set<object>>,
                       keys: seq<string>, trees: seq<Tree>, parts: seq<set<object>>, extKeys: seq<string>, i: nat)
    requires |keys0| == |trees0| && |keys1| == |trees1| == |parts1| && |keys| == |trees| == |parts|
    requires i < |extKeys|
    requires Untouched(keys0, trees0, repr, keys1, trees1, parts1, extKeys[..i])
    requires OnlyColumn(keys1, trees1, parts1, keys, trees, parts, extKeys[i])
    ensures Untouched(keys0, trees0, repr, keys, trees, parts, extKeys[..i + 1])
  {
    assert extKeys[..i + 1] == extKeys[..i] + [extKeys[i]];
  }

  /** The column a round is about to update is still the one the merge started with. */
  lemma NotYetTouched(keys0: seq<string>, trees0: seq<Tree>, repr: set<object>,
                      keys: seq<string>, trees: seq<Tree>, parts: seq<set<object>>, extKeys: seq<string>, i: nat)
    requires |keys0| == |trees0| && |keys| == |trees| == |parts|
    requires i < |extKeys| && Distinct(extKeys) && extKeys[i] in keys
    requires Untouched(keys0, trees0, repr, keys, trees, parts, extKeys[..i])
    requires forall p :: 0 <= p < |trees0| ==> NamesScalar(trees0[p])
    ensures parts[KeyIndex(keys, extKeys[i])] <= repr
    ensures NamesScalar(trees[KeyIndex(keys, extKeys[i])])
  {
    var p := KeyIndex(keys, extKeys[i]);
    assert extKeys[i] !in extKeys[..i];
  }

  /** The columns of a dict are as good as the object it spells. */
  lemma Columns(keys: seq<string>, trees: seq<Tree>)
    requires |keys| == |trees| && Distinct(keys)
    ensures NamesScalar(DictOf(keys, trees)) ==> forall p :: 0 <= p < |trees| ==> NamesScalar(trees[p])
    ensures WellFormed(DictOf(keys, trees)) ==> forall p :: 0 <= p < |trees| ==> WellFormed(trees[p])
  {
    forall p | 0 <= p < |keys|
      ensures keys[p] in DictOf(keys, trees).vals && DictOf(keys, trees).vals[keys[p]] == trees[p]
    {
      DictGet(keys, trees, p);
    }
  }

  /** `s` has no object of the children from `i` on. */
  ghost predicate ApartFrom(s: set<object>, parts: seq<set<object>>, i: nat) {
    forall j :: i <= j < |parts| ==> s !! parts[j]
  }

  lemma TakeMore(s: set<object>, parts: seq<set<object>>, i: nat)
    requires ApartFrom(s, parts, i) && Apart(parts) && i < |parts|
    ensures ApartFrom(s + parts[i], parts, i + 1)
  {
  }

  /**
   * Merges `ext` into `base`. No object of `ext` is written (the frame excludes them); on success
   * `base` spells the merge of values, and all its objects are the base's, the extension's, or new lists.
   */
  method MergeObjdict(base: ObjDict, ext: ObjDict) returns (out: Outcome<MergeError>, ghost lists: set<object>)
    requires base.Valid() && ext.Valid() && base.Repr !! ext.Repr
    requires NamesScalar(base.Tree()) && NamesScalar(ext.Tree()) && WellFormed(ext.Tree())
    modifies base.Repr
    ensures Reports(out, MergeObj(old(base.Tree()), old(ext.Tree())))
    ensures out.Pass? ==> base.Valid() && MergeObj(old(base.Tree()), old(ext.Tree())) == Success(base.Tree())
    ensures fresh(lists) && ListsOnly(lists)
    ensures out.Pass? ==> base.Repr <= old(base.Repr) + old(ext.Repr) + lists
    decreases ext.Tree(), 2
  {
    Columns(ext.keys, ext.trees);
    Columns(base.keys, base.trees);
    AsColumns(base.Tree(), ext.keys, ext.trees, |ext.keys|);
    out, lists := MergeColumns(base, ext);
  }

  /** The columns of a dict all hold well-formed values with scalar names. */
  ghost predicate GoodColumns(trees: seq<Tree>) {
    forall i :: 0 <= i < |trees| ==> WellFormed(trees[i]) && NamesScalar(trees[i])
  }

  /** The rounds of the merge over the first `n` columns of the extension. */
  ghost function Rounds(b: Tree, keys: seq<string>, trees: seq<Tree>, n: nat): (r: Merged)
    requires b.Obj? && n <= |keys| == |trees| && GoodColumns(trees)
    ensures r.Success? ==> r.value.Obj?
  {
    if n == 0 then Success(b)
    else
      var done :- Rounds(b, keys, trees, n - 1);
      MergeField(done, keys[n - 1], trees[n - 1])
  }

  lemma {:induction false} AsColumns(b: Tree, keys: seq<string>, trees: seq<Tree>, n: nat)
    requires b.Obj? && n <= |keys| == |trees| && GoodColumns(trees) && Distinct(keys)
    requires WellFormed(DictOf(keys, trees))
    ensures Rounds(b, keys, trees, n) == MergeFields(b, DictOf(keys, trees), n)
  {
    if n != 0 {
      AsColumns(b, keys, trees, n - 1);
      DictGet(keys, trees, n - 1);
    }
  }

  lemma {:induction false} RoundsStayFailed(b: Tree, keys: seq<string>, trees: seq<Tree>, m: nat, n: nat)
    requires b.Obj? && m <= n <= |keys| == |trees| && GoodColumns(trees) && Rounds(b, keys, trees, m).Failure?
    ensures Rounds(b, keys, trees, n) == Rounds(b, keys, trees, m)
  {
    if m < n {
      RoundsStayFailed(b, keys, trees, m, n - 1);
    }
  }

  /** The loop over the extension's keys. */
  method MergeColumns(base: ObjDict, ext: ObjDict) returns (out: Outcome<MergeError>, ghost lists: set<object>)
    requires base.Valid() && ext.Valid() && base.Repr !! ext.Repr && GoodColumns(ext.trees)
    requires forall p :: 0 <= p < |base.trees| ==> NamesScalar(base.trees[p])
    modifies base.Repr
    ensures Reports(out, Rounds(old(base.Tree()), ext.keys, ext.trees, |ext.keys|))
    ensures out.Pass? ==>
        base.Valid() && Rounds(old(base.Tree()), ext.keys, ext.trees, |ext.keys|) == Success(base.Tree())
    ensures fresh(lists) && ListsOnly(lists)
    ensures out.Pass? ==> base.Repr <= old(base.Repr) + old(ext.Repr) + lists
    decreases ext.Tree(), 1
  {
    hide Merge.MergeField, Trees.WellFormed, Trees.NamesScalar, Documents.Apart, Trees.Distinct;
    ghost var b := base.Tree();
    ghost var keys, trees, repr := base.keys, base.trees, base.Repr;
    ghost var taken: set<object> := {};
    lists := {};
    var i := 0;
    while i < |ext.keys|
      invariant i <= |ext.keys| && base.Valid()
      invariant Rounds(b, ext.keys, ext.trees, i) == Success(base.Tree())
      invariant Midway(base, ext, keys, trees, repr, taken, lists, i)
      invariant fresh(lists)
    {
      DictGet(ext.keys, ext.trees, i);
      ghost var more;
      out, more := MergeRound(base, ext, i, keys, trees, repr, taken, lists);
      if out.Fail? {
        RoundsStayFailed(b, ext.keys, ext.trees, i + 1, |ext.keys|);
        return;
      }
      assert fresh(more);
      taken, lists := taken + ext.parts[i], lists + more;
      i := i + 1;
    }
    out := Pass;
  }

  /**
   * `base` part way through taking in `ext`: the columns of keys still to come are untouched and
   * made of objects of `repr`; the objects taken over are none of the children still to come.
   */
  ghost predicate Midway(base: ObjDict, ext: ObjDict, keys: seq<string>, trees: seq<Tree>,
                         repr: set<object>, taken: set<object>, lists: set<object>, i: nat)
    requires |keys| == |trees| && |base.keys| == |base.trees| == |base.parts| && i <= |ext.keys|
    reads base, ext
  {
    && Untouched(keys, trees, repr, base.keys, base.trees, base.parts, ext.keys[..i])
    && base.Repr <= repr + taken + lists
    && taken <= ext.Repr && ApartFrom(taken, ext.parts, i)
    && ListsOnly(lists)
  }

  /** One round of the loop over the extension's keys, inside the loop. */
  method MergeRound(base: ObjDict, ext: ObjDict, i: nat, ghost keys: seq<string>, ghost trees: seq<Tree>,
                    ghost repr: set<object>, ghost taken: set<object>, ghost lists: set<object>)
    returns (out: Outcome<MergeError>, ghost more: set<object>)
    requires base.Valid() && ext.Valid() && i < |ext.keys| && base in repr && repr !! ext.Repr
    requires WellFormed(ext.trees[i]) && NamesScalar(ext.trees[i])
    requires |keys| == |trees| && forall p :: 0 <= p < |trees| ==> NamesScalar(trees[p])
    requires Midway(base, ext, keys, trees, repr, taken, lists, i)
    requires forall o :: o in lists ==> o !in ext.Repr
    modifies repr
    ensures Reports(out, MergeField(old(base.Tree()), ext.keys[i], ext.trees[i]))
    ensures fresh(more)
    ensures out.Pass? ==>
        base.Valid() && MergeField(old(base.Tree()), ext.keys[i], ext.trees[i]) == Success(base.Tree())
    ensures out.Pass? ==> Midway(base, ext, keys, trees, repr, taken + ext.parts[i], lists + more, i + 1)
    decreases ext.trees[i], 5
  {
    assert Holds(ext.vals[i], ext.parts[i], ext.trees[i]);
    var key := ext.keys[i];
    ghost var keys1, trees1, parts1 := base.keys, base.trees, base.parts;
    if key in base.keys {
      NotYetTouched(keys, trees, repr, base.keys, base.trees, base.parts, ext.keys, i);
    }
    TakeMore(taken, ext.parts, i);
    out, more := MergeKey(base, key, ext.vals[i], ext.parts[i], ext.trees[i]);
    if out.Pass? {
      StillUntouched(keys, trees, repr, keys1, trees1, parts1, base.keys, base.trees, base.parts, ext.keys, i);
    }
  }

  /** One round of the loop over the extension's keys. */
  method MergeKey(base: ObjDict, key: string, v: Value, ghost repr: set<object>, ghost t: Tree)
    returns (out: Outcome<MergeError>, ghost lists: set<object>)
    requires base.Valid() && Holds(v, repr, t) && base.Repr !! repr
    requires WellFormed(t) && NamesScalar(t)
    requires key in base.keys ==> NamesScalar(base.trees[KeyIndex(base.keys, key)])
    modifies base, PartOf(base, key)
    ensures Reports(out, MergeField(old(base.Tree()), key, t))
    ensures out.Pass? ==> base.Valid() && MergeField(old(base.Tree()), key, t) == Success(base.Tree())
    ensures fresh(lists) && ListsOnly(lists)
    ensures out.Pass? ==> base.Repr <= old(base.Repr) + repr + lists
    ensures out.Pass? ==>
        OnlyColumn(old(base.keys), old(base.trees), old(base.parts), base.keys, base.trees, base.parts, key)
    decreases t, 4
  {
    var found, s := base.Locate(key);
    if !found {
      DictAdd(base.keys, base.trees, key, t);
      ColumnAdded(base.keys, base.trees, base.parts, key, t, repr);
      base.Add(key, v, repr, t);
      return Pass, {};
    }
    assert KeyIndex(base.keys, key) == s;
    DictGet(base.keys, base.trees, s);
    ghost var keys, trees, parts := base.keys, base.trees, base.parts;
    var cur := base.vals[s];
    assert Holds(cur, base.parts[s], base.trees[s]);
    var l;
    ghost var repr', t';
    out, l, repr', t', lists := MergeChild(base, cur, base.parts[s], base.trees[s], key, v, repr, t);
    if out.Pass? {
      DictReplace(keys, trees, s, t');
      ColumnReplaced(keys, trees, parts, s, t', repr');
      base.Replace(s, l, repr', t');
    }
  }

  /** What is stored under `key` when both dicts have it: updated in place or replaced. */
  method MergeChild(ghost base: ObjDict, x: Value, ghost xr: set<object>, ghost xt: Tree,
                    key: string, v: Value, ghost repr: set<object>, ghost t: Tree)
    returns (out: Outcome<MergeError>, r: Value, ghost rr: set<object>, ghost rt: Tree, ghost lists: set<object>)
    requires Holds(x, xr, xt) && Holds(v, repr, t) && xr !! repr && base !in xr
    requires WellFormed(t) && NamesScalar(t) && NamesScalar(xt)
    modifies xr
    ensures Reports(out, MergeValue(key, xt, t))
    ensures out.Pass? ==> Holds(r, rr, rt) && MergeValue(key, xt, t) == Success(rt)
    ensures fresh(lists) && ListsOnly(lists)
    ensures out.Pass? ==> rr <= xr + repr + lists
    decreases t, 3
  {
    r, rr, rt, lists := x, xr, xt, {};
    if x.ObjRef? && v.ObjRef? {
      out, lists := MergeObjdict(x.obj, v.obj);
      if out.Pass? {
        rr, rt := x.obj.Repr, x.obj.Tree();
      }
    } else if x.ListRef? && v.ListRef? {
      var l;
      out, l, lists := MergeList(x.list, v.list, key);
      if out.Pass? {
        r, rr, rt := ListRef(l), l.Repr, List(l.trees);
      }
    } else if x.Scal? && v.Scal? && SameType(x.scalar, v.scalar) {
      out, r, rr, rt := Pass, v, repr, t;
    } else {
      out := Fail(TypeMismatch(key));
    }
  }

  method MergeList(x: PyList, ext: PyList, key: string)
    returns (out: Outcome<MergeError>, l: PyList, ghost lists: set<object>)
    requires x.Valid() && ext.Valid() && x.Repr !! ext.Repr
    requires WellFormed(List(ext.trees)) && NamesScalar(List(ext.trees)) && NamesScalar(List(x.trees))
    modifies x.Repr
    ensures Reports(out, Merge.MergeList(key, List(old(x.trees)), List(old(ext.trees))))
    ensures out.Pass? ==>
        l.Valid() && Merge.MergeList(key, List(old(x.trees)), List(old(ext.trees))) == Success(List(l.trees))
    ensures fresh(lists) && ListsOnly(lists)
    ensures out.Pass? ==> l.Repr <= old(x.Repr) + old(ext.Repr) + lists
    decreases List(ext.trees), 2
  {
    out, l, lists := Pass, ext, {};
    if NamedList(x) && NamedList(ext) {
      var flag := ReadFlag(ext, key);
      if flag.Failure? {
        return Fail(flag.error), x, {};
      }
      var unique := NamesDistinct(x);
      if !unique {
        return Fail(DuplicateNames(key, "default")), x, {};
      }
      unique := NamesDistinct(ext);
      if !unique {
        return Fail(DuplicateNames(key, "input")), x, {};
      }
      if flag.value {
        l := x;
        out, lists := MergeNamesakes(x, ext);
        if out.Pass? {
          out := AppendNewItems(x, ext);
        }
      } else {
        l := KeepNamed(ext);
        lists := {l};
      }
    }
  }

  /**
   * The first loop part way: positions from `i` on are as they were, names are kept, and only
   * namesakes have objects in common with the extension.
   */
  ghost predicate MatchedSoFar(trees0: seq<Tree>, repr: set<object>, trees: seq<Tree>, parts: seq<set<object>>,
                               extTrees: seq<Tree>, extParts: seq<set<object>>, i: nat)
    requires |trees| == |parts| && |extTrees| == |extParts|
  {
    && SameNames(trees, trees0)
    && (forall p :: i <= p < |trees| ==> trees[p] == trees0[p] && parts[p] <= repr)
    && OnlyNamesakesShare(trees, parts, extTrees, extParts, 0)
  }

  /** First loop: every base item takes in its namesake. */
  method MergeNamesakes(l: PyList, ext: PyList) returns (out: Outcome<MergeError>, ghost lists: set<object>)
    requires l.Valid() && ext.Valid() && l.Repr !! ext.Repr
    requires WellFormed(List(ext.trees)) && NamesScalar(List(ext.trees)) && NamesScalar(List(l.trees))
    requires UniqueNames(l.trees)
    modifies l.Repr
    ensures Reports(out, MergeMatched(old(l.trees), List(old(ext.trees)), |old(l.trees)|))
    ensures out.Pass? ==>
        l.Valid() && MergeMatched(old(l.trees), List(old(ext.trees)), |old(l.trees)|) == Success(l.trees)
    ensures out.Pass? ==> LeafNames(l.trees) && OnlyNamesakesShare(l.trees, l.parts, ext.trees, ext.parts, 0)
    ensures fresh(lists) && ListsOnly(lists)
    ensures out.Pass? ==> l.Repr <= old(l.Repr) + old(ext.Repr) + lists
    decreases List(ext.trees), 1
  {
    hide Merge.MergeItem, Documents.Apart, OnlyNamesakesShare, MatchedSoFar, NameTakenOnce, Trees.UniqueNames,
         Trees.NamesScalar;
    MatchedStart(l.trees, l.Repr, l.parts, ext.trees, ext.Repr, ext.parts);
    ghost var before, e := l.trees, List(ext.trees);
    lists := {};
    var i := 0;
    while i < |l.items|
      invariant i <= |l.items| && l.items == old(l.items)
      invariant l.Valid() && MergeMatched(before, e, i) == Success(l.trees)
      invariant MatchedSoFar(before, old(l.Repr), l.trees, l.parts, ext.trees, ext.parts, i)
      invariant l.Repr <= old(l.Repr) + ext.Repr + lists && fresh(lists) && ListsOnly(lists)
    {
      assert ext.Valid();
      ghost var trees, parts := l.trees, l.parts;
      MatchedAt(before, old(l.Repr), trees, parts, ext.trees, ext.parts, i);
      ghost var t, added;
      out, t, added := MergeOneItem(l, i, ext);
      if out.Fail? {
        MatchedStaysFailed(before, e, i + 1, |before|);
        return;
      }
      MatchedFurther(before, old(l.Repr), trees, parts, ext.trees, ext.parts, i, t, l.parts[i]);
      lists := lists + added;
      i := i + 1;
    }
    MatchedEnd(before, old(l.Repr), l.trees, l.parts, ext.trees, ext.parts, i);
    out := Pass;
  }

  /** No other item has the name of the i-th. */
  ghost predicate NameTakenOnce(trees: seq<Tree>, i: nat)
    requires i < |trees|
  {
    forall p :: 0 <= p < |trees| && p != i ==> !Namesakes(trees[p], trees[i])
  }

  lemma MatchedStart(trees: seq<Tree>, repr: set<object>, parts: seq<set<object>>,
                     extTrees: seq<Tree>, extRepr: set<object>, extParts: seq<set<object>>)
    requires |trees| == |parts| && |extTrees| == |extParts| && repr !! extRepr
    requires forall p :: 0 <= p < |parts| ==> parts[p] <= repr
    requires forall q :: 0 <= q < |extParts| ==> extParts[q] <= extRepr
    ensures MatchedSoFar(trees, repr, trees, parts, extTrees, extParts, 0)
  {
  }

  /** What the round for the i-th item needs to know. */
  lemma MatchedAt(trees0: seq<Tree>, repr: set<object>, trees: seq<Tree>, parts: seq<set<object>>,
                  extTrees: seq<Tree>, extParts: seq<set<object>>, i: nat)
    requires |trees| == |parts| && |extTrees| == |extParts| && i < |trees|
    requires MatchedSoFar(trees0, repr, trees, parts, extTrees, extParts, i)
    requires UniqueNames(trees0) && NamesScalar(List(trees0))
    ensures parts[i] <= repr && OnlyNamesakesShare(trees, parts, extTrees, extParts, 0)
    ensures trees[i] == trees0[i] && NamesScalar(trees[i]) && NameTakenOnce(trees, i)
    ensures HasAttr(trees[i], NAME) ==> NameOf(trees[i]).Leaf?
  {
  }

  lemma MatchedEnd(trees0: seq<Tree>, repr: set<object>, trees: seq<Tree>, parts: seq<set<object>>,
                   extTrees: seq<Tree>, extParts: seq<set<object>>, i: nat)
    requires |trees| == |parts| && |extTrees| == |extParts|
    requires MatchedSoFar(trees0, repr, trees, parts, extTrees, extParts, i) && NamesScalar(List(trees0))
    ensures LeafNames(trees) && OnlyNamesakesShare(trees, parts, extTrees, extParts, 0)
  {
  }

  lemma MatchedFurther(trees0: seq<Tree>, repr: set<object>, trees: seq<Tree>, parts: seq<set<object>>,
                       extTrees: seq<Tree>, extParts: seq<set<object>>, i: nat, t: Tree, part: set<object>)
    requires |trees| == |parts| && |extTrees| == |extParts| && i < |trees|
    requires MatchedSoFar(trees0, repr, trees, parts, extTrees, extParts, i)
    requires SameNames([t], [trees[i]]) && SharesWithNamesakes(t, part, extTrees, extParts)
    ensures MatchedSoFar(trees0, repr, trees[i := t], parts[i := part], extTrees, extParts, i + 1)
  {
    assert [t][0] == t && [trees[i]][0] == trees[i];
  }

  /** An item that has objects only in common with its namesakes. */
  ghost predicate SharesWithNamesakes(t: Tree, part: set<object>, extTrees: seq<Tree>, extParts: seq<set<object>>)
    requires |extTrees| == |extParts|
  {
    forall q :: 0 <= q < |extParts| && !Namesakes(t, extTrees[q]) ==> part !! extParts[q]
  }

  lemma {:induction false} MatchedStaysFailed(base: seq<Tree>, ext: Tree, m: nat, n: nat)
    requires ext.List? && WellFormed(ext) && m <= n <= |base| && MergeMatched(base, ext, m).Failure?
    ensures MergeMatched(base, ext, n) == MergeMatched(base, ext, m)
  {
    if m < n {
      MatchedStaysFailed(base, ext, m, n - 1);
    }
  }

  /** Where the first loop finds the namesake of an item, or why it fails. */
  method FindNamesake(l: PyList, i: nat, ext: PyList) returns (r: Result<Option<nat>, MergeError>)
    requires l.Valid() && ext.Valid() && i < |l.items|
    requires LeafNames(ext.trees) && (HasAttr(l.trees[i], NAME) ==> NameOf(l.trees[i]).Leaf?)
    ensures r == if !AnyNamed(ext.trees) then Success(None)
                 else if !HasAttr(l.trees[i], NAME) then Failure(MissingName)
                 else Success(IndexOfName(ext.trees, NameOf(l.trees[i])))
  {
    var some := SomeNamed(ext);
    if !some {
      return Success(None);
    }
    assert Holds(l.items[i], l.parts[i], l.trees[i]);
    if !HasKey(l.items[i], NAME) {
      return Failure(MissingName);
    }
    NameHeld(l.items[i], l.parts[i], l.trees[i]);
    var at := FindNamed(ext, NameValue(l.items[i]));
    r := Success(at);
  }

  /**
   * One round of the first loop. `t` is what the item has become and `lists` the new lists
   * made on the way.
   */
  method MergeOneItem(l: PyList, i: nat, ext: PyList)
    returns (out: Outcome<MergeError>, ghost t: Tree, ghost lists: set<object>)
    requires l.Valid() && ext.Valid() && i < |l.items| && l !in ext.Repr
    requires WellFormed(List(ext.trees)) && NamesScalar(List(ext.trees)) && NamesScalar(l.trees[i])
    requires HasAttr(l.trees[i], NAME) ==> NameOf(l.trees[i]).Leaf?
    requires NameTakenOnce(l.trees, i) && l.parts[i] !! ext.Repr
    requires OnlyNamesakesShare(l.trees, l.parts, ext.trees, ext.parts, 0)
    modifies l, l.parts[i]
    ensures Reports(out, MergeItem(old(l.trees[i]), List(ext.trees)))
    ensures fresh(lists) && ListsOnly(lists)
    ensures out.Pass? ==>
              && l.Valid() && l.items == old(l.items)
              && MergeItem(old(l.trees[i]), List(ext.trees)) == Success(t)
              && SameNames([t], [old(l.trees[i])])
              && l.trees == old(l.trees)[i := t]
              && l.parts == old(l.parts)[i := l.parts[i]]
              && SharesWithNamesakes(t, l.parts[i], ext.trees, ext.parts)
              && l.Repr <= old(l.Repr) + ext.Repr + lists
    decreases List(ext.trees), 0
  {
    t, lists := l.trees[i], {};
    var at := FindNamesake(l, i, ext);
    if at.Failure? {
      return Fail(at.error), t, lists;
    }
    if at.value.None? {
      return Pass, t, lists;
    }
    ghost var part;
    out, part, t, lists := TakeNamesake(l, i, at.value.value, ext);
  }

  /** The i-th item takes in its namesake, the j-th item of the extension. */
  method TakeNamesake(l: PyList, i: nat, j: nat, ext: PyList)
    returns (out: Outcome<MergeError>, ghost part: set<object>, ghost t: Tree, ghost lists: set<object>)
    requires l.Valid() && ext.Valid() && i < |l.items| && j < |ext.items| && l !in ext.Repr
    requires Namesakes(l.trees[i], ext.trees[j]) && NameOf(l.trees[i]).Leaf?
    requires WellFormed(ext.trees[j]) && NamesScalar(ext.trees[j]) && NamesScalar(l.trees[i])
    requires NameTakenOnce(l.trees, i) && l.parts[i] !! ext.Repr
    requires OnlyNamesakesShare(l.trees, l.parts, ext.trees, ext.parts, 0)
    modifies l, l.parts[i]
    ensures Reports(out, MergeObj(old(l.trees[i]), ext.trees[j]))
    ensures fresh(lists) && ListsOnly(lists)
    ensures out.Pass? ==>
              && l.Valid() && l.items == old(l.items)
              && MergeObj(old(l.trees[i]), ext.trees[j]) == Success(t)
              && SameNames([t], [old(l.trees[i])])
              && l.trees == old(l.trees)[i := t] && l.parts == old(l.parts)[i := part]
              && SharesWithNamesakes(t, part, ext.trees, ext.parts)
              && l.Repr <= old(l.Repr) + ext.Repr + lists
    decreases ext.trees[j], 3
  {
    hide Trees.WellFormed, Trees.NamesScalar, Merge.MergeObj, OnlyNamesakesShare, NameTakenOnce;
    var x, y := l.items[i], ext.items[j];
    assert Holds(x, l.parts[i], l.trees[i]) && Holds(y, ext.parts[j], ext.trees[j]);
    ghost var parts, was := l.parts, l.trees[i];
    out, lists := MergeObjdict(x.obj, y.obj);
    part, t := {}, was;
    if out.Pass? {
      part, t := x.obj.Repr, x.obj.Tree();
      NameSurvives(was, ext.trees[j]);
      ItemTakesNamesake(l.trees, parts, ext.trees, ext.parts, i, j, part, lists);
      l.Refresh(i, part, t);
    }
  }

  /** An item that took in its namesake is apart from every other item, and from other names. */
  lemma ItemTakesNamesake(trees: seq<Tree>, parts: seq<set<object>>, extTrees: seq<Tree>, extParts: seq<set<object>>,
                          i: nat, j: nat, part: set<object>, lists: set<object>)
    requires |trees| == |parts| && |extTrees| == |extParts| && i < |trees| && j < |extTrees|
    requires Apart(parts) && Apart(extParts) && NameTakenOnce(trees, i) && Namesakes(trees[i], extTrees[j])
    requires OnlyNamesakesShare(trees, parts, extTrees, extParts, 0)
    requires part <= parts[i] + extParts[j] + lists
    requires (forall p :: 0 <= p < |parts| ==> lists !! parts[p])
        && (forall q :: 0 <= q < |extParts| ==> lists !! extParts[q])
    ensures forall p :: 0 <= p < |parts| && p != i ==> parts[p] !! part
    ensures SharesWithNamesakes(trees[i], part, extTrees, extParts)
  {
    forall p | 0 <= p < |parts| && p != i ensures parts[p] !! part {
      assert !Namesakes(trees[p], extTrees[j]);
    }
    forall q | 0 <= q < |extParts| && !Namesakes(trees[i], extTrees[q]) ensures part !! extParts[q] {
      assert q != j;
    }
  }

  /** Whether some item has a name. */
  method SomeNamed(l: PyList) returns (r: bool)
    requires l.Valid()
    ensures r == AnyNamed(l.trees)
  {
    var i := 0;
    while i < |l.items|
      invariant i <= |l.items|
      invariant forall j :: 0 <= j < i ==> !HasAttr(l.trees[j], NAME)
    {
      assert Holds(l.items[i], l.parts[i], l.trees[i]);
      if HasKey(l.items[i], NAME) {
        return true;
      }
      i := i + 1;
    }
    r := false;
  }
}
