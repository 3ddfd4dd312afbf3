/** Named lists merged under a control item `_merge: true`. */
module NamedLists {
  import opened Results
  import opened Trees
  import opened Merge
  import opened MergeFacts
  import opened MergeLaws

  /** The item called `name`, if any. */
  function Find(items: seq<Tree>, name: Tree): Option<Tree> {
    match IndexOfName(items, name)
    case None => None
    case Some(i) => Some(items[i])
  }

  /** Names of the named items, in order. */
  function Names(items: seq<Tree>): (r: seq<Tree>)
  {
    if items == [] then []
    else if HasAttr(items[0], NAME) then [NameOf(items[0])] + Names(items[1..])
    else Names(items[1..])
  }

  /** The names of `ns` that no item of `items` has, in order. */
  function NewNames(ns: seq<Tree>, items: seq<Tree>): seq<Tree> {
    if ns == [] then []
    else if IndexOfName(items, ns[0]).Some? then NewNames(ns[1..], items)
    else [ns[0]] + NewNames(ns[1..], items)
  }

  /** The first control item of the list is at `j`. */
  predicate FirstControl(items: seq<Tree>, j: nat) {
    && j < |items| && HasAttr(items[j], MARKER)
    && forall i :: 0 <= i < j ==> !HasAttr(items[i], MARKER)
  }

  /** The first control item of the list says `v`. */
  ghost predicate ControlSays(items: seq<Tree>, v: Tree) {
    exists j: nat :: FirstControl(items, j) && items[j].vals[MARKER] == v
  }

  /** Two lists merge item by item: both named, and the first control item says true. */
  ghost predicate MergesByName(x: Tree, y: Tree) {
    && x.List? && y.List?
    && IsNamedList(x.items) && IsNamedList(y.items)
    && ControlSays(y.items, Leaf(BoolV(true)))
  }

  /** The strategy the list asks for: what its first control item says, none meaning overwrite. */
  ghost predicate Strategy(key: string, items: seq<Tree>, r: Result<bool, MergeError>) {
    && ((forall i :: 0 <= i < |items| ==> !HasAttr(items[i], MARKER)) ==> r == Success(false))
    && forall j: nat :: FirstControl(items, j) ==>
         match items[j].vals[MARKER]
         case Leaf(BoolV(b)) => r == Success(b)
         case _ => r == Failure(MarkerNotBoolean(key))
  }

  lemma {:induction false} FlagAt(key: string, items: seq<Tree>, j: nat)
    requires FirstControl(items, j)
    ensures MergeFlag(key, items) ==
            match items[j].vals[MARKER]
            case Leaf(BoolV(b)) => Success(b)
            case _ => Failure(MarkerNotBoolean(key))
  {
    if j != 0 {
      assert FirstControl(items[1..], j - 1);
      FlagAt(key, items[1..], j - 1);
    }
  }

  lemma FlagRead(key: string, items: seq<Tree>)
    ensures Strategy(key, items, MergeFlag(key, items))
  {
    if forall i :: 0 <= i < |items| ==> !HasAttr(items[i], MARKER) {
      NoMarkerNoFlag(key, items);
    }
    forall j: nat | FirstControl(items, j)
      ensures MergeFlag(key, items) ==
              match items[j].vals[MARKER]
              case Leaf(BoolV(b)) => Success(b)
              case _ => Failure(MarkerNotBoolean(key))
    {
      FlagAt(key, items, j);
    }
  }

  /** The flag is true only if a control item says so. */
  lemma {:induction false} FlagFrom(key: string, items: seq<Tree>)
    ensures MergeFlag(key, items) == Success(true) <==> ControlSays(items, Leaf(BoolV(true)))
    ensures MergeFlag(key, items) == Success(false) <==>
              ControlSays(items, Leaf(BoolV(false))) || forall i :: 0 <= i < |items| ==> !HasAttr(items[i], MARKER)
  {
    if exists i :: 0 <= i < |items| && HasAttr(items[i], MARKER) {
      var j := FirstControlOf(items);
      FlagAt(key, items, j);
    } else {
      NoMarkerNoFlag(key, items);
    }
  }

  lemma {:induction false} FirstControlOf(items: seq<Tree>) returns (j: nat)
    requires exists i :: 0 <= i < |items| && HasAttr(items[i], MARKER)
    ensures FirstControl(items, j)
  {
    j := 0;
    while !HasAttr(items[j], MARKER)
      invariant j < |items| && forall i :: 0 <= i < j ==> !HasAttr(items[i], MARKER)
      decreases |items| - j
    {
      j := j + 1;
    }
  }

  /** Same length, and the same name or lack of one at every position. */
  ghost predicate SameNames(a: seq<Tree>, b: seq<Tree>) {
    && |a| == |b|
    && forall i :: 0 <= i < |a| ==>
         && (HasAttr(a[i], NAME) <==> HasAttr(b[i], NAME))
         && (HasAttr(a[i], NAME) ==> NameOf(a[i]) == NameOf(b[i]))
  }

  lemma {:induction false} SameNamesSameIndex(a: seq<Tree>, b: seq<Tree>, name: Tree)
    requires SameNames(a, b)
    ensures IndexOfName(a, name) == IndexOfName(b, name)
  {
    if a != [] {
      SameNamesSameIndex(a[1..], b[1..], name);
    }
  }

  lemma {:induction false} SameNamesSameList(a: seq<Tree>, b: seq<Tree>)
    requires SameNames(a, b)
    ensures Names(a) == Names(b)
  {
    if a != [] {
      SameNamesSameList(a[1..], b[1..]);
    }
  }

  lemma {:induction false} SameNamesSameNew(a: seq<Tree>, b: seq<Tree>, ext: seq<Tree>)
    requires SameNames(a, b) && IsNamedList(ext)
    ensures NewItems(ext, a) == NewItems(ext, b)
  {
    if ext != [] {
      SameNamesSameNew(a, b, ext[..|ext| - 1]);
      var item := ext[|ext| - 1];
      if !HasAttr(item, MARKER) {
        SameNamesSameIndex(a, b, NameOf(item));
      }
    }
  }

  lemma {:induction false} NamesAppend(a: seq<Tree>, b: seq<Tree>)
    ensures Names(a + b) == Names(a) + Names(b)
  {
    if a == [] {
      assert a + b == b;
    } else {
      assert (a + b)[1..] == a[1..] + b;
      NamesAppend(a[1..], b);
    }
  }

  lemma {:induction false} NewNamesAppend(a: seq<Tree>, b: seq<Tree>, items: seq<Tree>)
    ensures NewNames(a + b, items) == NewNames(a, items) + NewNames(b, items)
  {
    if a == [] {
      assert a + b == b;
    } else {
      assert (a + b)[1..] == a[1..] + b;
      NewNamesAppend(a[1..], b, items);
    }
  }

  lemma {:induction false} NamesOfNewItems(ext: seq<Tree>, base: seq<Tree>)
    requires IsNamedList(ext)
    requires forall i :: 0 <= i < |ext| && HasAttr(ext[i], MARKER) ==> !HasAttr(ext[i], NAME)
    ensures Names(NewItems(ext, base)) == NewNames(Names(ext), base)
  {
    if ext != [] {
      var front, item := ext[..|ext| - 1], ext[|ext| - 1];
      NamesOfNewItems(front, base);
      assert ext == front + [item];
      NamesAppend(front, [item]);
      NewNamesAppend(Names(front), Names([item]), base);
      NamesAppend(NewItems(front, base), [item]);
      assert Names([item]) == if HasAttr(item, NAME) then [NameOf(item)] else [];
    }
  }

  /** Merging two items of the same scalar name keeps the name. */
  lemma NameSurvives(item: Tree, ext: Tree)
    requires HasAttr(item, NAME) && HasAttr(ext, NAME) && WellFormed(ext)
    requires NameOf(item) == NameOf(ext) && NameOf(item).Leaf?
    requires MergeObj(item, ext).Success?
    ensures HasAttr(MergeObj(item, ext).value, NAME)
    ensures NameOf(MergeObj(item, ext).value) == NameOf(item)
  {
    ObjCharacterised(item, ext);
    assert MergeObj(item, ext).value.vals[NAME] == FieldOf(item, ext, NAME);
  }

  /** What the first loop leaves in the place of every base item. */
  ghost function MatchedItems(base: seq<Tree>, ext: Tree): (m: seq<Tree>)
    requires ext.List? && WellFormed(ext)
    requires forall i :: 0 <= i < |base| ==> ItemOk(base[i], ext)
    ensures |m| == |base|
    ensures forall i :: 0 <= i < |m| ==> m[i] == ItemOf(base[i], ext)
  {
    seq(|base|, i requires 0 <= i < |base| && ItemOk(base[i], ext) => ItemOf(base[i], ext))
  }

  /** What the two loops produce, as one expression. */
  lemma ByNameShape(key: string, x: Tree, y: Tree)
    requires MergesByName(x, y) && WellFormed(y)
    requires NamesScalar(x) && NamesScalar(y)
    requires MergeList(key, x, y).Success?
    ensures UniqueNames(x.items) && UniqueNames(y.items)
    ensures forall i :: 0 <= i < |x.items| ==> ItemOk(x.items[i], y)
    ensures SameNames(MatchedItems(x.items, y), x.items)
    ensures MergeList(key, x, y).value == List(MatchedItems(x.items, y) + NewItems(y.items, x.items))
  {
    var n := |x.items|;
    FlagFrom(key, y.items);
    MatchedCharacterised(x.items, y, n);
    var m := MergeMatched(x.items, y, n).value;
    forall i | 0 <= i < n
      ensures (HasAttr(m[i], NAME) <==> HasAttr(x.items[i], NAME))
      ensures HasAttr(m[i], NAME) ==> NameOf(m[i]) == NameOf(x.items[i])
    {
      ByNameItem(x.items[i], y);
    }
    assert SameNames(m, x.items);
    assert AnyNamed(y.items) ==> AllNamed(m);
    AppendCharacterised(m, y.items, |y.items|);
    assert y.items[..|y.items|] == y.items;
    SameNamesSameNew(m, x.items, y.items);
    assert m == MatchedItems(x.items, y);
  }

  lemma ByNameItem(item: Tree, ext: Tree)
    requires ext.List? && WellFormed(ext) && ItemOk(item, ext)
    requires HasAttr(item, NAME) ==> NameOf(item).Leaf?
    ensures HasAttr(ItemOf(item, ext), NAME) <==> HasAttr(item, NAME)
    ensures HasAttr(item, NAME) ==> NameOf(ItemOf(item, ext)) == NameOf(item)
  {
    if AnyNamed(ext.items) {
      var at := IndexOfName(ext.items, NameOf(item));
      if at.Some? {
        assert ext.items[at.value] in ext.items;
        NameSurvives(item, ext.items[at.value]);
      }
    }
  }

  /** The item a name has after the merge: both merged, or the only one there is. */
  ghost function Combined(x: Option<Tree>, y: Option<Tree>): (r: Option<Merged>)
    requires y.Some? && x.Some? ==> x.value.Obj? && y.value.Obj? && WellFormed(y.value)
  {
    if x.None? && y.None? then None
    else if y.None? then Some(Success(x.value))
    else if x.None? then Some(Success(y.value))
    else Some(MergeObj(x.value, y.value))
  }

  /**
   * With `_merge: true` the result lists the base names in order, then the extension's
   * new names in order, all distinct, and under each name sits the merge of the two items
   * of that name or the only one.
   */
  lemma MergedByName(key: string, x: Tree, y: Tree)
    requires MergesByName(x, y) && WellFormed(y)
    requires NamesScalar(x) && NamesScalar(y)
    requires MergeList(key, x, y).Success?
    ensures var r := MergeList(key, x, y).value.items;
            && Names(r) == Names(x.items) + NewNames(Names(y.items), x.items)
            && UniqueNames(r)
            && forall name :: NamedItemIs(r, x, y, name)
  {
    ByNameShape(key, x, y);
    var m := MatchedItems(x.items, y);
    var added := NewItems(y.items, x.items);
    var r := m + added;
    NamesAppend(m, added);
    SameNamesSameList(m, x.items);
    NamesOfNewItems(y.items, x.items);
    forall name ensures NamedItemIs(r, x, y, name) {
      NamedItem(key, x, y, name);
    }
    AppendUnique(m, y.items, x.items);
  }

  ghost predicate NamedItemIs(r: seq<Tree>, x: Tree, y: Tree, name: Tree)
    requires x.List? && y.List? && WellFormed(y)
  {
    var fx, fy := Find(x.items, name), Find(y.items, name);
    var c := Combined(fx, fy);
    if c.None? then Find(r, name).None?
    else c.value.Success? && Find(r, name) == Some(c.value.value)
  }

  lemma NamedItem(key: string, x: Tree, y: Tree, name: Tree)
    requires MergesByName(x, y) && WellFormed(y)
    requires NamesScalar(x) && NamesScalar(y)
    requires MergeList(key, x, y).Success?
    ensures NamedItemIs(MergeList(key, x, y).value.items, x, y, name)
  {
    hide MergeList, ControlSays, WellFormed, IndexOfName;
    ByNameShape(key, x, y);
    var m := MatchedItems(x.items, y);
    var added := NewItems(y.items, x.items);
    IndexInAppend(m, added, name);
    SameNamesSameIndex(m, x.items, name);
    var fx := IndexOfName(x.items, name);
    if fx.Some? {
      assert ItemOk(x.items[fx.value], y);
    } else {
      AddedFound(y.items, x.items, name);
    }
  }

  /** A name new to the base is found among the added items exactly where the extension has it. */
  lemma {:induction false} AddedFound(ext: seq<Tree>, base: seq<Tree>, name: Tree)
    requires IsNamedList(ext) && UniqueNames(ext)
    requires forall i :: 0 <= i < |ext| && HasAttr(ext[i], MARKER) ==> !HasAttr(ext[i], NAME)
    requires IndexOfName(base, name).None?
    ensures Find(NewItems(ext, base), name) == Find(ext, name)
  {
    if ext != [] {
      var front, item := ext[..|ext| - 1], ext[|ext| - 1];
      AddedFound(front, base, name);
      assert ext == front + [item];
      IndexInAppend(front, [item], name);
      IndexInAppend(NewItems(front, base), [item], name);
    }
  }

  lemma {:induction false} AppendUnique(m: seq<Tree>, ext: seq<Tree>, base: seq<Tree>)
    requires SameNames(m, base) && UniqueNames(base) && UniqueNames(ext) && IsNamedList(ext)
    ensures UniqueNames(m + NewItems(ext, base))
  {
    if ext == [] {
      assert m + NewItems(ext, base) == m;
    } else {
      var front, item := ext[..|ext| - 1], ext[|ext| - 1];
      AppendUnique(m, front, base);
      var rest := NewItems(front, base);
      NewItemsMembers(front, base);
      assert m + (rest + [item]) == m + rest + [item];
      if !HasAttr(item, MARKER) {
        SameNamesSameIndex(m, base, NameOf(item));
        assert ext == front + [item];
        assert forall i :: 0 <= i < |rest| ==> rest[i] in rest;
      }
    }
  }
}
