/** What a merge gives or fails with, read off the two values themselves. */
module MergeOutcome {
  import opened Results
  import opened Trees
  import opened Merge
  import opened MergeFacts
  import opened MergeLaws
  import opened NamedLists

  predicate IsBool(t: Tree) {
    t == Leaf(BoolV(true)) || t == Leaf(BoolV(false))
  }

  /** Two lists that the merge looks into: named, with unique names each. */
  predicate NamedPair(x: Tree, y: Tree) {
    && x.List? && y.List? && IsNamedList(x.items) && IsNamedList(y.items)
    && UniqueNames(x.items) && UniqueNames(y.items)
  }

  // ---------- the control item ----------

  /**
   * The first control item decides: with `false` the named items of the extension replace the list, with `true`
   * the lists merge by name, and anything else is an error.
   */
  lemma ControlItemDecides(key: string, x: Tree, y: Tree, j: nat)
    requires NamedPair(x, y) && WellFormed(y) && FirstControl(y.items, j)
    ensures var v, r := y.items[j].vals[MARKER], MergeValue(key, x, y);
            && (v == Leaf(BoolV(false)) ==> r == Success(List(NamedOnly(y.items))))
            && (MergesByName(x, y) <==> v == Leaf(BoolV(true)))
            && (!IsBool(v) ==> r == Failure(MarkerNotBoolean(key)))
  {
    FlagAt(key, y.items, j);
  }

  /** Without a control item the list is replaced. */
  lemma NoControlReplaces(key: string, x: Tree, y: Tree)
    requires NamedPair(x, y) && WellFormed(y)
    requires forall i :: 0 <= i < |y.items| ==> !HasAttr(y.items[i], MARKER)
    ensures MergeValue(key, x, y) == Success(y) && NamedOnly(y.items) == y.items
  {
    NoMarkerNoFlag(key, y.items);
    NoMarkerKeepsNamed(y.items);
  }

  /** What replaces the list: the items with a name in their order. */
  lemma {:induction false} NamedOnlyNames(items: seq<Tree>)
    ensures Names(NamedOnly(items)) == Names(items)
    ensures forall i :: 0 <= i < |items| && HasAttr(items[i], NAME) ==> items[i] in NamedOnly(items)
  {
    if items != [] {
      NamedOnlyNames(items[1..]);
      assert items == [items[0]] + items[1..];
      NamesAppend([items[0]], NamedOnly(items[1..]));
    }
  }

  /** Repeated names are an error, those of the default reported first. */
  lemma RepeatedNamesFail(key: string, x: Tree, y: Tree)
    requires x.List? && y.List? && IsNamedList(x.items) && IsNamedList(y.items) && WellFormed(y)
    requires forall j: nat :: FirstControl(y.items, j) ==> IsBool(y.items[j].vals[MARKER])
    ensures !UniqueNames(x.items) ==> MergeValue(key, x, y) == Failure(DuplicateNames(key, "default"))
    ensures UniqueNames(x.items) && !UniqueNames(y.items) ==>
              MergeValue(key, x, y) == Failure(DuplicateNames(key, "input"))
  {
    if j: nat :| FirstControl(y.items, j) {
      FlagAt(key, y.items, j);
    } else {
      if exists i :: 0 <= i < |y.items| && HasAttr(y.items[i], MARKER) {
        var j := FirstControlOf(y.items);
        assert false;
      }
      NoMarkerNoFlag(key, y.items);
    }
  }

  // ---------- exactly when a merge succeeds ----------

  predicate SameConstructor(x: Scalar, y: Scalar) {
    && (x.NullV? <==> y.NullV?) && (x.BoolV? <==> y.BoolV?) && (x.IntV? <==> y.IntV?)
    && (x.FloatV? <==> y.FloatV?)
  }

  /** Both have the same name. */
  predicate Namesakes(x: Tree, y: Tree) {
    HasAttr(x, NAME) && HasAttr(y, NAME) && NameOf(x) == NameOf(y)
  }

  /**
   * Nothing in the two documents that meets is of different types, and every two named lists that meet have
   * unique names, a boolean in their first control item and, merged by name, names throughout the base.
   */
  ghost predicate Compatible(x: Tree, y: Tree)
    decreases y
  {
    if x.Obj? && y.Obj? then
      forall k :: k in x.vals && k in y.vals ==> Compatible(x.vals[k], y.vals[k])
    else if x.List? && y.List? then
      IsNamedList(x.items) && IsNamedList(y.items) ==>
        && UniqueNames(x.items) && UniqueNames(y.items)
        && (forall j: nat :: FirstControl(y.items, j) ==> IsBool(y.items[j].vals[MARKER]))
        && (MergesByName(x, y) ==>
              && (AnyNamed(y.items) ==> AllNamed(x.items))
              && forall i, j :: 0 <= i < |x.items| && 0 <= j < |y.items| && Namesakes(x.items[i], y.items[j]) ==>
                   Compatible(x.items[i], y.items[j]))
    else x.Leaf? && y.Leaf? && SameConstructor(x.scalar, y.scalar)
  }

  /** A merge succeeds exactly when the two documents are compatible. */
  lemma {:induction false} MergesExactly(key: string, x: Tree, y: Tree)
    requires WellFormed(y)
    ensures MergeValue(key, x, y).Success? <==> Compatible(x, y)
    decreases y, 2
  {
    if x.Obj? && y.Obj? {
      ObjMergesExactly(x, y);
    } else if x.List? && y.List? {
      ListMergesExactly(key, x, y);
    }
  }

  lemma {:induction false} ObjMergesExactly(x: Tree, y: Tree)
    requires x.Obj? && y.Obj? && WellFormed(y)
    ensures MergeObj(x, y).Success? <==> Compatible(x, y)
    decreases y, 1
  {
    ObjCharacterised(x, y);
    forall k | k in x.vals && k in y.vals ensures Clash(x, y, k) <==> !Compatible(x.vals[k], y.vals[k]) {
      MergesExactly(k, x.vals[k], y.vals[k]);
    }
  }

  lemma {:induction false} ListMergesExactly(key: string, x: Tree, y: Tree)
    requires x.List? && y.List? && WellFormed(y)
    ensures MergeList(key, x, y).Success? <==> Compatible(x, y)
    decreases y, 1
  {
    if IsNamedList(x.items) && IsNamedList(y.items) {
      if MergesByName(x, y) {
        ByNameMergesExactly(key, x, y);
      } else {
        ReplacedExactly(key, x, y);
      }
    }
  }

  lemma ReplacedExactly(key: string, x: Tree, y: Tree)
    requires x.List? && y.List? && IsNamedList(x.items) && IsNamedList(y.items) && WellFormed(y)
    requires !MergesByName(x, y)
    ensures MergeList(key, x, y).Success? <==> Compatible(x, y)
  {
    hide UniqueNames, NamedOnly, MergeFlag;
    if j: nat :| FirstControl(y.items, j) {
      FlagAt(key, y.items, j);
      assert forall k: nat :: FirstControl(y.items, k) ==> k == j;
    } else {
      FlagFrom(key, y.items);
      if i :| 0 <= i < |y.items| && HasAttr(y.items[i], MARKER) {
        var j := FirstControlOf(y.items);
      }
    }
  }

  lemma {:induction false} ByNameMergesExactly(key: string, x: Tree, y: Tree)
    requires MergesByName(x, y) && WellFormed(y)
    ensures MergeList(key, x, y).Success? <==> Compatible(x, y)
    decreases y, 0, 1
  {
    hide UniqueNames;
    var n := |x.items|;
    FlagFrom(key, y.items);
    var at: nat :| FirstControl(y.items, at) && IsBool(y.items[at].vals[MARKER]);
    assert forall k: nat :: FirstControl(y.items, k) ==> k == at;
    if UniqueNames(x.items) && UniqueNames(y.items) {
      MatchedCharacterised(x.items, y, n);
      forall i | 0 <= i < n ensures ItemOk(x.items[i], y) <==> ItemCompatible(x.items[i], y) {
        ItemMergesExactly(x.items[i], y);
      }
      ItemsCompatible(x, y);
      if MergeMatched(x.items, y, n).Success? {
        MatchedKeepNames(x.items, y);
        AppendPasses(MergeMatched(x.items, y, n).value, y.items, |y.items|);
      }
    }
  }

  /** The base items one by one. */
  lemma ItemsCompatible(x: Tree, y: Tree)
    requires x.List? && y.List?
    ensures (forall i :: 0 <= i < |x.items| ==> ItemCompatible(x.items[i], y)) <==>
              && (AnyNamed(y.items) ==> AllNamed(x.items))
              && forall i, j :: 0 <= i < |x.items| && 0 <= j < |y.items| && Namesakes(x.items[i], y.items[j]) ==>
                   Compatible(x.items[i], y.items[j])
  {
    hide Compatible;
  }

  lemma MatchedKeepNames(base: seq<Tree>, ext: Tree)
    requires ext.List? && WellFormed(ext) && MergeMatched(base, ext, |base|).Success?
    ensures AnyNamed(ext.items) ==> AllNamed(MergeMatched(base, ext, |base|).value)
  {
    MatchedCharacterised(base, ext, |base|);
    if AnyNamed(ext.items) {
      forall i | 0 <= i < |base| ensures HasAttr(ItemOf(base[i], ext), NAME) {
        var at := IndexOfName(ext.items, NameOf(base[i]));
        if at.Some? {
          assert ext.items[at.value] in ext.items;
          MergedKeys(base[i], ext.items[at.value]);
        }
      }
    }
  }

  lemma {:induction false} AppendPasses(base: seq<Tree>, ext: seq<Tree>, n: nat)
    requires IsNamedList(ext) && n <= |ext| && (AnyNamed(ext) ==> AllNamed(base))
    ensures AppendNew(base, ext, n).Success?
    ensures AnyNamed(ext) ==> AllNamed(AppendNew(base, ext, n).value)
  {
    if n != 0 {
      AppendPasses(base, ext, n - 1);
    }
  }

  ghost predicate ItemCompatible(item: Tree, y: Tree)
    requires y.List?
  {
    && (AnyNamed(y.items) ==> HasAttr(item, NAME))
    && forall j :: 0 <= j < |y.items| && Namesakes(item, y.items[j]) ==> Compatible(item, y.items[j])
  }

  lemma {:induction false} ItemMergesExactly(item: Tree, y: Tree)
    requires y.List? && WellFormed(y) && UniqueNames(y.items)
    ensures ItemOk(item, y) <==> ItemCompatible(item, y)
    decreases y, 0, 0
  {
    forall j | 0 <= j < |y.items| && Namesakes(item, y.items[j])
      ensures IndexOfName(y.items, NameOf(item)) == Some(j)
      ensures MergeObj(item, y.items[j]).Success? <==> Compatible(item, y.items[j])
    {
      IndexOfNameIsUnique(y.items, j);
      assert y.items[j] in y.items;
      ObjMergesExactly(item, y.items[j]);
    }
  }

  /** A merge of two objects that fails reports the first key of the extension whose values do not merge. */
  lemma {:induction false} FirstClashReported(x: Tree, y: Tree, n: nat)
    requires x.Obj? && y.Obj? && WellFormed(y) && n < |y.keys| && Clash(x, y, y.keys[n])
    requires forall i :: 0 <= i < n ==> !Clash(x, y, y.keys[i])
    ensures var k := y.keys[n]; MergeObj(x, y) == Failure(MergeValue(k, x.vals[k], y.vals[k]).error)
  {
    FieldsCharacterised(x, y, n);
    var k := y.keys[n];
    assert k !in y.keys[..n];
    FailureStays(x, y, n + 1);
  }

  lemma {:induction false} FailureStays(x: Tree, y: Tree, n: nat)
    requires x.Obj? && y.Obj? && WellFormed(y) && n <= |y.keys| && MergeFields(x, y, n).Failure?
    ensures MergeObj(x, y) == MergeFields(x, y, n)
    decreases |y.keys| - n
  {
    if n < |y.keys| {
      FailureStays(x, y, n + 1);
    }
  }
}
