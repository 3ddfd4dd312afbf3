/** Merging the same document twice changes nothing the second time. */
module Absorption {
  import opened Results
  import opened Trees
  import opened Merge
  import opened MergeFacts
  import opened MergeLaws
  import opened NamedLists

  predicate HoldsMarker(items: seq<Tree>) {
    exists i :: 0 <= i < |items| && HasAttr(items[i], MARKER)
  }

  /**
   * Every list of `y` that holds a control item meets a named list of `x` at the same path; what the control
   * items themselves hold does not matter.
   */
  ghost predicate MarkersMeet(x: Tree, y: Tree)
    decreases y
  {
    if x.Obj? && y.Obj? then
      forall k :: k in y.vals ==>
        if k in x.vals then MarkersMeet(x.vals[k], y.vals[k]) else MarkerFree(y.vals[k])
    else if x.List? && y.List? && HoldsMarker(y.items) then
      && IsNamedList(x.items) && IsNamedList(y.items)
      && forall j :: 0 <= j < |y.items| && !HasAttr(y.items[j], MARKER) ==>
           if MergesByName(x, y) && HasAttr(y.items[j], NAME) && Find(x.items, NameOf(y.items[j])).Some?
           then MarkersMeet(Find(x.items, NameOf(y.items[j])).value, y.items[j])
           else MarkerFree(y.items[j])
    else MarkerFree(y)
  }

  /** The documents the absorption law is about. */
  ghost predicate Layered(x: Tree, y: Tree) {
    && WellFormed(x) && WellFormed(y)
    && NamesUnique(x) && NamesUnique(y)
    && NamesScalar(x) && NamesScalar(y)
    && MarkerFree(x) && MarkersMeet(x, y)
  }

  /** The merge of `x` and `y` holds no control item and absorbs a second `y`. */
  ghost predicate Absorbs(key: string, x: Tree, y: Tree)
    requires WellFormed(y)
  {
    var r := MergeValue(key, x, y);
    r.Success? ==> MarkerFree(r.value) && MergeValue(key, r.value, y) == r
  }

  /** A plain document merged with itself is itself. */
  lemma {:induction false} SelfMerge(key: string, t: Tree)
    requires Plain(t)
    ensures MergeValue(key, t, t) == Success(t)
    decreases t
  {
    match t
    case Leaf(_) =>
    case List(_) => PlainListReplaces(key, t, t);
    case Obj(keys, vals) =>
      forall k | k in vals ensures MergeValue(k, vals[k], vals[k]) == Success(vals[k]) {
        SelfMerge(k, vals[k]);
      }
      Unchanged(t, t);
  }

  /** An object no field of which an extension changes, and which has all its keys, stays the same. */
  lemma {:induction false} Unchanged(r: Tree, ext: Tree)
    requires r.Obj? && ext.Obj? && WellFormed(ext)
    requires forall k :: k in ext.vals ==> k in r.vals && MergeValue(k, r.vals[k], ext.vals[k]) == Success(r.vals[k])
    ensures MergeObj(r, ext) == Success(r)
  {
    ObjCharacterised(r, ext);
    NewKeysNone(ext.keys, r.vals);
    assert forall k :: !Clash(r, ext, k);
    SameObject(MergeObj(r, ext).value, r);
  }

  lemma {:induction false} ValueAbsorbs(key: string, x: Tree, y: Tree)
    requires Layered(x, y)
    ensures Absorbs(key, x, y)
    decreases y, 2
  {
    if MergeValue(key, x, y).Success? {
      if x.Obj? && y.Obj? {
        ObjAbsorbs(key, x, y);
      } else if x.List? && y.List? {
        ListAbsorbs(key, x, y);
      }
    }
  }

  lemma {:induction false} ObjAbsorbs(key: string, x: Tree, y: Tree)
    requires x.Obj? && y.Obj? && Layered(x, y) && MergeObj(x, y).Success?
    ensures Absorbs(key, x, y)
    decreases y, 1
  {
    ObjCharacterised(x, y);
    var r := MergeObj(x, y).value;
    forall k | k in r.vals
      ensures MarkerFree(r.vals[k])
      ensures k in y.vals ==> MergeValue(k, r.vals[k], y.vals[k]) == Success(r.vals[k])
    {
      assert r.vals[k] == FieldOf(x, y, k);
      if k in y.vals {
        if k in x.vals {
          assert !Clash(x, y, k);
          ValueAbsorbs(k, x.vals[k], y.vals[k]);
        } else {
          SelfMerge(k, y.vals[k]);
        }
      }
    }
    Unchanged(r, y);
  }

  lemma {:induction false} ListAbsorbs(key: string, x: Tree, y: Tree)
    requires x.List? && y.List? && Layered(x, y) && MergeList(key, x, y).Success?
    ensures Absorbs(key, x, y)
    decreases y, 1
  {
    if !HoldsMarker(y.items) {
      PlainListReplaces(key, x, y);
      PlainListReplaces(key, y, y);
    } else if MergesByName(x, y) {
      ByNameAbsorbs(key, x, y);
    } else {
      FlagFrom(key, y.items);
      var r := NamedOnly(y.items);
      assert MergeList(key, x, y).value == List(r);
      NamedOnlyUnique(y.items);
      forall i | 0 <= i < |r| ensures MarkerFree(r[i]) && !HasAttr(r[i], MARKER) {
        assert r[i] in y.items;
      }
    }
  }

  lemma {:induction false} NamedOnlyUnique(items: seq<Tree>)
    requires UniqueNames(items)
    ensures UniqueNames(NamedOnly(items))
  {
    if items != [] {
      NamedOnlyUnique(items[1..]);
      var rest := NamedOnly(items[1..]);
      assert forall i :: 0 <= i < |rest| ==> rest[i] in items[1..];
    }
  }

  lemma {:induction false} ByNameAbsorbs(key: string, x: Tree, y: Tree)
    requires MergesByName(x, y) && HoldsMarker(y.items)
    requires Layered(x, y) && MergeList(key, x, y).Success?
    ensures Absorbs(key, x, y)
    decreases y, 0, 1
  {
    var r := MergeList(key, x, y).value;
    MergedByName(key, x, y);
    ByNameShape(key, x, y);
    forall i | 0 <= i < |r.items|
      ensures HasAttr(r.items[i], NAME) && !HasAttr(r.items[i], MARKER) && MarkerFree(r.items[i])
      ensures ItemOk(r.items[i], y) && ItemOf(r.items[i], y) == r.items[i]
    {
      if i < |x.items| {
        OldItemAbsorbs(key, x, y, i);
      } else {
        AddedItemAbsorbs(key, x, y, r.items[i]);
      }
    }
    forall j | 0 <= j < |y.items| && HasAttr(y.items[j], NAME)
      ensures IndexOfName(r.items, NameOf(y.items[j])).Some?
    {
      NamedItem(key, x, y, NameOf(y.items[j]));
    }
    SecondRound(key, r, y);
  }

  /** A base item after the first merge: its match, if any, changes it no further. */
  lemma {:induction false} OldItemAbsorbs(key: string, x: Tree, y: Tree, i: nat)
    requires MergesByName(x, y) && HoldsMarker(y.items)
    requires Layered(x, y) && i < |x.items| && ItemOk(x.items[i], y)
    requires UniqueNames(x.items) && UniqueNames(y.items)
    ensures var t := ItemOf(x.items[i], y);
            && HasAttr(t, NAME) && !HasAttr(t, MARKER) && MarkerFree(t)
            && ItemOk(t, y) && ItemOf(t, y) == t
    decreases y, 0, 0
  {
    var item := x.items[i];
    assert HasAttr(item, NAME);
    ByNameItem(item, y);
    var at := IndexOfName(y.items, NameOf(item));
    if AnyNamed(y.items) && at.Some? {
      var e := y.items[at.value];
      assert e in y.items;
      IndexOfNameIsUnique(x.items, i);
      assert Find(x.items, NameOf(e)) == Some(item);
      ValueAbsorbs(key, item, e);
      MergedKeys(item, e);
    }
  }

  /** An item the extension added meets itself, and is left alone. */
  lemma {:induction false} AddedItemAbsorbs(key: string, x: Tree, y: Tree, t: Tree)
    requires MergesByName(x, y) && HoldsMarker(y.items)
    requires Layered(x, y) && UniqueNames(y.items)
    requires t in NewItems(y.items, x.items)
    ensures HasAttr(t, NAME) && !HasAttr(t, MARKER) && MarkerFree(t)
    ensures ItemOk(t, y) && ItemOf(t, y) == t
  {
    NewItemsMembers(y.items, x.items);
    var j :| 0 <= j < |y.items| && y.items[j] == t;
    IndexOfNameIsUnique(y.items, j);
    SelfMerge(key, t);
  }

  /** When the extension changes no item and has no new name, a merge by name is the identity. */
  lemma {:induction false} SecondRound(key: string, r: Tree, y: Tree)
    requires MergesByName(r, y) && WellFormed(y) && NamesScalar(y)
    requires UniqueNames(r.items) && UniqueNames(y.items) && AllNamed(r.items)
    requires forall i :: 0 <= i < |r.items| ==> ItemOk(r.items[i], y) && ItemOf(r.items[i], y) == r.items[i]
    requires forall j :: 0 <= j < |y.items| && HasAttr(y.items[j], NAME) ==>
        IndexOfName(r.items, NameOf(y.items[j])).Some?
    ensures MergeList(key, r, y) == Success(r)
  {
    var n := |r.items|;
    FlagFrom(key, y.items);
    MatchedCharacterised(r.items, y, n);
    assert MergeMatched(r.items, y, n).value == r.items;
    AppendCharacterised(r.items, y.items, |y.items|);
    assert y.items[..|y.items|] == y.items;
    NothingNew(y.items, r.items);
    assert r.items + [] == r.items;
  }

  lemma {:induction false} NothingNew(ext: seq<Tree>, base: seq<Tree>)
    requires IsNamedList(ext)
    requires forall j :: 0 <= j < |ext| && HasAttr(ext[j], NAME) ==> IndexOfName(base, NameOf(ext[j])).Some?
    ensures NewItems(ext, base) == []
  {
    if ext != [] {
      NothingNew(ext[..|ext| - 1], base);
      assert HasAttr(ext[|ext| - 1], MARKER) || HasAttr(ext[|ext| - 1], NAME);
    }
  }

  /**
   * Absorption: merging `b` once more into the merge of `a` and `b` changes nothing, and that
   * merge holds no control item.
   */
  lemma MergeAbsorbs(a: Tree, b: Tree)
    requires a.Obj? && b.Obj? && Layered(a, b)
    requires MergeObj(a, b).Success?
    ensures MarkerFree(MergeObj(a, b).value)
    ensures MergeObj(MergeObj(a, b).value, b) == MergeObj(a, b)
  {
    ValueAbsorbs("", a, b);
  }

  // ---------- exactly when no control item is left ----------

  lemma {:induction false} ListWithoutMarkers(key: string, x: Tree, y: Tree)
    requires x.List? && y.List? && WellFormed(y) && !HoldsMarker(y.items) && MergeList(key, x, y).Success?
    ensures MergeList(key, x, y) == Success(y)
  {
    assert forall i :: 0 <= i < |y.items| ==> !HasAttr(y.items[i], MARKER);
    NoMarkerNoFlag(key, y.items);
    if IsNamedList(y.items) {
      NoMarkerKeepsNamed(y.items);
    }
  }

  lemma MemberMarked(items: seq<Tree>, t: Tree)
    requires t in items && (HasAttr(t, MARKER) || !MarkerFree(t))
    ensures !MarkerFree(List(items))
  {
    var i :| 0 <= i < |items| && items[i] == t;
  }

  lemma {:induction false} NamedOnlyKeeps(items: seq<Tree>, j: nat)
    requires j < |items| && HasAttr(items[j], NAME)
    ensures items[j] in NamedOnly(items)
  {
    if j != 0 {
      NamedOnlyKeeps(items[1..], j - 1);
    }
  }

  /** An item of the extension that no base item takes in is in the result as it is. */
  lemma UnmatchedStays(key: string, x: Tree, y: Tree, j: nat)
    requires x.List? && y.List? && WellFormed(y) && NamesScalar(x) && NamesScalar(y)
    requires IsNamedList(x.items) && IsNamedList(y.items) && MergeList(key, x, y).Success?
    requires j < |y.items| && HasAttr(y.items[j], NAME)
    requires MergesByName(x, y) ==> Find(x.items, NameOf(y.items[j])).None?
    ensures y.items[j] in MergeList(key, x, y).value.items
  {
    if MergesByName(x, y) {
      NamedItem(key, x, y, NameOf(y.items[j]));
      ByNameShape(key, x, y);
      IndexOfNameIsUnique(y.items, j);
    } else {
      FlagFrom(key, y.items);
      NamedOnlyKeeps(y.items, j);
    }
  }

  /** The merge holds no control item exactly when those of the extension meet named lists of the base. */
  lemma {:induction false} MarkerFreeExactly(key: string, x: Tree, y: Tree)
    requires WellFormed(x) && WellFormed(y) && NamesUnique(x) && NamesUnique(y) && NamesScalar(x) && NamesScalar(y)
    requires MarkerFree(x) && MergeValue(key, x, y).Success?
    ensures MarkerFree(MergeValue(key, x, y).value) <==> MarkersMeet(x, y)
    decreases y
  {
    if MarkersMeet(x, y) {
      ValueAbsorbs(key, x, y);
    } else if x.Obj? && y.Obj? {
      ObjCharacterised(x, y);
      var r := MergeObj(x, y).value;
      var k :| k in y.vals && !if k in x.vals then MarkersMeet(x.vals[k], y.vals[k]) else MarkerFree(y.vals[k]);
      assert r.vals[k] == FieldOf(x, y, k);
      if k in x.vals {
        assert !Clash(x, y, k);
        MarkerFreeExactly(k, x.vals[k], y.vals[k]);
      }
    } else if x.List? && y.List? {
      if !HoldsMarker(y.items) {
        ListWithoutMarkers(key, x, y);
      } else if IsNamedList(x.items) && IsNamedList(y.items) {
        var j :| 0 <= j < |y.items| && !HasAttr(y.items[j], MARKER) && !MeetsAt(x, y, j);
        MarkedItemStays(key, x, y, j);
      } else {
        var i :| 0 <= i < |y.items| && HasAttr(y.items[i], MARKER);
        MemberMarked(y.items, y.items[i]);
      }
    }
  }

  /** The condition on one item of a list with a control item. */
  ghost predicate MeetsAt(x: Tree, y: Tree, j: nat)
    requires x.List? && y.List? && j < |y.items|
  {
    if MergesByName(x, y) && HasAttr(y.items[j], NAME) && Find(x.items, NameOf(y.items[j])).Some?
    then MarkersMeet(Find(x.items, NameOf(y.items[j])).value, y.items[j])
    else MarkerFree(y.items[j])
  }

  lemma {:induction false} MarkedItemStays(key: string, x: Tree, y: Tree, j: nat)
    requires x.List? && y.List? && IsNamedList(x.items) && IsNamedList(y.items)
    requires WellFormed(x) && WellFormed(y) && NamesUnique(x) && NamesUnique(y) && NamesScalar(x) && NamesScalar(y)
    requires MarkerFree(x) && MergeList(key, x, y).Success?
    requires j < |y.items| && !HasAttr(y.items[j], MARKER) && !MeetsAt(x, y, j)
    ensures !MarkerFree(MergeList(key, x, y).value)
    decreases y, 0
  {
    var r, e := MergeList(key, x, y).value, y.items[j];
    assert HasAttr(e, NAME);
    if MergesByName(x, y) && Find(x.items, NameOf(e)).Some? {
      NamedItem(key, x, y, NameOf(e));
      ByNameShape(key, x, y);
      IndexOfNameIsUnique(y.items, j);
      var b := Find(x.items, NameOf(e)).value;
      assert e in y.items && b in x.items;
      MarkerFreeExactly(key, b, e);
      var t := Find(r.items, NameOf(e)).value;
      MemberMarked(r.items, t);
    } else {
      UnmatchedStays(key, x, y, j);
      MemberMarked(r.items, e);
    }
  }

  /**
   * A list with `_merge: true` that meets no list of the base is taken over with its control item,
   * which has no name: the merge is not free of control items, and a second merge fails.
   */
  lemma {:induction false} UnmetMarkerBreaks(a: Tree, b: Tree, key: string)
    requires a.Obj? && b.Obj? && WellFormed(a) && WellFormed(b) && NamesScalar(b) && MergeObj(a, b).Success?
    requires key in b.vals && key !in a.vals && b.vals[key].List?
    requires IsNamedList(b.vals[key].items) && ControlSays(b.vals[key].items, Leaf(BoolV(true)))
        && AnyNamed(b.vals[key].items)
    ensures !MarkerFree(MergeObj(a, b).value)
    ensures MergeObj(MergeObj(a, b).value, b).Failure?
  {
    var r, list := MergeObj(a, b).value, b.vals[key];
    ObjCharacterised(a, b);
    assert r.vals[key] == FieldOf(a, b, key) == list;
    FlagFrom(key, list.items);
    var i: nat :| FirstControl(list.items, i);
    if MergeList(key, list, list).Success? {
      MatchedCharacterised(list.items, list, |list.items|);
      assert !ItemOk(list.items[i], list);
    }
    assert Clash(r, b, key);
    ObjCharacterised(r, b);
  }
}
