/** Which of two merged documents a path of keys and item names reads from. */
module Lookup {
  import opened Results
  import opened Trees
  import opened Merge
  import opened MergeFacts
  import opened NamedLists

  datatype Step = Key(key: string) | Item(name: Tree)

  /** The child of `t` one step down. */
  function Child(t: Tree, step: Step): Option<Tree> {
    match step
    case Key(k) => if t.Obj? && k in t.vals then Some(t.vals[k]) else None
    case Item(n) => if t.List? then Find(t.items, n) else None
  }

  /** The value at a path. */
  function At(t: Tree, path: seq<Step>): Option<Tree> {
    if path == [] then Some(t)
    else
      match Child(t, path[0])
      case None => None
      case Some(c) => At(c, path[1..])
  }

  datatype Source = Base | Extension

  /**
   * Where the merge of `x` and `y` takes the value at `path` from, read off the two inputs:
   * walk down while both have the step and the pair merges further; the first step only one
   * of them has belongs to that one, and anything below a replaced value to the extension.
   */
  ghost function SourceOf(x: Tree, y: Tree, path: seq<Step>): Source
    decreases |path|
  {
    if path == [] || !((x.Obj? && y.Obj?) || MergesByName(x, y)) then Extension
    else
      var cx, cy := Child(x, path[0]), Child(y, path[0]);
      if cy.None? then Base
      else if cx.None? then Extension
      else SourceOf(cx.value, cy.value, path[1..])
  }

  /** The scalar at a path, if there is one there. */
  function ScalarAt(t: Tree, path: seq<Step>): Option<Scalar> {
    var v := At(t, path);
    if v.Some? && v.value.Leaf? then Some(v.value.scalar) else None
  }

  /**
   * Lookup law: at every path the merge holds exactly the scalar of the document
   * that SourceOf names.
   */
  lemma {:induction false} LookupLaw(key: string, x: Tree, y: Tree, path: seq<Step>)
    requires WellFormed(x) && WellFormed(y) && NamesScalar(x) && NamesScalar(y)
    requires MergeValue(key, x, y).Success?
    ensures ScalarAt(MergeValue(key, x, y).value, path) ==
              ScalarAt(if SourceOf(x, y, path).Base? then x else y, path)
    decreases path
  {
    var r := MergeValue(key, x, y).value;
    if path != [] {
      if x.Obj? && y.Obj? {
        ObjLookup(key, x, y, path);
      } else if x.List? && y.List? {
        if MergesByName(x, y) {
          ListLookup(key, x, y, path);
        } else if IsNamedList(x.items) && IsNamedList(y.items) {
          FlagFrom(key, y.items);
          if path[0].Item? {
            NamedOnlyFind(y.items, path[0].name);
          }
        }
      }
    }
  }

  lemma {:induction false} ObjLookup(key: string, x: Tree, y: Tree, path: seq<Step>)
    requires path != [] && x.Obj? && y.Obj?
    requires WellFormed(x) && WellFormed(y) && NamesScalar(x) && NamesScalar(y)
    requires MergeObj(x, y).Success?
    ensures ScalarAt(MergeObj(x, y).value, path) ==
              ScalarAt(if SourceOf(x, y, path).Base? then x else y, path)
    decreases path, 0
  {
    ObjCharacterised(x, y);
    var r := MergeObj(x, y).value;
    if path[0].Key? && path[0].key in r.vals {
      var k := path[0].key;
      assert r.vals[k] == FieldOf(x, y, k) && !Clash(x, y, k);
      if k in x.vals && k in y.vals {
        LookupLaw(k, x.vals[k], y.vals[k], path[1..]);
      }
    }
  }

  lemma {:induction false} ListLookup(key: string, x: Tree, y: Tree, path: seq<Step>)
    requires path != [] && MergesByName(x, y)
    requires WellFormed(x) && WellFormed(y) && NamesScalar(x) && NamesScalar(y)
    requires MergeList(key, x, y).Success?
    ensures ScalarAt(MergeList(key, x, y).value, path) ==
              ScalarAt(if SourceOf(x, y, path).Base? then x else y, path)
    decreases path, 0
  {
    if path[0].Item? {
      var n := path[0].name;
      NamedItem(key, x, y, n);
      var fx, fy := Find(x.items, n), Find(y.items, n);
      if fx.Some? && fy.Some? {
        LookupLaw(key, fx.value, fy.value, path[1..]);
      }
    }
  }

  lemma {:induction false} NamedOnlyFind(items: seq<Tree>, name: Tree)
    ensures Find(NamedOnly(items), name) == Find(items, name)
  {
    if items != [] {
      NamedOnlyFind(items[1..], name);
    }
  }

  /** A path the extension has is never read from the base. */
  lemma {:induction false} ExtensionPathsWin(x: Tree, y: Tree, path: seq<Step>)
    requires At(y, path).Some?
    ensures SourceOf(x, y, path) == Extension
    decreases path
  {
    if path != [] {
      var cx, cy := Child(x, path[0]), Child(y, path[0]);
      if cx.Some? {
        ExtensionPathsWin(cx.value, cy.value, path[1..]);
      }
    }
  }

  /** Every scalar of the extension appears in the merge at its own path. */
  lemma ExtensionScalarsAppear(key: string, x: Tree, y: Tree, path: seq<Step>)
    requires WellFormed(x) && WellFormed(y) && NamesScalar(x) && NamesScalar(y)
    requires MergeValue(key, x, y).Success?
    requires ScalarAt(y, path).Some?
    ensures ScalarAt(MergeValue(key, x, y).value, path) == ScalarAt(y, path)
  {
    ExtensionPathsWin(x, y, path);
    LookupLaw(key, x, y, path);
  }
}
