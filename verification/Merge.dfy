/** The deep merge of two documents, as a function on values. */
module Merge {
  import opened Results
  import opened Trees

  datatype MergeError =
    | TypeMismatch(key: string)
    | DuplicateNames(key: string, definition: string)
    | MarkerNotBoolean(key: string)
    | MissingName

  type Merged = Result<Tree, MergeError>

  function MergeObj(base: Tree, ext: Tree): (r: Merged)
    requires base.Obj? && ext.Obj? && WellFormed(ext)
    ensures r.Success? ==> r.value.Obj?
    decreases ext, 2, 0
  {
    MergeFields(base, ext, |ext.keys|)
  }

  /** The object after the first `n` keys of the extension have been processed. */
  function MergeFields(base: Tree, ext: Tree, n: nat): (r: Merged)
    requires base.Obj? && ext.Obj? && WellFormed(ext) && n <= |ext.keys|
    ensures r.Success? ==> r.value.Obj?
    decreases ext, 1, n
  {
    if n == 0 then Success(base)
    else
      var done :- MergeFields(base, ext, n - 1);
      var key := ext.keys[n - 1];
      assert key in ext.keys;
      MergeField(done, key, ext.vals[key])
  }

  /** One round of the loop over the extension's keys. */
  function MergeField(done: Tree, key: string, value: Tree): (r: Merged)
    requires done.Obj? && WellFormed(value)
    ensures r.Success? ==> r.value.Obj?
    decreases value, 4, 0
  {
    if key in done.vals then
      var merged :- MergeValue(key, done.vals[key], value);
      Success(Put(done, key, merged))
    else
      Success(Put(done, key, value))
  }

  /** What is stored under `key` when both documents have it. */
  function MergeValue(key: string, x: Tree, y: Tree): (r: Merged)
    requires WellFormed(y)
    decreases y, 3, 0
  {
    if x.Obj? && y.Obj? then MergeObj(x, y)
    else if x.List? && y.List? then MergeList(key, x, y)
    else if x.Leaf? && y.Leaf? && SameType(x.scalar, y.scalar) then Success(y)
    else Failure(TypeMismatch(key))
  }

  /** The first control item decides; none means overwrite. */
  function MergeFlag(key: string, ext: seq<Tree>): Result<bool, MergeError> {
    if ext == [] then Success(false)
    else if HasAttr(ext[0], MARKER) then
      match ext[0].vals[MARKER]
      case Leaf(BoolV(b)) => Success(b)
      case _ => Failure(MarkerNotBoolean(key))
    else MergeFlag(key, ext[1..])
  }

  function MergeList(key: string, base: Tree, ext: Tree): (r: Merged)
    requires base.List? && ext.List? && WellFormed(ext)
    ensures r.Success? ==> r.value.List?
    decreases ext, 2, 0
  {
    if IsNamedList(base.items) && IsNamedList(ext.items) then
      var merge :- MergeFlag(key, ext.items);
      if !UniqueNames(base.items) then Failure(DuplicateNames(key, "default"))
      else if !UniqueNames(ext.items) then Failure(DuplicateNames(key, "input"))
      else if merge then
        var matched :- MergeMatched(base.items, ext, |base.items|);
        var extended :- AppendNew(matched, ext.items, |ext.items|);
        Success(List(extended))
      else Success(List(NamedOnly(ext.items)))
    else Success(ext)
  }

  predicate AnyNamed(items: seq<Tree>) {
    exists i :: 0 <= i < |items| && HasAttr(items[i], NAME)
  }

  /**
   * First loop: the first `n` base items merged with the item of the same name.
   * The name of a base item is read only when the extension has some named item.
   */
  function MergeMatched(base: seq<Tree>, ext: Tree, n: nat): (r: Result<seq<Tree>, MergeError>)
    requires ext.List? && WellFormed(ext) && n <= |base|
    ensures r.Success? ==> |r.value| == |base|
    decreases ext, 1, n
  {
    if n == 0 then Success(base)
    else
      var done :- MergeMatched(base, ext, n - 1);
      var merged :- MergeItem(base[n - 1], ext);
      Success(done[n - 1 := merged])
  }

  /** One round of the first loop: a base item and its namesake, if there is one. */
  function MergeItem(item: Tree, ext: Tree): Merged
    requires ext.List? && WellFormed(ext)
    decreases ext, 0, 0
  {
    if !AnyNamed(ext.items) then Success(item)
    else if !HasAttr(item, NAME) then Failure(MissingName)
    else
      match IndexOfName(ext.items, NameOf(item))
      case None => Success(item)
      case Some(j) =>
        assert ext.items[j] in ext.items;
        MergeObj(item, ext.items[j])
  }

  /** Second loop: the first `n` extension items appended unless their name is taken. */
  function AppendNew(base: seq<Tree>, ext: seq<Tree>, n: nat): Result<seq<Tree>, MergeError>
    requires IsNamedList(ext) && n <= |ext|
    decreases n
  {
    if n == 0 then Success(base)
    else
      var done :- AppendNew(base, ext, n - 1);
      AppendItem(done, ext[n - 1])
  }

  /** One round of the second loop. */
  function AppendItem(done: seq<Tree>, item: Tree): Result<seq<Tree>, MergeError>
    requires HasAttr(item, NAME) || HasAttr(item, MARKER)
  {
    if HasAttr(item, MARKER) then Success(done)
    else if exists i :: 0 <= i < |done| && !HasAttr(done[i], NAME) then Failure(MissingName)
    else if IndexOfName(done, NameOf(item)).Some? then Success(done)
    else Success(done + [item])
  }
}
