/** YAML documents as values: scalars, lists and insertion-ordered objects. */
module Trees {
  import opened Results

  datatype Scalar =
    | NullV
    | BoolV(b: bool)
    | IntV(i: int)
    | FloatV(r: real)
    | StrV(s: string)

  datatype Tree =
    | Leaf(scalar: Scalar)
    | List(items: seq<Tree>)
    | Obj(keys: seq<string>, vals: map<string, Tree>)

  const NAME := "name"
  const MARKER := "_merge"

  ghost predicate Distinct<T>(s: seq<T>) {
    forall i, j :: 0 <= i < j < |s| ==> s[i] != s[j]
  }

  /** What every Python dict guarantees: distinct keys, listed in insertion order. */
  ghost predicate WellFormed(t: Tree)
    decreases t
  {
    match t
    case Leaf(_) => true
    case List(items) => forall i :: 0 <= i < |items| ==> WellFormed(items[i])
    case Obj(keys, vals) =>
      && Distinct(keys)
      && (forall k :: k in keys <==> k in vals)
      && forall k :: k in vals ==> WellFormed(vals[k])
  }

  /** `hasattr(t, key)`: only an object answers, and only for its own keys. */
  predicate HasAttr(t: Tree, key: string) {
    t.Obj? && key in t.vals
  }

  function NameOf(t: Tree): Tree
    requires HasAttr(t, NAME)
  {
    t.vals[NAME]
  }

  /** `type(x) == type(y)` for two scalars. */
  predicate SameType(x: Scalar, y: Scalar) {
    match x
    case NullV => y.NullV?
    case BoolV(_) => y.BoolV?
    case IntV(_) => y.IntV?
    case FloatV(_) => y.FloatV?
    case StrV(_) => y.StrV?
  }

  /** `o[key] = value` on an insertion-ordered dict. */
  function Put(o: Tree, key: string, value: Tree): (r: Tree)
    requires o.Obj?
    ensures r.Obj? && r.vals == o.vals[key := value]
  {
    Obj(if key in o.vals then o.keys else o.keys + [key], o.vals[key := value])
  }

  predicate IsNamedList(items: seq<Tree>) {
    forall i :: 0 <= i < |items| ==> HasAttr(items[i], NAME) || HasAttr(items[i], MARKER)
  }

  predicate UniqueNames(items: seq<Tree>) {
    forall i, j :: 0 <= i < j < |items| && HasAttr(items[i], NAME) && HasAttr(items[j], NAME)
      ==> NameOf(items[i]) != NameOf(items[j])
  }

  /** No list anywhere in the document holds a control item. */
  ghost predicate MarkerFree(t: Tree)
    decreases t
  {
    match t
    case Leaf(_) => true
    case List(items) => forall i :: 0 <= i < |items| ==> !HasAttr(items[i], MARKER) && MarkerFree(items[i])
    case Obj(keys, vals) => forall k :: k in vals ==> MarkerFree(vals[k])
  }

  /** Every named list anywhere in the document has unique names. */
  ghost predicate NamesUnique(t: Tree)
    decreases t
  {
    match t
    case Leaf(_) => true
    case List(items) =>
      && (IsNamedList(items) ==> UniqueNames(items))
      && forall i :: 0 <= i < |items| ==> NamesUnique(items[i])
    case Obj(keys, vals) => forall k :: k in vals ==> NamesUnique(vals[k])
  }

  /** Every name of a list item is a scalar, and control items have none. */
  ghost predicate NamesScalar(t: Tree)
    decreases t
  {
    match t
    case Leaf(_) => true
    case List(items) => forall i :: 0 <= i < |items| ==>
        && (HasAttr(items[i], NAME) ==> NameOf(items[i]).Leaf? && !HasAttr(items[i], MARKER))
        && NamesScalar(items[i])
    case Obj(keys, vals) => forall k :: k in vals ==> NamesScalar(vals[k])
  }

  /** Position of the first item called `name`. */
  function IndexOfName(items: seq<Tree>, name: Tree): (r: Option<nat>)
    ensures r.Some? ==> r.value < |items| && HasAttr(items[r.value], NAME) && NameOf(items[r.value]) == name
    ensures r.None? ==> forall i :: 0 <= i < |items| && HasAttr(items[i], NAME) ==> NameOf(items[i]) != name
  {
    if items == [] then None
    else if HasAttr(items[0], NAME) && NameOf(items[0]) == name then Some(0)
    else
      match IndexOfName(items[1..], name)
      case None => None
      case Some(i) => Some(i + 1)
  }

  /** With unique names the position found is the only one. */
  lemma IndexOfNameIsUnique(items: seq<Tree>, i: nat)
    requires UniqueNames(items) && i < |items| && HasAttr(items[i], NAME)
    ensures IndexOfName(items, NameOf(items[i])) == Some(i)
  {
    var j := IndexOfName(items, NameOf(items[i]));
    assert j.Some?;
  }

  /** `[x for x in items if hasattr(x, 'name')]` */
  function NamedOnly(items: seq<Tree>): (r: seq<Tree>)
    ensures forall i :: 0 <= i < |r| ==> r[i] in items && HasAttr(r[i], NAME)
  {
    if items == [] then []
    else if HasAttr(items[0], NAME) then [items[0]] + NamedOnly(items[1..])
    else NamedOnly(items[1..])
  }
}
