/**
 * Documents as the program holds them: dicts and lists are objects that are updated in place.
 * Ghost fields record, for every object, the set of objects its subtree is made of,
 * which part of that set belongs to each child, and what each child spells.
 */
module Documents {
  import opened Results
  import opened Trees

  datatype Value = Scal(scalar: Scalar) | ListRef(list: PyList) | ObjRef(obj: ObjDict)

  /** `v` spells `t`, is made of the objects of `repr`, and shares none of them inside itself. */
  ghost predicate Holds(v: Value, repr: set<object>, t: Tree)
    reads repr
    decreases repr, 1
  {
    match v
    case Scal(s) => repr == {} && t == Leaf(s)
    case ListRef(l) => l in repr && l.Repr == repr && l.Valid() && t == List(l.trees)
    case ObjRef(o) => o in repr && o.Repr == repr && o.Valid() && t == DictOf(o.keys, o.trees)
  }

  /** No object belongs to two children. */
  ghost predicate Apart(parts: seq<set<object>>) {
    forall i, j :: 0 <= i < j < |parts| ==> parts[i] !! parts[j]
  }

  // ---------- dicts as key and value columns ----------

  function KeyIndex(keys: seq<string>, key: string): (r: nat)
    requires key in keys
    ensures r < |keys| && keys[r] == key
  {
    if keys[0] == key then 0 else KeyIndex(keys[1..], key) + 1
  }

  /** The object whose i-th key holds the i-th tree. */
  ghost function DictOf(keys: seq<string>, trees: seq<Tree>): (t: Tree)
    requires |keys| == |trees|
    ensures t.Obj? && t.keys == keys && forall k :: k in t.vals <==> k in keys
  {
    Obj(keys, map k | k in keys :: trees[KeyIndex(keys, k)])
  }

  lemma DictGet(keys: seq<string>, trees: seq<Tree>, i: nat)
    requires |keys| == |trees| && Distinct(keys) && i < |keys|
    ensures keys[i] in DictOf(keys, trees).vals && DictOf(keys, trees).vals[keys[i]] == trees[i]
  {
    assert keys[i] in keys;
  }

  lemma DictReplace(keys: seq<string>, trees: seq<Tree>, i: nat, t: Tree)
    requires |keys| == |trees| && Distinct(keys) && i < |keys|
    ensures DictOf(keys, trees[i := t]) == Put(DictOf(keys, trees), keys[i], t)
  {
    assert keys[i] in keys;
    var d, e := DictOf(keys, trees[i := t]), Put(DictOf(keys, trees), keys[i], t);
    forall k | k in keys ensures d.vals[k] == e.vals[k] {
      var j := KeyIndex(keys, k);
    }
    assert d.vals == e.vals;
  }

  lemma DictAdd(keys: seq<string>, trees: seq<Tree>, key: string, t: Tree)
    requires |keys| == |trees| && Distinct(keys) && key !in keys
    ensures Distinct(keys + [key])
    ensures DictOf(keys + [key], trees + [t]) == Put(DictOf(keys, trees), key, t)
  {
    var d, e := DictOf(keys + [key], trees + [t]), Put(DictOf(keys, trees), key, t);
    forall k | k in keys + [key] ensures k in e.vals && d.vals[k] == e.vals[k] {
      var j := KeyIndex(keys + [key], k);
      if k in keys {
        var i := KeyIndex(keys, k);
        assert (keys + [key])[i] == k;
        assert Distinct(keys + [key]);
      }
    }
    assert d.vals == e.vals;
  }

  class ObjDict {
    var keys: seq<string>
    var vals: seq<Value>
    ghost var Repr: set<object>
    ghost var parts: seq<set<object>>
    ghost var trees: seq<Tree>

    ghost predicate Valid()
      reads this, Repr
      decreases Repr, 0
    {
      && this in Repr
      && |keys| == |vals| == |parts| == |trees| && Distinct(keys)
      && (forall i :: 0 <= i < |vals| ==> parts[i] <= Repr && this !in parts[i] && Holds(vals[i], parts[i], trees[i]))
      && Apart(parts)
    }

    /** Consistent, leaving open what is stored in column `skip`. */
    ghost predicate ValidBut(skip: nat)
      reads this, Repr
    {
      && this in Repr
      && |keys| == |vals| == |parts| == |trees| && Distinct(keys)
      && (forall i :: 0 <= i < |vals| && i != skip ==>
          parts[i] <= Repr && this !in parts[i] && Holds(vals[i], parts[i], trees[i]))
      && (forall i, j :: 0 <= i < j < |parts| && i != skip && j != skip ==> parts[i] !! parts[j])
    }

    ghost function Tree(): Tree
      requires |keys| == |trees|
      reads this
    {
      DictOf(keys, trees)
    }

    /** `self[keys[s]] = v`, also used when the object stored there has just been updated in place. */
    method Replace(s: nat, v: Value, ghost repr: set<object>, ghost t: Tree)
      requires s < |vals| && ValidBut(s)
      requires Holds(v, repr, t) && this !in repr
      requires forall i :: 0 <= i < |parts| && i != s ==> parts[i] !! repr
      modifies this
      ensures Valid()
      ensures keys == old(keys) && vals == old(vals)[s := v]
      ensures parts == old(parts)[s := repr] && trees == old(trees)[s := t]
      ensures Repr == old(Repr) + repr
    {
      vals, parts, trees, Repr := vals[s := v], parts[s := repr], trees[s := t], Repr + repr;
    }

    /** `self[key] = v` for a new key. */
    method Add(key: string, v: Value, ghost repr: set<object>, ghost t: Tree)
      requires Valid() && key !in keys
      requires Holds(v, repr, t) && this !in repr
      requires forall i :: 0 <= i < |parts| ==> parts[i] !! repr
      modifies this
      ensures Valid()
      ensures keys == old(keys) + [key] && vals == old(vals) + [v]
      ensures parts == old(parts) + [repr] && trees == old(trees) + [t]
      ensures Repr == old(Repr) + repr
    {
      keys, vals := keys + [key], vals + [v];
      parts, trees, Repr := parts + [repr], trees + [t], Repr + repr;
    }

    /** `key in self`, with the column it is in. */
    method Locate(key: string) returns (found: bool, s: nat)
      requires Valid()
      ensures found <==> key in keys
      ensures found ==> s < |keys| && keys[s] == key
    {
      found, s := false, 0;
      while s < |keys|
        invariant s <= |keys| && key !in keys[..s]
      {
        if keys[s] == key {
          return true, s;
        }
        s := s + 1;
      }
    }
  }

  class PyList {
    var items: seq<Value>
    ghost var Repr: set<object>
    ghost var parts: seq<set<object>>
    ghost var trees: seq<Tree>

    ghost predicate Valid()
      reads this, Repr
      decreases Repr, 0
    {
      && this in Repr
      && |items| == |parts| == |trees|
      && (forall i :: 0 <= i < |items| ==> parts[i] <= Repr && this !in parts[i] && Holds(items[i], parts[i], trees[i]))
      && Apart(parts)
    }

    /** Consistent, leaving open what item `skip` has become. */
    ghost predicate ValidBut(skip: nat)
      reads this, Repr
    {
      && this in Repr
      && |items| == |parts| == |trees|
      && (forall i :: 0 <= i < |items| && i != skip ==>
          parts[i] <= Repr && this !in parts[i] && Holds(items[i], parts[i], trees[i]))
      && (forall i, j :: 0 <= i < j < |parts| && i != skip && j != skip ==> parts[i] !! parts[j])
    }

    constructor (items: seq<Value>, ghost Repr: set<object>, ghost parts: seq<set<object>>, ghost trees: seq<Tree>)
      requires |items| == |parts| == |trees|
      requires forall i :: 0 <= i < |items| ==> parts[i] <= Repr && Holds(items[i], parts[i], trees[i])
      requires Apart(parts)
      ensures Valid() && this.items == items && this.parts == parts && this.trees == trees
      ensures this.Repr == Repr + {this}
    {
      this.items, this.parts, this.trees := items, parts, trees;
      this.Repr := Repr + {this};
    }

    /** The bookkeeping after item `s` has been updated in place. */
    ghost method Refresh(s: nat, repr: set<object>, t: Tree)
      requires s < |items| && ValidBut(s)
      requires Holds(items[s], repr, t) && this !in repr
      requires forall i :: 0 <= i < |parts| && i != s ==> parts[i] !! repr
      modifies this`parts, this`trees, this`Repr
      ensures Valid()
      ensures parts == old(parts)[s := repr] && trees == old(trees)[s := t]
      ensures Repr == old(Repr) + repr
    {
      parts, trees, Repr := parts[s := repr], trees[s := t], Repr + repr;
    }

    method Append(v: Value, ghost repr: set<object>, ghost t: Tree)
      requires Valid()
      requires Holds(v, repr, t) && this !in repr
      requires forall i :: 0 <= i < |parts| ==> parts[i] !! repr
      modifies this
      ensures Valid()
      ensures items == old(items) + [v] && parts == old(parts) + [repr] && trees == old(trees) + [t]
      ensures Repr == old(Repr) + repr
    {
      items := items + [v];
      parts, trees, Repr := parts + [repr], trees + [t], Repr + repr;
    }
  }
}
