/** Questions the merge asks about a list object, answered as they are about its value. */
module HeapLists {
  import opened Results
  import opened Trees
  import opened Merge
  import opened Documents
  import opened NamedLists

  /** `hasattr(v, key)` */
  predicate HasKey(v: Value, key: string)
    reads if v.ObjRef? then {v.obj} else {}
  {
    v.ObjRef? && key in v.obj.keys
  }

  /** `v['name']` */
  function NameValue(v: Value): Value
    requires HasKey(v, NAME) && |v.obj.vals| == |v.obj.keys|
    reads if v.ObjRef? then {v.obj} else {}
  {
    v.obj.vals[KeyIndex(v.obj.keys, NAME)]
  }

  lemma NameHeld(v: Value, repr: set<object>, t: Tree)
    requires Holds(v, repr, t) && HasAttr(t, NAME) && NameOf(t).Leaf?
    ensures HasKey(v, NAME) && |v.obj.vals| == |v.obj.keys|
    ensures NameValue(v) == Scal(NameOf(t).scalar)
  {
    var i := KeyIndex(v.obj.keys, NAME);
    DictGet(v.obj.keys, v.obj.trees, i);
    assert Holds(v.obj.vals[i], v.obj.parts[i], v.obj.trees[i]);
  }

  ghost predicate LeafNames(items: seq<Tree>) {
    forall i :: 0 <= i < |items| && HasAttr(items[i], NAME) ==> NameOf(items[i]).Leaf?
  }

  predicate NamedList(l: PyList): (r: bool)
    requires l.Valid()
    reads l, l.Repr
    ensures r == IsNamedList(l.trees)
  {
    assert forall i :: 0 <= i < |l.items| ==> Holds(l.items[i], l.parts[i], l.trees[i]);
    forall i :: 0 <= i < |l.items| ==> HasKey(l.items[i], NAME) || HasKey(l.items[i], MARKER)
  }

  lemma {:induction false} FirstIndex(items: seq<Tree>, name: Tree, j: nat)
    requires j < |items| && HasAttr(items[j], NAME) && NameOf(items[j]) == name
    requires forall i :: 0 <= i < j && HasAttr(items[i], NAME) ==> NameOf(items[i]) != name
    ensures IndexOfName(items, name) == Some(j)
  {
    if j != 0 {
      FirstIndex(items[1..], name, j - 1);
    }
  }

  /** Position of the first item called `name`. */
  method FindNamed(l: PyList, name: Value) returns (at: Option<nat>)
    requires l.Valid() && LeafNames(l.trees) && name.Scal?
    ensures at == IndexOfName(l.trees, Leaf(name.scalar))
  {
    var i := 0;
    while i < |l.items|
      invariant i <= |l.items|
      invariant forall j :: 0 <= j < i && HasAttr(l.trees[j], NAME) ==> NameOf(l.trees[j]) != Leaf(name.scalar)
    {
      assert Holds(l.items[i], l.parts[i], l.trees[i]);
      if HasKey(l.items[i], NAME) {
        NameHeld(l.items[i], l.parts[i], l.trees[i]);
        if NameValue(l.items[i]) == name {
          FirstIndex(l.trees, Leaf(name.scalar), i);
          return Some(i);
        }
      }
      i := i + 1;
    }
    at := None;
  }

  /** Whether no two named items share their name. */
  method NamesDistinct(l: PyList) returns (r: bool)
    requires l.Valid() && LeafNames(l.trees)
    ensures r == UniqueNames(l.trees)
  {
    var i := 0;
    while i < |l.items|
      invariant i <= |l.items|
      invariant forall j, k :: 0 <= j < i && j < k < |l.trees| && HasAttr(l.trees[j], NAME) && HasAttr(l.trees[k], NAME)
                  ==> NameOf(l.trees[j]) != NameOf(l.trees[k])
    {
      assert Holds(l.items[i], l.parts[i], l.trees[i]);
      if HasKey(l.items[i], NAME) {
        NameHeld(l.items[i], l.parts[i], l.trees[i]);
        var name := NameValue(l.items[i]);
        var k := i + 1;
        while k < |l.items|
          invariant i < k <= |l.items|
          invariant forall j :: i < j < k && HasAttr(l.trees[j], NAME) ==> NameOf(l.trees[i]) != NameOf(l.trees[j])
        {
          assert Holds(l.items[k], l.parts[k], l.trees[k]);
          if HasKey(l.items[k], NAME) {
            NameHeld(l.items[k], l.parts[k], l.trees[k]);
            if NameValue(l.items[k]) == name {
              return false;
            }
          }
          k := k + 1;
        }
      }
      i := i + 1;
    }
    r := true;
  }

  /** What the first control item says. */
  method ReadFlag(l: PyList, key: string) returns (r: Result<bool, MergeError>)
    requires l.Valid()
    ensures r == MergeFlag(key, l.trees) && Strategy(key, l.trees, r)
  {
    FlagRead(key, l.trees);
    var i := 0;
    assert l.trees[0..] == l.trees;
    while i < |l.items|
      invariant i <= |l.items|
      invariant MergeFlag(key, l.trees) == MergeFlag(key, l.trees[i..])
    {
      assert Holds(l.items[i], l.parts[i], l.trees[i]);
      if HasKey(l.items[i], MARKER) {
        var o := l.items[i].obj;
        assert o.Valid();
        var s := KeyIndex(o.keys, MARKER);
        DictGet(o.keys, o.trees, s);
        assert Holds(o.vals[s], o.parts[s], o.trees[s]);
        match o.vals[s] {
          case Scal(BoolV(b)) => return Success(b);
          case _ => return Failure(MarkerNotBoolean(key));
        }
      }
      assert l.trees[i..][1..] == l.trees[i + 1..];
      i := i + 1;
    }
    r := Success(false);
  }

  /** The entries of `s` at the positions `at`. */
  ghost function Pick<T>(s: seq<T>, at: seq<nat>): (r: seq<T>)
    requires forall j :: 0 <= j < |at| ==> at[j] < |s|
    ensures |r| == |at| && forall j :: 0 <= j < |at| ==> r[j] == s[at[j]]
  {
    seq(|at|, j requires 0 <= j < |at| => s[at[j]])
  }

  lemma PickApart(parts: seq<set<object>>, at: seq<nat>)
    requires Apart(parts)
    requires forall j :: 0 <= j < |at| ==> at[j] < |parts|
    requires forall j, k :: 0 <= j < k < |at| ==> at[j] < at[k]
    ensures Apart(Pick(parts, at))
  {
  }

  lemma {:induction false} NamedOnlyAppend(a: seq<Tree>, b: seq<Tree>)
    ensures NamedOnly(a + b) == NamedOnly(a) + NamedOnly(b)
  {
    if a == [] {
      assert a + b == b;
    } else {
      assert (a + b)[1..] == a[1..] + b;
      NamedOnlyAppend(a[1..], b);
    }
  }

  /** Positions of the named items among the first `n`. */
  ghost function NamedUpTo(items: seq<Tree>, n: nat): (r: seq<nat>)
    requires n <= |items|
    ensures forall j :: 0 <= j < |r| ==> r[j] < n
    ensures forall j, k :: 0 <= j < k < |r| ==> r[j] < r[k]
  {
    if n == 0 then []
    else if HasAttr(items[n - 1], NAME) then NamedUpTo(items, n - 1) + [n - 1]
    else NamedUpTo(items, n - 1)
  }

  lemma {:induction false} NamedUpToPicks(items: seq<Tree>, n: nat)
    requires n <= |items|
    ensures Pick(items, NamedUpTo(items, n)) == NamedOnly(items[..n])
  {
    if n != 0 {
      NamedUpToPicks(items, n - 1);
      assert items[..n] == items[..n - 1] + [items[n - 1]];
      NamedOnlyAppend(items[..n - 1], [items[n - 1]]);
    }
  }

  /** `[x for x in l if hasattr(x, 'name')]`, a new list of the same objects. */
  method KeepNamed(l: PyList) returns (r: PyList)
    requires l.Valid()
    ensures r.Valid() && fresh(r)
    ensures r.Repr <= l.Repr + {r} && l !in r.Repr
    ensures r.trees == NamedOnly(l.trees)
  {
    ghost var at := NamedUpTo(l.trees, |l.trees|);
    var items := NamedItems(l);
    PickApart(l.parts, at);
    NamedUpToPicks(l.trees, |l.trees|);
    assert l.trees[..|l.trees|] == l.trees;
    r := new PyList(items, l.Repr - {l}, Pick(l.parts, at), Pick(l.trees, at));
  }

  method NamedItems(l: PyList) returns (items: seq<Value>)
    requires l.Valid()
    ensures items == Pick(l.items, NamedUpTo(l.trees, |l.trees|))
  {
    items := [];
    var i := 0;
    while i < |l.items|
      invariant i <= |l.items|
      invariant items == Pick(l.items, NamedUpTo(l.trees, i))
    {
      assert Holds(l.items[i], l.parts[i], l.trees[i]);
      if HasKey(l.items[i], NAME) {
        items := items + [l.items[i]];
      }
      i := i + 1;
    }
  }
}
