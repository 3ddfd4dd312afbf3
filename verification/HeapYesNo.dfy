/** The yes/no replacement as the program runs it, in place on a document. */
module HeapYesNo {
  import opened Results
  import opened Trees
  import opened Documents
  import opened YesNo

  /** The document `v` becomes the normalised one, made of the same objects. */
  method ReplaceYesNo(v: Value, ghost repr: set<object>, ghost t: Tree)
    requires Holds(v, repr, t)
    modifies repr
    ensures Holds(v, repr, Normalise(t))
    decreases t, 2
  {
    match v {
      case Scal(_) =>
      case ListRef(l) => ReplaceInList(l);
      case ObjRef(o) => ReplaceInDict(o);
    }
  }

  method ReplaceInList(l: PyList)
    requires l.Valid()
    modifies l.Repr
    ensures l.Valid() && l.Repr == old(l.Repr)
    ensures List(l.trees) == Normalise(List(old(l.trees)))
    decreases List(l.trees), 1
  {
    hide Normalise;
    ghost var trees := l.trees;
    var i := 0;
    while i < |l.items|
      invariant i <= |l.items| && l.Valid() && l.Repr == old(l.Repr) && |l.trees| == |trees|
      invariant forall p :: 0 <= p < i ==> l.trees[p] == Normalise(trees[p])
      invariant forall p :: i <= p < |trees| ==> l.trees[p] == trees[p]
    {
      assert Holds(l.items[i], l.parts[i], l.trees[i]);
      assert trees[i] in List(trees).items;
      ReplaceYesNo(l.items[i], l.parts[i], l.trees[i]);
      l.Refresh(i, l.parts[i], Normalise(l.trees[i]));
      i := i + 1;
    }
    NormalisedList(trees, l.trees);
  }

  lemma NormalisedList(trees: seq<Tree>, after: seq<Tree>)
    requires |after| == |trees| && forall p :: 0 <= p < |trees| ==> after[p] == Normalise(trees[p])
    ensures List(after) == Normalise(List(trees))
  {
    assert after == Normalise(List(trees)).items;
  }

  method ReplaceInDict(o: ObjDict)
    requires o.Valid()
    modifies o.Repr
    ensures o.Valid() && o.Repr == old(o.Repr)
    ensures o.Tree() == Normalise(old(o.Tree()))
    decreases o.Tree(), 1
  {
    hide Normalise, NormaliseField;
    ghost var keys, trees := o.keys, o.trees;
    var i := 0;
    while i < |o.vals|
      invariant i <= |o.vals| && o.Valid() && o.Repr == old(o.Repr) && o.keys == keys
      invariant forall p :: 0 <= p < i ==> o.trees[p] == NormaliseField(trees[p])
      invariant forall p :: i <= p < |trees| ==> o.trees[p] == trees[p]
    {
      DictGet(keys, trees, i);
      ReplaceInColumn(o, i);
      i := i + 1;
    }
    NormalisedDict(keys, trees, o.trees);
  }

  lemma NormalisedDict(keys: seq<string>, trees: seq<Tree>, after: seq<Tree>)
    requires |keys| == |after| == |trees| && Distinct(keys)
    requires forall p :: 0 <= p < |trees| ==> after[p] == NormaliseField(trees[p])
    ensures DictOf(keys, after) == Normalise(DictOf(keys, trees))
  {
    var n := Normalise(DictOf(keys, trees));
    forall k | k in keys ensures DictOf(keys, after).vals[k] == n.vals[k] {
      var p := KeyIndex(keys, k);
    }
    assert DictOf(keys, after).vals == n.vals;
  }

  /** One round of the loop over the items of a dict: a string is replaced, anything else entered. */
  method ReplaceInColumn(o: ObjDict, i: nat)
    requires o.Valid() && i < |o.vals|
    modifies o, o.parts[i]
    ensures o.Valid() && o.keys == old(o.keys) && o.Repr == old(o.Repr)
    ensures o.trees == old(o.trees)[i := NormaliseField(old(o.trees[i]))]
    decreases o.trees[i], 3
  {
    hide Trees.Distinct;
    var v := o.vals[i];
    assert Holds(v, o.parts[i], o.trees[i]);
    if v.Scal? && v.scalar.StrV? {
      if v.scalar.s in YES_VALUES {
        o.Replace(i, Scal(BoolV(true)), {}, Leaf(BoolV(true)));
      } else if v.scalar.s in NO_VALUES {
        o.Replace(i, Scal(BoolV(false)), {}, Leaf(BoolV(false)));
      } else {
        assert o.trees == o.trees[i := o.trees[i]];
      }
    } else {
      ghost var part, t := o.parts[i], o.trees[i];
      ReplaceYesNo(v, part, t);
      o.Replace(i, v, part, Normalise(t));
    }
  }
}
