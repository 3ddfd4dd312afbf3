/** Replacing yes/no strings by booleans, and how that commutes with the merge. */
module YesNo {
  import opened Results
  import opened Trees
  import opened Merge
  import opened MergeFacts
  import opened MergeLaws

  const YES_VALUES := ["y", "Y", "yes", "Yes", "YES"]
  const NO_VALUES := ["n", "N", "no", "No", "NO"]

  /** A string held directly by an object becomes a boolean when it spells one. */
  function NormaliseField(v: Tree): Tree
    decreases v, 1
  {
    if v.Leaf? && v.scalar.StrV? then
      if v.scalar.s in YES_VALUES then Leaf(BoolV(true))
      else if v.scalar.s in NO_VALUES then Leaf(BoolV(false))
      else v
    else Normalise(v)
  }

  function Normalise(t: Tree): Tree
    decreases t, 0
  {
    match t
    case Leaf(_) => t
    case List(items) => List(seq(|items|, i requires 0 <= i < |items| => Normalise(items[i])))
    case Obj(keys, vals) => Obj(keys, map k | k in vals :: NormaliseField(vals[k]))
  }

  /** A string that spells a boolean. */
  predicate SpellsBool(v: Tree) {
    v.Leaf? && v.scalar.StrV? && (v.scalar.s in YES_VALUES || v.scalar.s in NO_VALUES)
  }

  /**
   * `u` is `t` except that the strings held directly by objects that spell a boolean became it:
   * same keys in order, same list lengths, every other scalar untouched.
   */
  ghost predicate SameShape(t: Tree, u: Tree)
    decreases t
  {
    match t
    case Leaf(_) => u == t
    case List(items) =>
      u.List? && |u.items| == |items| && forall i :: 0 <= i < |items| ==> SameShape(items[i], u.items[i])
    case Obj(keys, vals) =>
      && u.Obj? && u.keys == keys && u.vals.Keys == vals.Keys
      && forall k :: k in vals ==>
           if SpellsBool(vals[k]) then u.vals[k] == Leaf(BoolV(vals[k].scalar.s in YES_VALUES))
           else SameShape(vals[k], u.vals[k])
  }

  /** No object holds a string that spells a boolean. */
  ghost predicate Normal(t: Tree)
    decreases t
  {
    match t
    case Leaf(_) => true
    case List(items) => forall i :: 0 <= i < |items| ==> Normal(items[i])
    case Obj(keys, vals) => forall k :: k in vals ==> !SpellsBool(vals[k]) && Normal(vals[k])
  }

  lemma {:induction false} NormaliseKeepsShape(t: Tree)
    ensures SameShape(t, Normalise(t)) && Normal(Normalise(t))
    decreases t
  {
    match t
    case Leaf(_) =>
    case List(items) =>
      forall i | 0 <= i < |items| ensures SameShape(items[i], Normalise(items[i])) && Normal(Normalise(items[i])) {
        NormaliseKeepsShape(items[i]);
      }
    case Obj(keys, vals) =>
      forall k | k in vals
        ensures SameShape(vals[k], Normalise(vals[k])) && Normal(Normalise(vals[k]))
      {
        NormaliseKeepsShape(vals[k]);
      }
  }

  /** The normal documents are exactly the fixed points. */
  lemma {:induction false} NormalIsFixed(t: Tree)
    ensures Normal(t) <==> Normalise(t) == t
    decreases t
  {
    match t
    case Leaf(_) =>
    case List(items) =>
      forall i | 0 <= i < |items| ensures Normal(items[i]) <==> Normalise(items[i]) == items[i] {
        NormalIsFixed(items[i]);
      }
      if Normalise(t) == t {
        forall i | 0 <= i < |items| ensures Normal(items[i]) {
          assert Normalise(t).items[i] == items[i];
        }
      }
    case Obj(keys, vals) =>
      forall k | k in vals ensures Normal(vals[k]) <==> Normalise(vals[k]) == vals[k] {
        NormalIsFixed(vals[k]);
      }
      if Normalise(t) == t {
        forall k | k in vals ensures !SpellsBool(vals[k]) && Normal(vals[k]) {
          assert Normalise(t).vals[k] == vals[k] == NormaliseField(vals[k]);
        }
      }
  }

  lemma NormaliseIsIdempotent(t: Tree)
    ensures Normalise(Normalise(t)) == Normalise(t)
  {
    NormaliseKeepsShape(t);
    NormalIsFixed(Normalise(t));
  }

  lemma {:induction false} NormaliseKeepsForm(t: Tree)
    requires WellFormed(t)
    ensures WellFormed(Normalise(t)) && (MarkerFree(t) ==> MarkerFree(Normalise(t)))
    decreases t
  {
    match t
    case Leaf(_) =>
    case List(items) =>
      forall i | 0 <= i < |items|
        ensures WellFormed(Normalise(items[i])) && (MarkerFree(items[i]) ==> MarkerFree(Normalise(items[i])))
      {
        NormaliseKeepsForm(items[i]);
      }
    case Obj(keys, vals) =>
      forall k | k in vals
        ensures WellFormed(NormaliseField(vals[k])) && (MarkerFree(vals[k]) ==> MarkerFree(NormaliseField(vals[k])))
      {
        NormaliseKeepsForm(vals[k]);
      }
  }

  lemma MarkerFreeListReplaces(key: string, x: Tree, y: Tree)
    requires x.List? && y.List? && WellFormed(y) && MarkerFree(y) && MergeList(key, x, y).Success?
    ensures MergeList(key, x, y).value == y
  {
    if IsNamedList(x.items) && IsNamedList(y.items) {
      NoMarkerNoFlag(key, y.items);
      NoMarkerKeepsNamed(y.items);
    }
  }

  /** Merging then normalising one field is normalising then merging it, when neither merge fails. */
  lemma {:induction false} FieldCommutes(key: string, x: Tree, y: Tree)
    requires WellFormed(x) && WellFormed(y) && MarkerFree(x) && MarkerFree(y)
    requires WellFormed(NormaliseField(y))
    requires MergeValue(key, x, y).Success?
    requires MergeValue(key, NormaliseField(x), NormaliseField(y)).Success?
    ensures NormaliseField(MergeValue(key, x, y).value) == MergeValue(key, NormaliseField(x), NormaliseField(y)).value
    decreases y, 1
  {
    if x.Obj? && y.Obj? {
      ObjectCommutes(x, y);
    } else if x.List? && y.List? {
      NormaliseKeepsForm(y);
      MarkerFreeListReplaces(key, x, y);
      MarkerFreeListReplaces(key, Normalise(x), Normalise(y));
    }
  }

  /**
   * Normalisation commutes with the merge of marker-free documents whenever both the raw
   * and the normalised merge succeed.
   */
  lemma {:induction false} ObjectCommutes(a: Tree, b: Tree)
    requires a.Obj? && b.Obj? && WellFormed(a) && WellFormed(b) && MarkerFree(a) && MarkerFree(b)
    requires WellFormed(Normalise(b))
    requires MergeObj(a, b).Success? && MergeObj(Normalise(a), Normalise(b)).Success?
    ensures Normalise(MergeObj(a, b).value) == MergeObj(Normalise(a), Normalise(b)).value
    decreases b, 0
  {
    var na, nb := Normalise(a), Normalise(b);
    ObjCharacterised(a, b);
    ObjCharacterised(na, nb);
    var r, s := Normalise(MergeObj(a, b).value), MergeObj(na, nb).value;
    SameKeysSameNew(b.keys, a.vals, na.vals);
    forall k | k in r.vals ensures r.vals[k] == s.vals[k] {
      var m := MergeObj(a, b).value;
      assert m.vals[k] == FieldOf(a, b, k) && s.vals[k] == FieldOf(na, nb, k);
      if k in a.vals && k in b.vals {
        assert !Clash(a, b, k) && !Clash(na, nb, k);
        NormaliseKeepsForm(b.vals[k]);
        FieldCommutes(k, a.vals[k], b.vals[k]);
      }
    }
    SameObject(r, s);
  }

  lemma SameKeysSameNew(ks: seq<string>, m: map<string, Tree>, n: map<string, Tree>)
    requires m.Keys == n.Keys
    ensures NewKeys(ks, m) == NewKeys(ks, n)
  {
  }

  /** No two items of a list have names that the replacement makes equal. */
  ghost predicate NamesStayApart(items: seq<Tree>) {
    forall i, j :: 0 <= i < j < |items| && HasAttr(items[i], NAME) && HasAttr(items[j], NAME) ==>
      NormaliseField(NameOf(items[i])) != NormaliseField(NameOf(items[j]))
  }

  /**
   * At every key two objects share, both values spell a boolean or neither does; and where two named
   * lists meet, the names of each stay different.
   */
  ghost predicate NormalisesAlike(x: Tree, y: Tree)
    decreases y
  {
    && (SpellsBool(x) <==> SpellsBool(y))
    && (x.Obj? && y.Obj? ==> forall k :: k in x.vals && k in y.vals ==> NormalisesAlike(x.vals[k], y.vals[k]))
    && (x.List? && y.List? && IsNamedList(x.items) && IsNamedList(y.items) ==>
          NamesStayApart(x.items) && NamesStayApart(y.items))
  }

  lemma NormalisedItems(items: seq<Tree>)
    ensures var r := Normalise(List(items)).items;
            && |r| == |items| && (IsNamedList(r) <==> IsNamedList(items))
            && (UniqueNames(r) <==> NamesStayApart(items))
            && forall i :: 0 <= i < |items| ==> (HasAttr(r[i], MARKER) <==> HasAttr(items[i], MARKER))
  {
    var r := Normalise(List(items)).items;
    forall i | 0 <= i < |items|
      ensures HasAttr(r[i], MARKER) <==> HasAttr(items[i], MARKER)
      ensures HasAttr(r[i], NAME) <==> HasAttr(items[i], NAME)
      ensures HasAttr(items[i], NAME) ==> NameOf(r[i]) == NormaliseField(NameOf(items[i]))
    {
      assert r[i] == Normalise(items[i]);
    }
    if UniqueNames(r) {
      forall i, j | 0 <= i < j < |items| && HasAttr(items[i], NAME) && HasAttr(items[j], NAME)
        ensures NormaliseField(NameOf(items[i])) != NormaliseField(NameOf(items[j]))
      {
        assert HasAttr(r[i], NAME) && HasAttr(r[j], NAME);
      }
    }
  }

  lemma ListsNormaliseAlike(key: string, x: Tree, y: Tree)
    requires x.List? && y.List? && WellFormed(y) && MarkerFree(y) && WellFormed(Normalise(y))
    ensures MergeList(key, Normalise(x), Normalise(y)).Success? <==> NormalisesAlike(x, y)
  {
    hide Normalise, UniqueNames, IsNamedList, NamesStayApart;
    NormalisedItems(x.items);
    NormalisedItems(y.items);
    AsList(x);
    AsList(y);
    NoMarkerNoFlag(key, Normalise(y).items);
  }

  lemma AsList(x: Tree)
    requires x.List?
    ensures Normalise(x).List? && x == List(x.items)
  {
  }

  /**
   * When the normalised merge succeeds, given that the raw one does: exactly if wherever the two documents
   * meet the values spell a boolean both or neither, and the names of lists that meet stay different.
   */
  lemma {:induction false} NormalisedMergeSucceeds(key: string, x: Tree, y: Tree)
    requires WellFormed(y) && MarkerFree(y) && WellFormed(NormaliseField(y))
    requires MergeValue(key, x, y).Success?
    ensures MergeValue(key, NormaliseField(x), NormaliseField(y)).Success? <==> NormalisesAlike(x, y)
    decreases y
  {
    if x.Obj? && y.Obj? {
      var nx, ny := Normalise(x), Normalise(y);
      ObjCharacterised(x, y);
      ObjCharacterised(nx, ny);
      forall k | k in x.vals && k in y.vals
        ensures Clash(nx, ny, k) <==> !NormalisesAlike(x.vals[k], y.vals[k])
      {
        assert !Clash(x, y, k);
        NormaliseKeepsForm(y.vals[k]);
        assert nx.vals[k] == NormaliseField(x.vals[k]) && ny.vals[k] == NormaliseField(y.vals[k]);
        NormalisedMergeSucceeds(k, x.vals[k], y.vals[k]);
      }
    } else if x.List? && y.List? {
      ListsNormaliseAlike(key, x, y);
    }
  }

  /** An object with one field. */
  function Field(key: string, value: Tree): Tree {
    Obj([key], map[key := value])
  }

  lemma FieldForm(key: string, value: Tree)
    ensures WellFormed(value) ==> WellFormed(Field(key, value))
    ensures MarkerFree(value) ==> MarkerFree(Field(key, value))
    ensures NamesUnique(value) ==> NamesUnique(Field(key, value))
  {
  }

  lemma TextForm(s: string)
    ensures WellFormed(Leaf(StrV(s))) && MarkerFree(Leaf(StrV(s))) && NamesUnique(Leaf(StrV(s)))
  {
  }

  /** A word replaced on one side only: the raw merge succeeds, the normalised one meets a boolean and a string. */
  lemma OneSidedWordFails()
    ensures var a, b := Field("flag", Leaf(StrV("yes"))), Field("flag", Leaf(StrV("maybe")));
            && WellFormed(b) && MergeObj(a, b).Success?
            && WellFormed(Normalise(b)) && MergeObj(Normalise(a), Normalise(b)).Failure?
  {
    hide MergeObj, Normalise, WellFormed, MarkerFree;
    var a, b := Field("flag", Leaf(StrV("yes"))), Field("flag", Leaf(StrV("maybe")));
    TextForm("maybe");
    FieldForm("flag", Leaf(StrV("maybe")));
    NormaliseKeepsForm(b);
    FieldAlike("flag", Leaf(StrV("yes")), Leaf(StrV("maybe")));
    ObjCharacterised(a, b);
    NormalisedMergeSucceeds("", a, b);
    AsFields(a);
    AsFields(b);
  }

  lemma AsFields(t: Tree)
    requires t.Obj?
    ensures NormaliseField(t) == Normalise(t) && Normalise(t).Obj?
  {
  }

  lemma FieldAlike(key: string, x: Tree, y: Tree)
    ensures NormalisesAlike(Field(key, x), Field(key, y)) <==> NormalisesAlike(x, y)
  {
    assert NormalisesAlike(Field(key, x), Field(key, y)) ==>
        NormalisesAlike(Field(key, x).vals[key], Field(key, y).vals[key]);
  }

  lemma NamedField(s: string)
    ensures var t := Field(NAME, Leaf(StrV(s)));
            && WellFormed(t) && MarkerFree(t) && NamesUnique(t)
            && HasAttr(t, NAME) && !HasAttr(t, MARKER) && NameOf(t) == Leaf(StrV(s))
  {
    TextForm(s);
    FieldForm(NAME, Leaf(StrV(s)));
  }

  /** Two items of different names. */
  lemma TwoNames(s: string, s': string)
    requires s != s'
    ensures var t := List([Field(NAME, Leaf(StrV(s))), Field(NAME, Leaf(StrV(s')))]);
            && WellFormed(t) && MarkerFree(t) && NamesUnique(t) && IsNamedList(t.items)
            && HasAttr(t.items[0], NAME) && NameOf(t.items[0]) == Leaf(StrV(s))
            && HasAttr(t.items[1], NAME) && NameOf(t.items[1]) == Leaf(StrV(s'))
  {
    hide Field;
    NamedField(s);
    NamedField(s');
  }

  /** Two names that spell one boolean: the raw merge succeeds, the normalised one finds the name twice. */
  lemma NamesCollideAfterwards()
    ensures var items := [Field(NAME, Leaf(StrV("y"))), Field(NAME, Leaf(StrV("yes")))];
            var a := Field("l", List(items));
            && WellFormed(a) && NamesUnique(a) && MarkerFree(a) && MergeObj(a, a) == Success(a)
            && WellFormed(Normalise(a)) && MergeObj(Normalise(a), Normalise(a)).Failure?
  {
    hide MergeObj, Normalise, WellFormed, MarkerFree, NamesUnique;
    var list := List([Field(NAME, Leaf(StrV("y"))), Field(NAME, Leaf(StrV("yes")))]);
    var a := Field("l", list);
    TwoNames("y", "yes");
    FieldForm("l", list);
    NormaliseKeepsForm(a);
    SelfMergePlain(a);
    assert !NamesStayApart(list.items) by {
      assert NormaliseField(NameOf(list.items[0])) == NormaliseField(NameOf(list.items[1]));
    }
    FieldAlike("l", list, list);
    NormalisedMergeSucceeds("", a, a);
    AsFields(a);
  }

  lemma SelfMergePlain(a: Tree)
    requires Plain(a) && a.Obj? && forall k :: k in a.vals ==> a.vals[k].List?
    ensures MergeObj(a, a) == Success(a)
  {
    ObjCharacterised(a, a);
    NewKeysNone(a.keys, a.vals);
    forall k ensures !Clash(a, a, k) {
      if k in a.vals {
        PlainListReplaces(k, a.vals[k], a.vals[k]);
      }
    }
    forall k | k in a.vals ensures FieldOf(a, a, k) == a.vals[k] {
      PlainListReplaces(k, a.vals[k], a.vals[k]);
    }
    SameObject(MergeObj(a, a).value, a);
  }
}
