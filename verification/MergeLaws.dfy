/** Algebra of the deep merge: identity, associativity, named lists. */
module MergeLaws {
  import opened Results
  import opened Trees
  import opened Merge
  import opened MergeFacts

  const EMPTY := Obj([], map[])

  /** A document without control items whose named lists have unique names. */
  ghost predicate Plain(t: Tree) {
    WellFormed(t) && MarkerFree(t) && NamesUnique(t)
  }

  lemma {:induction false} EmptyIsIdentity(a: Tree)
    requires a.Obj? && WellFormed(a)
    ensures MergeObj(a, EMPTY) == Success(a)
    ensures MergeObj(EMPTY, a) == Success(a)
  {
    EmptyOnTheLeft(a);
    ObjCharacterised(a, EMPTY);
  }

  lemma {:induction false} EmptyOnTheLeft(a: Tree)
    requires a.Obj? && WellFormed(a)
    ensures MergeObj(EMPTY, a) == Success(a)
  {
    ObjCharacterised(EMPTY, a);
    NewKeysAll(a.keys, EMPTY.vals);
    SameObject(MergeObj(EMPTY, a).value, a);
  }

  lemma NewKeysAll(ks: seq<string>, have: map<string, Tree>)
    requires forall k :: k in ks ==> k !in have
    ensures NewKeys(ks, have) == ks
  {
    if ks != [] {
      assert ks == ks[..|ks| - 1] + [ks[|ks| - 1]];
      NewKeysAll(ks[..|ks| - 1], have);
    }
  }

  /** (x + y) + z under one key. */
  ghost function LeftFirst(key: string, x: Tree, y: Tree, z: Tree): Merged
    requires WellFormed(y) && WellFormed(z)
  {
    var xy :- MergeValue(key, x, y);
    MergeValue(key, xy, z)
  }

  /** x + (y + z) under one key. */
  ghost function RightFirst(key: string, x: Tree, y: Tree, z: Tree): Merged
    requires WellFormed(y) && WellFormed(z)
  {
    var yz :- MergeValue(key, y, z);
    MergeKeepsWellFormed(key, y, z);
    MergeValue(key, x, yz)
  }

  /** Same outcome, error details aside. */
  ghost predicate Agree(r: Merged, s: Merged) {
    && (r.Success? <==> s.Success?)
    && (r.Success? ==> r.value == s.value)
  }

  lemma {:induction false} NoMarkerKeepsNamed(items: seq<Tree>)
    requires IsNamedList(items)
    requires forall i :: 0 <= i < |items| ==> !HasAttr(items[i], MARKER)
    ensures NamedOnly(items) == items
  {
    if items != [] {
      assert HasAttr(items[0], NAME);
      NoMarkerKeepsNamed(items[1..]);
      assert items == [items[0]] + items[1..];
    }
  }

  lemma NoMarkerNoFlag(key: string, items: seq<Tree>)
    requires forall i :: 0 <= i < |items| ==> !HasAttr(items[i], MARKER)
    ensures MergeFlag(key, items) == Success(false)
  {
  }

  /** Without control items a list of the extension replaces the base list. */
  lemma PlainListReplaces(key: string, x: Tree, y: Tree)
    requires x.List? && y.List? && WellFormed(y) && MarkerFree(y)
    requires NamesUnique(x) && NamesUnique(y)
    ensures MergeList(key, x, y) == Success(y)
  {
    if IsNamedList(x.items) && IsNamedList(y.items) {
      NoMarkerNoFlag(key, y.items);
      NoMarkerKeepsNamed(y.items);
    }
  }

  lemma {:induction false} MergeKeepsPlain(key: string, x: Tree, y: Tree)
    requires Plain(x) && Plain(y) && MergeValue(key, x, y).Success?
    ensures Plain(MergeValue(key, x, y).value)
    decreases y
  {
    MergeKeepsWellFormed(key, x, y);
    if x.Obj? && y.Obj? {
      ObjCharacterised(x, y);
      var r := MergeObj(x, y).value;
      forall k | k in r.vals ensures Plain(r.vals[k]) {
        assert r.vals[k] == FieldOf(x, y, k);
        if k in x.vals && k in y.vals {
          assert !Clash(x, y, k);
          MergeKeepsPlain(k, x.vals[k], y.vals[k]);
        }
      }
    } else if x.List? && y.List? {
      PlainListReplaces(key, x, y);
    }
  }

  /** Associativity of the merge of three values under one key, errors included. */
  lemma {:induction false} ValuesAssociate(key: string, x: Tree, y: Tree, z: Tree)
    requires Plain(x) && Plain(y) && Plain(z)
    ensures Agree(LeftFirst(key, x, y, z), RightFirst(key, x, y, z))
    decreases z, 1
  {
    if x.Obj? && y.Obj? && z.Obj? {
      ObjectsAssociate(key, x, y, z);
    } else if x.List? && y.List? && z.List? {
      PlainListReplaces(key, x, y);
      PlainListReplaces(key, y, z);
      PlainListReplaces(key, x, z);
    } else if x.List? && y.List? {
      PlainListReplaces(key, x, y);
    } else if y.List? && z.List? {
      PlainListReplaces(key, y, z);
    }
  }

  /** The induction hypothesis at the keys all three objects share. */
  ghost predicate FieldsAssociate(x: Tree, y: Tree, z: Tree)
    requires x.Obj? && y.Obj? && z.Obj? && WellFormed(y) && WellFormed(z)
  {
    forall k :: k in x.vals && k in y.vals && k in z.vals ==>
      Agree(LeftFirst(k, x.vals[k], y.vals[k], z.vals[k]), RightFirst(k, x.vals[k], y.vals[k], z.vals[k]))
  }

  lemma {:induction false} ObjectsAssociate(key: string, x: Tree, y: Tree, z: Tree)
    requires Plain(x) && Plain(y) && Plain(z) && x.Obj? && y.Obj? && z.Obj?
    ensures Agree(LeftFirst(key, x, y, z), RightFirst(key, x, y, z))
    decreases z, 0
  {
    forall k | k in x.vals && k in y.vals && k in z.vals
      ensures Agree(LeftFirst(k, x.vals[k], y.vals[k], z.vals[k]), RightFirst(k, x.vals[k], y.vals[k], z.vals[k]))
    {
      ValuesAssociate(k, x.vals[k], y.vals[k], z.vals[k]);
    }
    if LeftFirst(key, x, y, z).Success? {
      LeftOkGivesRight(key, x, y, z);
      BothOkAgree(key, x, y, z);
    } else if RightFirst(key, x, y, z).Success? {
      RightOkGivesLeft(key, x, y, z);
    }
  }

  lemma {:induction false} LeftOkGivesRight(key: string, x: Tree, y: Tree, z: Tree)
    requires x.Obj? && y.Obj? && z.Obj? && WellFormed(y) && WellFormed(z) && FieldsAssociate(x, y, z)
    requires LeftFirst(key, x, y, z).Success?
    ensures RightFirst(key, x, y, z).Success?
  {
    var xy := MergeObj(x, y).value;
    ObjCharacterised(x, y);
    ObjCharacterised(xy, z);
    forall k | k in y.vals && k in z.vals ensures !Clash(y, z, k) {
      assert xy.vals[k] == FieldOf(x, y, k) && !Clash(xy, z, k) && !Clash(x, y, k);
    }
    ObjCharacterised(y, z);
    var yz := MergeObj(y, z).value;
    MergeKeepsWellFormed(key, y, z);
    ObjCharacterised(x, yz);
    forall k | k in x.vals && k in yz.vals ensures !Clash(x, yz, k) {
      assert yz.vals[k] == FieldOf(y, z, k) && !Clash(y, z, k) && !Clash(x, y, k);
      assert xy.vals[k] == FieldOf(x, y, k) && !Clash(xy, z, k);
    }
  }

  lemma {:induction false} RightOkGivesLeft(key: string, x: Tree, y: Tree, z: Tree)
    requires x.Obj? && y.Obj? && z.Obj? && WellFormed(y) && WellFormed(z) && FieldsAssociate(x, y, z)
    requires RightFirst(key, x, y, z).Success?
    ensures LeftFirst(key, x, y, z).Success?
  {
    var yz := MergeObj(y, z).value;
    ObjCharacterised(y, z);
    MergeKeepsWellFormed(key, y, z);
    ObjCharacterised(x, yz);
    forall k | k in x.vals && k in y.vals ensures !Clash(x, y, k) {
      assert yz.vals[k] == FieldOf(y, z, k) && !Clash(x, yz, k) && !Clash(y, z, k);
    }
    ObjCharacterised(x, y);
    var xy := MergeObj(x, y).value;
    ObjCharacterised(xy, z);
    forall k | k in xy.vals && k in z.vals ensures !Clash(xy, z, k) {
      assert xy.vals[k] == FieldOf(x, y, k) && !Clash(x, y, k) && !Clash(y, z, k);
      assert yz.vals[k] == FieldOf(y, z, k) && !Clash(x, yz, k);
    }
  }

  lemma {:induction false} BothOkAgree(key: string, x: Tree, y: Tree, z: Tree)
    requires x.Obj? && y.Obj? && z.Obj? && WellFormed(y) && WellFormed(z) && FieldsAssociate(x, y, z)
    requires LeftFirst(key, x, y, z).Success? && RightFirst(key, x, y, z).Success?
    ensures LeftFirst(key, x, y, z) == RightFirst(key, x, y, z)
  {
    var l, r := LeftFirst(key, x, y, z).value, RightFirst(key, x, y, z).value;
    BothKeysAgree(key, x, y, z);
    forall k | k in l.vals ensures l.vals[k] == r.vals[k] {
      BothFieldsAgree(key, x, y, z, k);
    }
    SameObject(l, r);
  }

  /** Ordered union of key lists is associative. */
  lemma {:induction false} KeysAssociate(a: seq<string>, b: seq<string>, c: seq<string>,
                                         m: map<string, Tree>, n: map<string, Tree>, both: map<string, Tree>)
    requires both.Keys == m.Keys + n.Keys
    ensures a + NewKeys(b, m) + NewKeys(c, both) == a + NewKeys(b + NewKeys(c, n), m)
  {
    NewKeysAppend(b, NewKeys(c, n), m);
    NewKeysTwice(c, n, m, both);
  }

  lemma {:induction false} BothKeysAgree(key: string, x: Tree, y: Tree, z: Tree)
    requires x.Obj? && y.Obj? && z.Obj? && WellFormed(y) && WellFormed(z)
    requires LeftFirst(key, x, y, z).Success? && RightFirst(key, x, y, z).Success?
    ensures LeftFirst(key, x, y, z).value.keys == RightFirst(key, x, y, z).value.keys
    ensures LeftFirst(key, x, y, z).value.vals.Keys == RightFirst(key, x, y, z).value.vals.Keys
      == x.vals.Keys + y.vals.Keys + z.vals.Keys
  {
    var xy, yz := MergeObj(x, y).value, MergeObj(y, z).value;
    MergeKeepsWellFormed(key, y, z);
    MergedKeys(x, y);
    MergedKeys(y, z);
    MergedKeys(xy, z);
    MergedKeys(x, yz);
    KeysAssociate(x.keys, y.keys, z.keys, x.vals, y.vals, xy.vals);
  }

  lemma {:induction false} BothFieldsAgree(key: string, x: Tree, y: Tree, z: Tree, k: string)
    requires x.Obj? && y.Obj? && z.Obj? && WellFormed(y) && WellFormed(z) && FieldsAssociate(x, y, z)
    requires LeftFirst(key, x, y, z).Success? && RightFirst(key, x, y, z).Success?
    requires k in LeftFirst(key, x, y, z).value.vals && k in RightFirst(key, x, y, z).value.vals
    ensures LeftFirst(key, x, y, z).value.vals[k] == RightFirst(key, x, y, z).value.vals[k]
  {
    var xy, yz := MergeObj(x, y).value, MergeObj(y, z).value;
    MergeKeepsWellFormed(key, y, z);
    ObjCharacterised(x, y);
    ObjCharacterised(y, z);
    ObjCharacterised(xy, z);
    ObjCharacterised(x, yz);
    assert !Clash(xy, z, k) && !Clash(x, yz, k) && !Clash(x, y, k) && !Clash(y, z, k);
    if k in xy.vals { assert xy.vals[k] == FieldOf(x, y, k); }
    if k in yz.vals { assert yz.vals[k] == FieldOf(y, z, k); }
  }

  /**
   * The merge is associative on plain documents: both groupings fail or both succeed,
   * and then with the same document, keys in the same order.
   */
  lemma MergeIsAssociative(a: Tree, b: Tree, c: Tree)
    requires a.Obj? && b.Obj? && c.Obj? && Plain(a) && Plain(b) && Plain(c)
    ensures MergeObj(b, c).Success? ==> WellFormed(MergeObj(b, c).value)
    ensures MergeObj(a, b).Success? && MergeObj(MergeObj(a, b).value, c).Success?
       <==> MergeObj(b, c).Success? && MergeObj(a, MergeObj(b, c).value).Success?
    ensures MergeObj(a, b).Success? && MergeObj(MergeObj(a, b).value, c).Success? ==>
              MergeObj(MergeObj(a, b).value, c) == MergeObj(a, MergeObj(b, c).value)
  {
    ValuesAssociate("", a, b, c);
    if MergeObj(b, c).Success? {
      MergeKeepsWellFormed("", b, c);
    }
  }
}
