/** What a merged object holds, key by key, and what a merged named list holds, name by name. */
module MergeFacts {
  import opened Results
  import opened Trees
  import opened Merge

  /** The keys of `ks` that `have` lacks, in order. */
  function NewKeys(ks: seq<string>, have: map<string, Tree>): seq<string> {
    if ks == [] then []
    else
      var rest := NewKeys(ks[..|ks| - 1], have);
      var k := ks[|ks| - 1];
      if k in have then rest else rest + [k]
  }

  lemma {:induction false} NewKeysMembers(ks: seq<string>, have: map<string, Tree>)
    ensures forall k :: k in NewKeys(ks, have) <==> k in ks && k !in have
  {
    if ks != [] {
      NewKeysMembers(ks[..|ks| - 1], have);
      assert ks == ks[..|ks| - 1] + [ks[|ks| - 1]];
    }
  }

  lemma NewKeysSnoc(ks: seq<string>, key: string, have: map<string, Tree>)
    ensures NewKeys(ks + [key], have) == if key in have then NewKeys(ks, have) else NewKeys(ks, have) + [key]
  {
    assert (ks + [key])[..|ks|] == ks;
  }

  /** Both documents have `k`, and their values cannot be merged. */
  ghost predicate Clash(base: Tree, ext: Tree, k: string)
    requires base.Obj? && ext.Obj? && WellFormed(ext)
  {
    k in base.vals && k in ext.vals && MergeValue(k, base.vals[k], ext.vals[k]).Failure?
  }

  /** The value a successful merge stores under `k`. */
  ghost function FieldOf(base: Tree, ext: Tree, k: string): Tree
    requires base.Obj? && ext.Obj? && WellFormed(ext)
    requires (k in base.vals || k in ext.vals) && !Clash(base, ext, k)
  {
    if k !in ext.vals then base.vals[k]
    else if k !in base.vals then ext.vals[k]
    else MergeValue(k, base.vals[k], ext.vals[k]).value
  }

  /** The keys after the rounds over `ks`. */
  ghost predicate KeysDone(base: Tree, ks: seq<string>, r: Tree)
    requires base.Obj?
  {
    r.Obj? && r.keys == base.keys + NewKeys(ks, base.vals)
  }

  /** The fields after the rounds over the keys in `seen`. */
  ghost predicate FieldsDone(base: Tree, ext: Tree, seen: set<string>, r: Tree)
    requires base.Obj? && ext.Obj? && WellFormed(ext) && seen <= ext.vals.Keys
  {
    && r.Obj?
    && r.vals.Keys == base.vals.Keys + seen
    && forall k :: k in r.vals ==>
         if k in seen then !Clash(base, ext, k) && r.vals[k] == FieldOf(base, ext, k) else r.vals[k] == base.vals[k]
  }

  ghost function Seen(ext: Tree, n: nat): (r: set<string>)
    requires ext.Obj? && WellFormed(ext) && n <= |ext.keys|
    ensures r <= ext.vals.Keys
  {
    set k | k in ext.keys[..n]
  }

  lemma {:induction false} FieldsCharacterised(base: Tree, ext: Tree, n: nat)
    requires base.Obj? && ext.Obj? && WellFormed(ext) && n <= |ext.keys|
    ensures MergeFields(base, ext, n).Success? <==> forall k :: k in Seen(ext, n) ==> !Clash(base, ext, k)
    ensures MergeFields(base, ext, n).Success? ==>
              && KeysDone(base, ext.keys[..n], MergeFields(base, ext, n).value)
              && FieldsDone(base, ext, Seen(ext, n), MergeFields(base, ext, n).value)
  {
    if n == 0 {
      assert NewKeys(ext.keys[..0], base.vals) == [];
    } else {
      FieldsCharacterised(base, ext, n - 1);
      SeenGrows(ext, n);
      if MergeFields(base, ext, n - 1).Success? {
        var done := MergeFields(base, ext, n - 1).value;
        RoundCharacterised(base, ext, ext.keys[..n - 1], Seen(ext, n - 1), ext.keys[n - 1], done);
      }
    }
  }

  lemma SeenGrows(ext: Tree, n: nat)
    requires ext.Obj? && WellFormed(ext) && 0 < n <= |ext.keys|
    ensures ext.keys[n - 1] in ext.vals && ext.keys[n - 1] !in Seen(ext, n - 1)
    ensures ext.keys[..n] == ext.keys[..n - 1] + [ext.keys[n - 1]]
    ensures Seen(ext, n) == Seen(ext, n - 1) + {ext.keys[n - 1]}
  {
    assert ext.keys[n - 1] in ext.keys;
    assert ext.keys[n - 1] !in ext.keys[..n - 1];
    assert ext.keys[..n] == ext.keys[..n - 1] + [ext.keys[n - 1]];
  }

  /** Objects are equal when they have the same keys in order and the same fields. */
  lemma SameObject(r: Tree, s: Tree)
    requires r.Obj? && s.Obj? && r.keys == s.keys && r.vals.Keys == s.vals.Keys
    requires forall k :: k in r.vals ==> r.vals[k] == s.vals[k]
    ensures r == s
  {
    assert r.vals == s.vals;
  }

  lemma {:induction false} RoundCharacterised(base: Tree, ext: Tree, ks: seq<string>, seen: set<string>, key: string,
                                              done: Tree)
    requires base.Obj? && ext.Obj? && WellFormed(ext) && seen <= ext.vals.Keys
    requires key in ext.vals && key !in seen
    requires KeysDone(base, ks, done) && FieldsDone(base, ext, seen, done)
    ensures var r := MergeField(done, key, ext.vals[key]);
            && (r.Success? <==> !Clash(base, ext, key))
            && (r.Success? ==> KeysDone(base, ks + [key], r.value) && FieldsDone(base, ext, seen + {key}, r.value))
  {
    assert key in done.vals <==> key in base.vals;
    if !Clash(base, ext, key) {
      assert MergeField(done, key, ext.vals[key]) == Success(Put(done, key, FieldOf(base, ext, key)));
      KeysKept(base, ks, key, done, FieldOf(base, ext, key));
      FieldsKept(base, ext, seen, key, done);
    }
  }

  lemma {:induction false} KeysKept(base: Tree, ks: seq<string>, key: string, done: Tree, value: Tree)
    requires base.Obj? && KeysDone(base, ks, done) && (key in done.vals <==> key in base.vals)
    ensures KeysDone(base, ks + [key], Put(done, key, value))
  {
    NewKeysSnoc(ks, key, base.vals);
  }

  lemma {:induction false} FieldsKept(base: Tree, ext: Tree, seen: set<string>, key: string, done: Tree)
    requires base.Obj? && ext.Obj? && WellFormed(ext) && seen <= ext.vals.Keys
    requires key in ext.vals && key !in seen && !Clash(base, ext, key)
    requires FieldsDone(base, ext, seen, done)
    ensures FieldsDone(base, ext, seen + {key}, Put(done, key, FieldOf(base, ext, key)))
  {
  }

  /**
   * The meaning of MergeObj: it succeeds exactly when no shared key clashes; the result has
   * the base keys in order, then the new keys in order, and every key holds its field.
   */
  lemma ObjCharacterised(base: Tree, ext: Tree)
    requires base.Obj? && ext.Obj? && WellFormed(ext)
    ensures MergeObj(base, ext).Success? <==> forall k :: !Clash(base, ext, k)
    ensures MergeObj(base, ext).Success? ==>
              var r := MergeObj(base, ext).value;
              && r.keys == base.keys + NewKeys(ext.keys, base.vals)
              && r.vals.Keys == base.vals.Keys + ext.vals.Keys
              && forall k :: k in r.vals ==> r.vals[k] == FieldOf(base, ext, k)
  {
    var n := |ext.keys|;
    FieldsCharacterised(base, ext, n);
    assert ext.keys[..n] == ext.keys && Seen(ext, n) == ext.vals.Keys;
  }

  /** The keys alone. */
  lemma MergedKeys(base: Tree, ext: Tree)
    requires base.Obj? && ext.Obj? && WellFormed(ext) && MergeObj(base, ext).Success?
    ensures MergeObj(base, ext).value.keys == base.keys + NewKeys(ext.keys, base.vals)
    ensures MergeObj(base, ext).value.vals.Keys == base.vals.Keys + ext.vals.Keys
  {
    ObjCharacterised(base, ext);
  }

  lemma {:induction false} NewKeysDistinct(ks: seq<string>, have: map<string, Tree>)
    requires Distinct(ks)
    ensures Distinct(NewKeys(ks, have))
  {
    if ks != [] {
      var front := ks[..|ks| - 1];
      NewKeysDistinct(front, have);
      NewKeysMembers(front, have);
      assert ks[|ks| - 1] !in front;
    }
  }

  lemma {:induction false} NewKeysAppend(a: seq<string>, b: seq<string>, have: map<string, Tree>)
    ensures NewKeys(a + b, have) == NewKeys(a, have) + NewKeys(b, have)
  {
    if b == [] {
      assert a + b == a;
    } else {
      var c := b[..|b| - 1];
      assert (a + b)[..|a + b| - 1] == a + c;
      NewKeysAppend(a, c, have);
    }
  }

  /** Dropping keys in two rounds is dropping them at once. */
  lemma {:induction false} NewKeysTwice(ks: seq<string>, m: map<string, Tree>, n: map<string, Tree>,
                                        both: map<string, Tree>)
    requires both.Keys == m.Keys + n.Keys
    ensures NewKeys(NewKeys(ks, m), n) == NewKeys(ks, both)
  {
    if ks != [] {
      var front, k := ks[..|ks| - 1], ks[|ks| - 1];
      NewKeysTwice(front, m, n, both);
      if k !in m {
        var f := NewKeys(front, m);
        assert (f + [k])[..|f|] == f;
      }
    }
  }

  lemma NewKeysNone(ks: seq<string>, have: map<string, Tree>)
    requires forall k :: k in ks ==> k in have
    ensures NewKeys(ks, have) == []
  {
    if ks != [] {
      NewKeysNone(ks[..|ks| - 1], have);
    }
  }

  // ---------- named lists ----------

  /** The first loop does not fail at `item`. */
  ghost predicate ItemOk(item: Tree, ext: Tree)
    requires ext.List? && WellFormed(ext)
  {
    MergeItem(item, ext).Success?
  }

  /** What the first loop leaves in the place of `item`. */
  ghost function ItemOf(item: Tree, ext: Tree): Tree
    requires ext.List? && WellFormed(ext) && ItemOk(item, ext)
  {
    MergeItem(item, ext).value
  }

  lemma {:induction false} MatchedCharacterised(base: seq<Tree>, ext: Tree, n: nat)
    requires ext.List? && WellFormed(ext) && n <= |base|
    ensures MergeMatched(base, ext, n).Success? <==> forall i :: 0 <= i < n ==> ItemOk(base[i], ext)
    ensures MergeMatched(base, ext, n).Success? ==>
              var r := MergeMatched(base, ext, n).value;
              && (forall i :: 0 <= i < n ==> ItemOk(base[i], ext) && r[i] == ItemOf(base[i], ext))
              && (forall i :: n <= i < |base| ==> r[i] == base[i])
  {
    if n != 0 {
      MatchedCharacterised(base, ext, n - 1);
    }
  }

  /** The items of the extension that the second loop adds to `base`. */
  function NewItems(ext: seq<Tree>, base: seq<Tree>): seq<Tree>
    requires IsNamedList(ext)
  {
    if ext == [] then []
    else
      var rest := NewItems(ext[..|ext| - 1], base);
      var item := ext[|ext| - 1];
      if HasAttr(item, MARKER) || IndexOfName(base, NameOf(item)).Some? then rest else rest + [item]
  }

  lemma {:induction false} NewItemsMembers(ext: seq<Tree>, base: seq<Tree>)
    requires IsNamedList(ext)
    ensures forall x :: x in NewItems(ext, base) ==>
              x in ext && !HasAttr(x, MARKER) && HasAttr(x, NAME) && IndexOfName(base, NameOf(x)).None?
  {
    if ext != [] {
      var front, item := ext[..|ext| - 1], ext[|ext| - 1];
      NewItemsMembers(front, base);
      assert ext == front + [item];
      assert HasAttr(item, NAME) || HasAttr(item, MARKER);
    }
  }

  predicate AllNamed(items: seq<Tree>) {
    forall i :: 0 <= i < |items| ==> HasAttr(items[i], NAME)
  }

  /** A name is looked up in a longer list first among the old items, then among the added ones. */
  lemma {:induction false} IndexInAppend(a: seq<Tree>, b: seq<Tree>, name: Tree)
    ensures IndexOfName(a + b, name) ==
              if IndexOfName(a, name).Some? then IndexOfName(a, name)
              else if IndexOfName(b, name).Some? then Some(|a| + IndexOfName(b, name).value)
              else None
  {
    if a == [] {
      assert a + b == b;
    } else {
      assert (a + b)[0] == a[0] && (a + b)[1..] == a[1..] + b;
      IndexInAppend(a[1..], b, name);
    }
  }

  /**
   * The second loop searches the list it is growing, yet with unique extension names
   * it adds exactly the items whose name the list had not at the start.
   */
  lemma {:induction false} AppendCharacterised(base: seq<Tree>, ext: seq<Tree>, n: nat)
    requires IsNamedList(ext) && UniqueNames(ext) && n <= |ext|
    requires AnyNamed(ext) ==> AllNamed(base)
    requires forall i :: 0 <= i < |ext| && HasAttr(ext[i], MARKER) ==> !HasAttr(ext[i], NAME)
    ensures AppendNew(base, ext, n) == Success(base + NewItems(ext[..n], base))
  {
    if n == 0 {
      assert base + NewItems(ext[..0], base) == base;
    } else {
      AppendCharacterised(base, ext, n - 1);
      var front, item := ext[..n - 1], ext[n - 1];
      assert ext[..n][..n - 1] == front && ext[..n][n - 1] == item;
      AddedAreOthers(ext, n - 1, base);
      NewItemsMembers(front, base);
      AppendRound(base, NewItems(front, base), item);
    }
  }

  /** The round for `item`, which is no namesake of the items added before. */
  lemma {:induction false} AppendRound(base: seq<Tree>, added: seq<Tree>, item: Tree)
    requires HasAttr(item, NAME) || HasAttr(item, MARKER)
    requires !HasAttr(item, MARKER) ==> AllNamed(base) && IndexOfName(added, NameOf(item)).None?
    requires AllNamed(added)
    ensures AppendItem(base + added, item) ==
              if HasAttr(item, MARKER) || IndexOfName(base, NameOf(item)).Some? then Success(base + added)
              else Success(base + (added + [item]))
  {
    if !HasAttr(item, MARKER) {
      IndexInAppend(base, added, NameOf(item));
      assert base + (added + [item]) == base + added + [item];
    }
  }

  lemma AddedAreOthers(ext: seq<Tree>, n: nat, base: seq<Tree>)
    requires IsNamedList(ext) && UniqueNames(ext) && n < |ext|
    ensures !HasAttr(ext[n], MARKER) ==> IndexOfName(NewItems(ext[..n], base), NameOf(ext[n])).None?
  {
    var added := NewItems(ext[..n], base);
    NewItemsMembers(ext[..n], base);
    forall i | 0 <= i < |added| && HasAttr(ext[n], NAME) ensures NameOf(added[i]) != NameOf(ext[n]) {
      assert added[i] in added;
      var j :| 0 <= j < n && ext[..n][j] == added[i];
    }
  }

  // ---------- well-formedness ----------

  /** The key list of a merged object has no repetition and lists exactly the merged keys. */
  lemma MergedKeysDistinct(base: Tree, ext: Tree)
    requires base.Obj? && ext.Obj? && WellFormed(base) && WellFormed(ext)
    ensures Distinct(base.keys + NewKeys(ext.keys, base.vals))
    ensures forall k :: k in base.keys + NewKeys(ext.keys, base.vals) <==> k in base.vals || k in ext.vals
  {
    var added := NewKeys(ext.keys, base.vals);
    NewKeysMembers(ext.keys, base.vals);
    NewKeysDistinct(ext.keys, base.vals);
    var all := base.keys + added;
    forall i, j | 0 <= i < j < |all| ensures all[i] != all[j] {
      if i < |base.keys| <= j {
        assert all[i] in base.keys && all[j] in added;
      }
    }
  }

  lemma {:induction false} MergeKeepsWellFormed(key: string, x: Tree, y: Tree)
    requires WellFormed(x) && WellFormed(y) && MergeValue(key, x, y).Success?
    ensures WellFormed(MergeValue(key, x, y).value)
    decreases y, 2
  {
    if x.Obj? && y.Obj? {
      ObjKeepsWellFormed(x, y);
    } else if x.List? && y.List? {
      ListKeepsWellFormed(key, x, y);
    }
  }

  lemma {:induction false} ObjKeepsWellFormed(x: Tree, y: Tree)
    requires x.Obj? && y.Obj?
    requires WellFormed(x) && WellFormed(y) && MergeObj(x, y).Success?
    ensures WellFormed(MergeObj(x, y).value)
    decreases y, 0
  {
    ObjCharacterised(x, y);
    MergedKeysDistinct(x, y);
    var r := MergeObj(x, y).value;
    forall k | k in r.vals ensures WellFormed(r.vals[k]) {
      assert r.vals[k] == FieldOf(x, y, k);
      if k in x.vals && k in y.vals {
        assert !Clash(x, y, k);
        MergeKeepsWellFormed(k, x.vals[k], y.vals[k]);
      }
    }
  }

  lemma {:induction false} ListKeepsWellFormed(key: string, x: Tree, y: Tree)
    requires x.List? && y.List?
    requires WellFormed(x) && WellFormed(y) && MergeList(key, x, y).Success?
    ensures WellFormed(MergeList(key, x, y).value)
    decreases y, 1
  {
    if IsNamedList(x.items) && IsNamedList(y.items) && MergeFlag(key, y.items).value {
      MatchedCharacterised(x.items, y, |x.items|);
      var m := MergeMatched(x.items, y, |x.items|).value;
      forall i | 0 <= i < |m| ensures WellFormed(m[i]) {
        MatchKeepsWellFormed(x.items[i], y);
      }
      AppendFrom(m, y.items, |y.items|);
      var r := MergeList(key, x, y).value.items;
      forall i | 0 <= i < |r| ensures WellFormed(r[i]) {
        assert r[i] in m || r[i] in y.items;
      }
    }
  }

  lemma {:induction false} MatchKeepsWellFormed(item: Tree, ext: Tree)
    requires ext.List? && WellFormed(ext) && WellFormed(item) && ItemOk(item, ext)
    ensures WellFormed(ItemOf(item, ext))
    decreases ext, 0
  {
    if AnyNamed(ext.items) {
      var at := IndexOfName(ext.items, NameOf(item));
      if at.Some? {
        assert ext.items[at.value] in ext.items;
        ObjKeepsWellFormed(item, ext.items[at.value]);
      }
    }
  }

  /** Whatever the second loop returns is made of items of the two lists. */
  lemma {:induction false} AppendFrom(base: seq<Tree>, ext: seq<Tree>, n: nat)
    requires IsNamedList(ext) && n <= |ext| && AppendNew(base, ext, n).Success?
    ensures forall x :: x in AppendNew(base, ext, n).value ==> x in base || x in ext
  {
    if n != 0 {
      AppendFrom(base, ext, n - 1);
    }
  }
}
