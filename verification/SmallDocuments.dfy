/** Documents of strings and one dictionary of one entry: how they merge, and what one of them sees of another. */
module SmallDocuments {
  import opened Results
  import opened Trees
  import opened Merge
  import opened MergeFacts
  import opened YesNo
  import opened Layering
  import opened SharedNodes
  import opened SharedMerge
  import opened DefaultMerger

  const EXTRA := "extra"
  const ENTRY := "entry"

  function Extra(s: Scalar): Tree {
    Obj([ENTRY], map[ENTRY := Leaf(s)])
  }

  // ---------- on values ----------

  /** The scalar under "extra". */
  function EntryOf(t: Tree): Option<Scalar> {
    if HasAttr(t, EXTRA) && HasAttr(t.vals[EXTRA], ENTRY) && t.vals[EXTRA].vals[ENTRY].Leaf? then
      Some(t.vals[EXTRA].vals[ENTRY].scalar)
    else None
  }

  ghost predicate SmallTree(t: Tree) {
    && t.Obj? && WellFormed(t)
    && (forall k :: k in t.vals && k != EXTRA ==> t.vals[k].Leaf? && t.vals[k].scalar.StrV?)
    && (EXTRA in t.vals ==> EntryOf(t).Some? && t.vals[EXTRA] == Extra(EntryOf(t).value))
  }

  lemma MergeEntries(a: Scalar, b: Scalar)
    requires SameType(a, b)
    ensures WellFormed(Extra(b)) && MergeObj(Extra(a), Extra(b)) == Success(Extra(b))
  {
    var x, y := Extra(a), Extra(b);
    assert MergeFields(x, y, 0) == Success(x);
    assert MergeField(x, ENTRY, Leaf(b)) == Success(Put(x, ENTRY, Leaf(b)));
    assert x.vals[ENTRY := Leaf(b)] == y.vals;
  }

  ghost predicate EntriesMeet(x: Tree, y: Tree) {
    EntryOf(x).Some? && EntryOf(y).Some? ==> SameType(EntryOf(x).value, EntryOf(y).value)
  }

  /** What a merge of small documents makes of a key. */
  lemma SmallField(x: Tree, y: Tree, k: string)
    requires SmallTree(x) && SmallTree(y) && EntriesMeet(x, y)
    ensures !Clash(x, y, k)
    ensures k != EXTRA && (k in x.vals || k in y.vals) ==>
              FieldOf(x, y, k).Leaf? && FieldOf(x, y, k).scalar.StrV?
    ensures k == EXTRA && (k in x.vals || k in y.vals) ==>
              FieldOf(x, y, k) == Extra(if k in y.vals then EntryOf(y).value else EntryOf(x).value)
  {
    hide MergeObj, WellFormed;
    if k == EXTRA && k in x.vals && k in y.vals {
      MergeEntries(EntryOf(x).value, EntryOf(y).value);
    }
  }

  lemma MergeSmallTrees(x: Tree, y: Tree)
    requires SmallTree(x) && SmallTree(y) && EntriesMeet(x, y)
    ensures var r := MergeObj(x, y);
            r.Success? && SmallTree(r.value) && EntryOf(r.value) == if EntryOf(y).Some? then EntryOf(y) else EntryOf(x)
  {
    hide MergeObj, Clash, FieldOf, WellFormed;
    forall k ensures !Clash(x, y, k) {
      SmallField(x, y, k);
    }
    ObjCharacterised(x, y);
    MergeKeepsWellFormed("", x, y);
    var r := MergeObj(x, y).value;
    forall k | k in r.vals
      ensures k != EXTRA ==> r.vals[k].Leaf? && r.vals[k].scalar.StrV?
      ensures k == EXTRA ==> r.vals[k] == Extra(if k in y.vals then EntryOf(y).value else EntryOf(x).value)
    {
      SmallField(x, y, k);
      assert r.vals[k] == FieldOf(x, y, k);
    }
  }

  lemma StampIsSmall(t: Tree, version: string)
    requires SmallTree(t)
    ensures SmallTree(Stamp(t, version)) && EntryOf(Stamp(t, version)) == EntryOf(t)
  {
    StampKeepsForm(t, version);
  }

  lemma SmallForm(t: Tree)
    requires SmallTree(t)
    ensures t.Obj? && WellFormed(t)
  {
  }

  // ---------- with identities ----------

  function ExtraOf(n: Node): Option<Node>
    requires n.Dict?
  {
    if EXTRA in n.vals then Some(n.vals[EXTRA]) else None
  }

  /** Strings, and under "extra" at most a dictionary of one entry. */
  ghost predicate Small(n: Node) {
    && n.Dict? && Formed(n) && Strings(n)
    && (EXTRA in n.vals ==> OneEntry(n.vals[EXTRA]))
  }

  ghost predicate OneEntry(n: Node) {
    n.Dict? && n.keys == [ENTRY] && n.vals.Keys == {ENTRY} && n.vals[ENTRY].Scal?
  }

  /** Two dictionaries of one entry that can be merged. */
  ghost predicate Fits(a: Option<Node>, b: Option<Node>) {
    && (a.Some? ==> OneEntry(a.value)) && (b.Some? ==> OneEntry(b.value))
    && (a.Some? && b.Some? ==> SameType(a.value.vals[ENTRY].scalar, b.value.vals[ENTRY].scalar))
  }

  /** What a merge leaves under "extra": the base's own dictionary written, or the extension's. */
  function Joined(a: Option<Node>, b: Option<Node>): Option<Node>
    requires a.Some? ==> a.value.Dict?
    requires b.Some? ==> b.value.Dict?
  {
    if b.None? then a else if a.None? then b else Some(Dict(a.value.id, a.value.keys, b.value.vals))
  }

  lemma OverEntries(a: Node, b: Node, call: Call)
    requires OneEntry(a) && OneEntry(b) && Formed(b) && SameType(a.vals[ENTRY].scalar, b.vals[ENTRY].scalar)
    ensures OverDict(a, b, call) == Success(Dict(a.id, a.keys, b.vals))
  {
    var y := b.vals[ENTRY];
    assert OverFields(a, b, 0, call) == Success(a);
    assert OverField(a, ENTRY, y, call) == Success(PutNode(a, ENTRY, y));
    assert a.vals[ENTRY := y] == b.vals;
    assert b.keys[0] == ENTRY;
  }

  /** Outside "extra" there are only strings. */
  ghost predicate Strings(n: Node)
    requires n.Dict?
  {
    forall k :: k in n.vals && k != EXTRA ==> n.vals[k].Scal? && n.vals[k].scalar.StrV?
  }

  lemma OverSmallField(done: Node, key: string, value: Node, call: Call)
    requires done.Dict? && Strings(done) && Formed(value)
    requires key != EXTRA ==> value.Scal? && value.scalar.StrV?
    requires key == EXTRA ==> OneEntry(value) && Fits(ExtraOf(done), Some(value))
    ensures var r := OverField(done, key, value, call);
            && r.Success? && r.value.id == done.id && Strings(r.value)
            && ExtraOf(r.value) == if key == EXTRA then Joined(ExtraOf(done), Some(value)) else ExtraOf(done)
  {
    if key == EXTRA && key in done.vals {
      OverEntries(done.vals[key], value, call);
    }
  }

  lemma {:induction false} OverSmallFields(x: Node, y: Node, n: nat, call: Call)
    requires Small(x) && Small(y) && n <= |y.keys| && Fits(ExtraOf(x), ExtraOf(y))
    ensures var r := OverFields(x, y, n, call);
            && r.Success? && r.value.id == x.id && Strings(r.value)
            && ExtraOf(r.value) == if EXTRA in y.keys[..n] then Joined(ExtraOf(x), ExtraOf(y)) else ExtraOf(x)
    decreases n
  {
    hide OverField;
    if n != 0 {
      OverSmallFields(x, y, n - 1, call);
      var done, key := OverFields(x, y, n - 1, call).value, y.keys[n - 1];
      FormedPart(y, key);
      FreshKey(y, n - 1);
      assert y.keys[..n] == y.keys[..n - 1] + [key];
      OverSmallField(done, key, y.vals[key], call);
    }
  }

  /** Merging small documents. */
  lemma OverSmall(x: Node, y: Node, call: Call)
    requires Small(x) && Small(y) && Fits(ExtraOf(x), ExtraOf(y))
    ensures var r := OverDict(x, y, call);
            && r.Success? && Small(r.value) && r.value.id == x.id
            && ExtraOf(r.value) == Joined(ExtraOf(x), ExtraOf(y))
  {
    hide OverFields;
    OverSmallFields(x, y, |y.keys|, call);
    OverKeepsForm(x, y, call);
    assert y.keys[..|y.keys|] == y.keys;
    FormedPart(y, EXTRA);
  }

  lemma SmallForms(n: Node)
    requires Small(n)
    ensures n.Dict? && Formed(n)
  {
  }

  lemma StampSmall(top: Node, version: string)
    requires Small(top)
    ensures var r := StampNode(top, version); Small(r) && r.id == top.id && ExtraOf(r) == ExtraOf(top)
  {
  }

  lemma NothingJoins(x: Node, y: Node)
    requires Small(x) && Small(y) && ExtraOf(x) == None
    ensures Fits(ExtraOf(x), ExtraOf(y)) && Joined(ExtraOf(x), ExtraOf(y)) == ExtraOf(y)
  {
  }

  lemma NothingMeets(x: Node, y: Node)
    requires Small(x) && Small(y) && ExtraOf(y) == None
    ensures Fits(ExtraOf(x), ExtraOf(y)) && Joined(ExtraOf(x), ExtraOf(y)) == ExtraOf(x)
  {
  }

  // ---------- what other documents see of a small document being written ----------

  lemma FindSmall(w: Node, o: Node)
    requires Small(w) && o.Dict? && !Same(o, w)
    ensures Find(w, o) == if ExtraOf(w).Some? && Same(o, ExtraOf(w).value) then ExtraOf(w) else None
  {
    FindSmallField(w, |w.keys|, o);
    assert w.keys[..|w.keys|] == w.keys;
    FormedPart(w, EXTRA);
  }

  lemma {:induction false} FindSmallField(w: Node, n: nat, o: Node)
    requires Small(w) && o.Dict? && n <= |w.keys|
    ensures FindField(w, n, o)
         == if EXTRA in w.keys[..n] && ExtraOf(w).Some? && Same(o, ExtraOf(w).value) then ExtraOf(w) else None
    decreases n
  {
    if n != 0 {
      FindSmallField(w, n - 1, o);
      var key := w.keys[n - 1];
      assert w.keys[..n] == w.keys[..n - 1] + [key];
      FormedPart(w, key);
      if key == EXTRA {
        FindEntry(w.vals[EXTRA], o);
      }
    }
  }

  lemma FindEntry(e: Node, o: Node)
    requires OneEntry(e) && o.Dict?
    ensures Find(e, o) == if Same(o, e) then Some(e) else None
  {
    assert FindField(e, 0, o) == None;
    assert Find(e.vals[ENTRY], o) == None;
    assert e.keys[0] == ENTRY;
  }

  /** A small document that does not hold `w` itself sees only what `w` has under "extra". */
  lemma SyncSmall(t: Node, w: Node)
    requires Small(t) && Small(w) && !Same(t, w)
    requires ExtraOf(w).Some? ==> !Same(t, ExtraOf(w).value)
    requires ExtraOf(t).Some? ==> !Same(ExtraOf(t).value, w)
    ensures var seen := ExtraOf(t).Some? && ExtraOf(w).Some? && Same(ExtraOf(t).value, ExtraOf(w).value);
            Sync(t, w) == if seen then Dict(t.id, t.keys, t.vals[EXTRA := w.vals[EXTRA]]) else t
  {
    FindSmall(w, t);
    var r := Sync(t, w);
    assert r == Dict(t.id, t.keys, r.vals) && r.vals.Keys == t.vals.Keys;
    if EXTRA in t.vals {
      FindSmall(w, t.vals[EXTRA]);
      SyncEntry(t.vals[EXTRA], w);
    }
    assert forall k :: k in t.vals && k != EXTRA ==> r.vals[k] == t.vals[k];
    var seen := ExtraOf(t).Some? && ExtraOf(w).Some? && Same(ExtraOf(t).value, ExtraOf(w).value);
    assert r.vals == if seen then t.vals[EXTRA := w.vals[EXTRA]] else t.vals;
  }

  lemma SyncEntry(e: Node, w: Node)
    requires OneEntry(e)
    ensures Sync(e, w) == if Find(w, e).Some? then Find(w, e).value else e
  {
    if Find(w, e).None? {
      assert Sync(e, w).vals == e.vals;
    }
  }


  /** A dictionary of one entry, as loaded. */
  function Entry(origin: Origin, s: Scalar): Node {
    Dict(Loaded(origin, [Key(EXTRA)]), [ENTRY], map[ENTRY := Scal(s)])
  }

  lemma LabelEntry(origin: Origin, s: Scalar)
    ensures Label(Extra(s), origin, [Key(EXTRA)]) == Entry(origin, s)
    ensures OneEntry(Entry(origin, s))
  {
    assert Label(Extra(s), origin, [Key(EXTRA)]).vals == Entry(origin, s).vals;
  }

  /** A small document as loaded. */
  lemma LabelSmall(t: Tree, origin: Origin)
    requires SmallTree(t)
    ensures var n := Label(t, origin, []);
            && Small(n) && n.id == Loaded(origin, []) && n.keys == t.keys && Erase(n) == t
            && ExtraOf(n) == if EntryOf(t).None? then None else Some(Entry(origin, EntryOf(t).value))
  {
    hide WellFormed;
    var n := Label(t, origin, []);
    EraseLabel(t, origin, []);
    assert n.vals.Keys == t.vals.Keys;
    assert [] + [Key(EXTRA)] == [Key(EXTRA)];
    if EXTRA in t.vals {
      LabelEntry(origin, EntryOf(t).value);
      assert n.vals[EXTRA] == Entry(origin, EntryOf(t).value);
    }
  }

  lemma EntriesFit(x: Origin, y: Origin, s: Scalar, s': Scalar)
    requires SameType(s, s')
    ensures Fits(Some(Entry(x, s)), Some(Entry(y, s')))
    ensures Joined(Some(Entry(x, s)), Some(Entry(y, s'))) == Some(Entry(x, s'))
  {
    LabelEntry(x, s);
    LabelEntry(y, s');
  }
}
