/**
 * Runs over input documents of which one, named 'default', is merged into others and shares its dictionary
 * with them.
 */
module SharedDefaults {
  import opened Results
  import opened Trees
  import opened Merge
  import opened YesNo
  import opened Layering
  import opened SharedNodes
  import opened SharedMerge
  import opened DefaultMerger
  import opened SharedLayering
  import opened SmallDocuments

  // ---------- documents known by their heads ----------

  /** What the search for 'default' documents and parents reads of a document. */
  datatype Head = Head(provider: string, kind: string, name: string, parent: Option<string>)

  function Text(s: string): Tree {
    Leaf(StrV(s))
  }

  predicate HeadIs(t: Tree, h: Head) {
    && HasAttr(t, PROVIDER) && t.vals[PROVIDER] == Text(h.provider)
    && HasAttr(t, KIND) && t.vals[KIND] == Text(h.kind)
    && HasAttr(t, NAME) && NameOf(t) == Text(h.name)
    && (HasAttr(t, BASED_ON) <==> h.parent.Some?)
    && (h.parent.Some? ==> t.vals[BASED_ON] == Text(h.parent.value))
  }

  ghost predicate HeadsAre(docs: seq<Tree>, heads: seq<Head>) {
    |docs| == |heads| && forall i :: 0 <= i < |docs| ==> HeadIs(docs[i], heads[i])
  }

  /** Strings that spell no boolean. */
  predicate PlainHead(h: Head) {
    && !SpellsBool(Text(h.provider)) && !SpellsBool(Text(h.kind)) && !SpellsBool(Text(h.name))
    && (h.parent.Some? ==> !SpellsBool(Text(h.parent.value)))
  }

  ghost predicate PlainHeads(heads: seq<Head>) {
    forall m :: 0 <= m < |heads| ==> PlainHead(heads[m])
  }

  lemma {:induction false} ConfigFound(docs: seq<Tree>, heads: seq<Head>, doc: Tree)
    requires HeadsAre(docs, heads) && HasAttr(doc, KIND)
    ensures ConfigAt(docs, doc).Success?
  {
    if docs != [] {
      ConfigFound(docs[1..], heads[1..], doc);
    }
  }

  /** The `f`-th document is the first named 'default' of its kind. */
  predicate FirstDefault(heads: seq<Head>, f: nat) {
    && f < |heads| && heads[f].name == "default"
    && forall m :: 0 <= m < f ==> heads[m].name != "default" || heads[m].kind != heads[f].kind
  }

  lemma {:induction false} FirstIsConfig(docs: seq<Tree>, heads: seq<Head>, f: nat, doc: Tree)
    requires HeadsAre(docs, heads) && FirstDefault(heads, f)
    requires HasAttr(doc, KIND) && doc.vals[KIND] == Text(heads[f].kind)
    ensures ConfigAt(docs, doc) == Success(Some(f))
  {
    assert HeadIs(docs[0], heads[0]);
    if f != 0 {
      FirstIsConfig(docs[1..], heads[1..], f - 1, doc);
    }
  }

  function Plain(h: Head): Tree {
    Obj([PROVIDER, KIND, NAME], map[PROVIDER := Text(h.provider), KIND := Text(h.kind), NAME := Text(h.name)])
  }

  function Based(h: Head): Tree {
    if h.parent.None? then Plain(h) else Put(Plain(h), BASED_ON, Text(h.parent.value))
  }

  function Doc(h: Head, s: Option<Scalar>): Tree {
    if s.None? then Based(h) else Put(Based(h), EXTRA, Extra(s.value))
  }

  lemma BasedForm(h: Head)
    ensures Based(h).Obj? && SmallTree(Based(h)) && HeadIs(Based(h), h)
    ensures Based(h).vals.Keys == {PROVIDER, KIND, NAME} + (if h.parent.Some? then {BASED_ON} else {})
    ensures EXTRA !in Based(h).vals
  {
    hide WellFormed, SmallTree;
    PlainIsSmall(h);
    if h.parent.Some? {
      PutText(Plain(h), BASED_ON, h.parent.value);
    }
  }

  lemma DocForm(h: Head, s: Option<Scalar>)
    ensures Doc(h, s).Obj? && SmallTree(Doc(h, s)) && WellFormed(Doc(h, s))
    ensures HeadIs(Doc(h, s), h) && EntryOf(Doc(h, s)) == s
    ensures forall k :: k in Doc(h, s).vals ==>
              k == PROVIDER || k == KIND || k == NAME || (k == BASED_ON && h.parent.Some?) || (k == EXTRA && s.Some?)
  {
    hide WellFormed, SmallTree, Based;
    BasedForm(h);
    if s.Some? {
      PutExtra(Based(h), s.value);
    }
    SmallForm(Doc(h, s));
  }

  lemma PlainIsSmall(h: Head)
    ensures SmallTree(Plain(h))
  {
  }

  lemma PutText(t: Tree, k: string, v: string)
    requires SmallTree(t) && k !in t.vals && k != EXTRA
    ensures SmallTree(Put(t, k, Text(v)))
  {
  }

  lemma PutExtra(t: Tree, s: Scalar)
    requires SmallTree(t) && EXTRA !in t.vals
    ensures SmallTree(Put(t, EXTRA, Extra(s)))
  {
    assert WellFormed(Extra(s));
  }

  /** The scalar the replacement leaves of one. */
  function After(s: Scalar): Scalar {
    if SpellsBool(Leaf(s)) then BoolV(s.s in YES_VALUES) else s
  }

  function Afterwards(s: Option<Scalar>): Option<Scalar> {
    if s.None? then None else Some(After(s.value))
  }

  lemma TextStays(s: string)
    requires !SpellsBool(Text(s))
    ensures NormaliseField(Text(s)) == Text(s)
  {
  }

  lemma ExtraNormalised(s: Scalar)
    ensures NormaliseField(Extra(s)) == Extra(After(s))
  {
    assert NormaliseField(Leaf(s)) == Leaf(After(s));
    assert Normalise(Extra(s)).vals == Extra(After(s)).vals;
  }

  lemma DocNormalised(h: Head, s: Option<Scalar>)
    requires PlainHead(h)
    ensures Normalise(Doc(h, s)) == Doc(h, Afterwards(s))
  {
    hide SpellsBool, WellFormed, SmallTree, After, Normalise, NormaliseField, EntryOf;
    var t, u := Doc(h, s), Doc(h, Afterwards(s));
    DocForm(h, s);
    assert t.keys == u.keys && t.vals.Keys == u.vals.Keys;
    forall k | k in t.vals ensures NormaliseField(t.vals[k]) == u.vals[k] {
      if k == EXTRA {
        ExtraNormalised(s.value);
      } else {
        TextStays(if k == PROVIDER then h.provider else if k == KIND then h.kind
                  else if k == NAME then h.name else h.parent.value);
      }
    }
    NormalisedAs(t, u);
  }

  lemma NormalisedAs(t: Tree, u: Tree)
    requires t.Obj? && u.Obj? && t.keys == u.keys && t.vals.Keys == u.vals.Keys
    requires forall k :: k in t.vals ==> NormaliseField(t.vals[k]) == u.vals[k]
    ensures Normalise(t) == u
  {
    assert Normalise(t).vals == u.vals;
  }

  function DocNode(h: Head, s: Option<Scalar>, turn: nat): Node {
    Label(Doc(h, s), Origin(turn, None), [])
  }

  /** The dictionary an input document was loaded with under "extra". */
  function EntryIn(turn: nat, s: Scalar): Node {
    Entry(Origin(turn, None), s)
  }

  lemma DocNodeIs(h: Head, s: Option<Scalar>, turn: nat)
    ensures var n := DocNode(h, s, turn);
            && Small(n) && n.id == Loaded(Origin(turn, None), []) && n.keys == Doc(h, s).keys
            && Erase(n) == Doc(h, s)
            && ExtraOf(n) == if s.None? then None else Some(EntryIn(turn, s.value))
  {
    hide Doc, SmallTree, Small, EntryOf;
    DocForm(h, s);
    LabelSmall(Doc(h, s), Origin(turn, None));
  }

  lemma DocReplaced(h: Head, s: Option<Scalar>, turn: nat)
    requires PlainHead(h)
    ensures NormaliseNode(DocNode(h, s, turn)) == DocNode(h, Afterwards(s), turn)
  {
    hide Label, Normalise, Doc;
    DocNormalised(h, s);
    LabelNormalised(Doc(h, s), Origin(turn, None), []);
  }

  lemma LabelExtra(t: Tree, s: Scalar, origin: Origin)
    requires t.Obj? && EXTRA !in t.vals
    ensures Label(Put(t, EXTRA, Extra(s)), origin, []) == PutNode(Label(t, origin, []), EXTRA, Entry(origin, s))
  {
    hide Extra;
    LabelEntry(origin, s);
    assert [] + [Key(EXTRA)] == [Key(EXTRA)];
    assert Label(Put(t, EXTRA, Extra(s)), origin, []).vals == Label(t, origin, []).vals[EXTRA := Entry(origin, s)];
  }

  /** Writing the dictionary under "extra" gives the document with the other entry. */
  lemma DocRewritten(h: Head, s: Scalar, s': Scalar, turn: nat)
    ensures var n := DocNode(h, Some(s), turn);
            n.Dict? && Dict(n.id, n.keys, n.vals[EXTRA := EntryIn(turn, s')]) == DocNode(h, Some(s'), turn)
  {
    hide Label, Based;
    BasedForm(h);
    LabelExtra(Based(h), s, Origin(turn, None));
    LabelExtra(Based(h), s', Origin(turn, None));
    var n := Label(Based(h), Origin(turn, None), []);
    LabelSmall(Based(h), Origin(turn, None));
    assert n.vals[EXTRA := EntryIn(turn, s)][EXTRA := EntryIn(turn, s')] == n.vals[EXTRA := EntryIn(turn, s')];
  }

  // ---------- the setting ----------

  /**
   * The first 'default' document `f` of a kind has the entry `a` under "extra". A second entry `b` comes from the
   * document `o` of that kind, if there is such a position, or from the files that documents of the kind are based on.
   */
  datatype Setting = Setting(heads: seq<Head>, f: nat, o: nat, a: Scalar, b: Scalar, inherited: bool) {
    /** Whether the `m`-th document is of the kind. */
    predicate Of(m: nat)
      requires m < |heads| && f < |heads|
    {
      heads[m].kind == heads[f].kind
    }

    /** Whether the turn of the `m`-th document merges the second entry into the shared dictionary. */
    predicate Merges(m: nat)
      requires m < |heads| && f < |heads|
    {
      m == o || (inherited && Of(m) && heads[m].parent.Some?)
    }

    ghost predicate Proper() {
      && f < |heads| && FirstDefault(heads, f) && f != o && (o < |heads| ==> Of(o)) && PlainHeads(heads)
      && (o < |heads| || inherited ==> After(b) == b && SameType(a, b) && SameType(After(a), b))
    }

    /** The entry of the shared dictionary after `n` turns. */
    function Now(n: nat): Scalar
      requires n <= |heads| && f < |heads|
    {
      if n == 0 then a
      else if Merges(n - 1) then b
      else if n - 1 == f then After(Now(n - 1))
      else Now(n - 1)
    }

    /** What the `m`-th document has under "extra" while the shared dictionary has the entry `now`. */
    function Body(m: nat, now: Scalar): Option<Scalar> {
      if m == f then Some(now) else if m == o then Some(b) else None
    }

    function Docs(now: Scalar): (r: seq<Tree>)
      ensures |r| == |heads| && forall i :: 0 <= i < |r| ==> r[i] == Doc(heads[i], Body(i, now))
    {
      seq(|heads|, i requires 0 <= i < |heads| => Doc(heads[i], Body(i, now)))
    }
  }

  /** An entry the shared dictionary can have. */
  ghost predicate CanBe(c: Setting, now: Scalar) {
    now == c.a || now == After(c.a) || ((c.o < |c.heads| || c.inherited) && now == c.b)
  }

  lemma {:induction false} NowCanBe(c: Setting, n: nat)
    requires c.Proper() && n <= |c.heads|
    ensures CanBe(c, c.Now(n))
    decreases n
  {
    if n != 0 {
      NowCanBe(c, n - 1);
    }
  }

  lemma CanBeRead(c: Setting, now: Scalar)
    requires c.Proper() && CanBe(c, now)
    ensures CanBe(c, After(now)) && SameType(now, now)
    ensures c.o < |c.heads| || c.inherited ==> SameType(now, c.b)
  {
  }

  /** The second entry stays once it has been merged. */
  lemma {:induction false} SecondStays(c: Setting, m: nat, n: nat)
    requires c.Proper() && m < n <= |c.heads| && c.Merges(m)
    ensures c.Now(n) == c.b
    decreases n
  {
    if m < n - 1 {
      SecondStays(c, m, n - 1);
    }
  }
}
