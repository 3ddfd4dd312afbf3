/** Where the loop and the layering part, and exactly which input documents are safe from that. */
module SharedExactly {
  import opened Results
  import opened Trees
  import opened YesNo
  import opened Layering
  import opened SharedNodes
  import opened DefaultMerger
  import opened SharedLayering
  import opened SmallDocuments
  import opened SharedDefaults
  import opened SharedRuns
  import opened SharedTurns
  import opened SharedValues

  // ---------- what the loop leaves ----------

  /** The run over the documents of a setting. */
  function RunOf(version: string, c: Setting): Result<World, LayerError>
    requires c.f < |c.heads| && Loads(Loading(c)) && Documents(c.Docs(c.a))
  {
    Turns(Loading(c), version, c.Docs(c.a), |c.heads|)
  }

  function LayeredOf(version: string, c: Setting): Result<seq<Tree>, LayerError>
    requires c.f < |c.heads| && Loads(Loading(c)) && Documents(c.Docs(c.a))
  {
    LayeredUpTo(Loading(c), version, c.Docs(c.a), |c.heads|)
  }

  /**
   * One entry for all: every result of the kind of the 'default' document, and that input document itself,
   * show the entry written last, whereas layering gives each document its own entry, its parent's, or the one
   * of the 'default' document as it then stood.
   */
  lemma SharedEntry(version: string, c: Setting)
    requires c.Proper()
    ensures Loads(Loading(c)) && Documents(c.Docs(c.a))
    ensures var run, layered := RunOf(version, c), LayeredOf(version, c);
            && run.Success? && layered.Success?
            && EntryOf(Erase(run.value.docs[c.f])) == Some(c.Now(|c.heads|))
            && (forall m :: 0 <= m < |c.heads| ==>
                  && EntryOf(Erase(run.value.merged[m])) == (if c.Of(m) then Some(c.Now(|c.heads|)) else None)
                  && EntryOf(layered.value[m]) == LayeredWith(c, m, SeenAs(c, m)))
  {
    hide Turns, LayeredUpTo, Doc, EntryOf, Loading, PlainHeads, ResultIs, FirstDefault, LayeredWith, SeenAs, After;
    TurnsStand(version, c, |c.heads|);
    LayeredEntries(version, c, |c.heads|);
    var world, now := RunOf(version, c).value, c.Now(|c.heads|);
    DefaultShows(c.heads[c.f], c, now);
    forall m | 0 <= m < |c.heads|
      ensures EntryOf(Erase(world.merged[m])) == if c.Of(m) then Some(now) else None
    {
      ResultShows(world.merged[m], m, c.Of(m), c.f, now);
    }
  }

  lemma DefaultShows(h: Head, c: Setting, now: Scalar)
    ensures EntryOf(Erase(DocNode(h, c.Body(c.f, now), c.f))) == Some(now)
  {
    hide Small, Doc, SmallTree, EntryOf;
    DocNodeIs(h, Some(now), c.f);
    DocForm(h, Some(now));
  }

  lemma ResultShows(n: Node, m: nat, of: bool, f: nat, now: Scalar)
    requires ResultIs(n, m, of, f, now)
    ensures EntryOf(Erase(n)) == if of then Some(now) else None
  {
    EraseField(n, EXTRA);
    if of {
      EraseField(EntryIn(f, now), ENTRY);
    }
  }

  // ---------- inputs that show it ----------

  /** A document and, after it, the 'default' document of its kind, which has the entry "yes". */
  function YesAfterwards(): Setting {
    Setting([Head("aws", "k", "a", None), Head("aws", "k", "default", None)], 1, 2, StrV("yes"), NullV, false)
  }

  /**
   * A document layered before the 'default' document's own turn sees the yes/no replacement of that turn:
   * its result says True where its layering says "yes".
   */
  lemma EarlierResultRewritten(version: string)
    ensures var c := YesAfterwards();
            && Loads(Loading(c)) && Documents(c.Docs(c.a)) && RunOf(version, c).Success?
                 && LayeredOf(version, c).Success?
            && EntryOf(LayeredOf(version, c).value[0]) == Some(StrV("yes"))
            && EntryOf(Erase(RunOf(version, c).value.merged[0])) == Some(BoolV(true))
  {
    hide Turns, LayeredUpTo, EntryOf, Loading;
    var c := YesAfterwards();
    assert c.Proper();
    SharedEntry(version, c);
    assert c.Now(0) == c.Now(1) == StrV("yes") && c.Now(2) == BoolV(true);
  }

  /** The 'default' document with the entry 1, a document of its kind with the entry 2, and one without. */
  function OneTwoNone(): Setting {
    Setting([Head("aws", "k", "default", None), Head("aws", "k", "a", None), Head("aws", "k", "b", None)],
            0, 1, IntV(1), IntV(2), false)
  }

  /** The last write wins for the 'default' document and for every document layered over it. */
  lemma LastWriteWins(version: string)
    ensures var c := OneTwoNone();
            && Loads(Loading(c)) && Documents(c.Docs(c.a)) && RunOf(version, c).Success?
                 && LayeredOf(version, c).Success?
            && var run, layered := RunOf(version, c).value, LayeredOf(version, c).value;
               && EntryOf(layered[0]) == EntryOf(layered[2]) == Some(IntV(1))
               && EntryOf(Erase(run.merged[0])) == EntryOf(Erase(run.merged[2])) == Some(IntV(2))
               && EntryOf(Erase(run.docs[0])) == Some(IntV(2))
  {
    hide Turns, LayeredUpTo, EntryOf, Loading;
    var c := OneTwoNone();
    assert c.Proper();
    SharedEntry(version, c);
    SecondStays(c, 1, 3);
  }

  /** A 'default' document with the entry 1, based on a file with the entry 2. */
  function DefaultBased(): Setting {
    Setting([Head("aws", "k", "default", Some("parent"))], 0, 1, IntV(1), IntV(2), true)
  }

  /** The parent's entry wins over the document's own, because it is written into the document. */
  lemma ParentWins(version: string)
    ensures var c := DefaultBased();
            && Loads(Loading(c)) && Documents(c.Docs(c.a)) && RunOf(version, c).Success?
                 && LayeredOf(version, c).Success?
            && EntryOf(LayeredOf(version, c).value[0]) == Some(IntV(1))
            && EntryOf(Erase(RunOf(version, c).value.merged[0])) == Some(IntV(2))
  {
    hide Turns, LayeredUpTo, EntryOf, Loading;
    var c := DefaultBased();
    assert c.Proper();
    SharedEntry(version, c);
    SecondStays(c, 0, 1);
  }

  // ---------- the exact condition ----------

  /** Input documents with these heads; anything else may be in them. */
  ghost predicate Headed(docs: seq<Tree>, heads: seq<Head>) {
    Documents(docs) && HeadsAre(docs, heads)
  }

  /** Whatever the schema files and the rest of the documents are, the loop gives the layered versions. */
  ghost predicate Safe(version: string, heads: seq<Head>) {
    forall load: Loader, docs: seq<Tree> :: Loads(load) && KindFiles(load) && Headed(docs, heads) ==>
      Agrees(load, version, docs, |docs|)
  }

  /** Every document named 'default' is the only one of its kind and based on no other. */
  predicate DefaultsAlone(heads: seq<Head>) {
    && (forall i, j :: 0 <= i < |heads| && 0 <= j < |heads| && i != j && heads[j].name == "default" ==>
          heads[i].kind != heads[j].kind)
    && (forall j :: 0 <= j < |heads| && heads[j].name == "default" ==> heads[j].parent.None?)
  }

  lemma HeadKept(doc: Tree, h: Head)
    requires doc.Obj? && HeadIs(doc, h) && PlainHead(h)
    ensures HeadIs(Normalise(doc), h)
  {
    hide Normalise, NormaliseField, SpellsBool;
    NormalisedField(doc, PROVIDER);
    NormalisedField(doc, KIND);
    NormalisedField(doc, NAME);
    NormalisedField(doc, BASED_ON);
    TextStays(h.provider);
    TextStays(h.kind);
    TextStays(h.name);
    if h.parent.Some? {
      TextStays(h.parent.value);
    }
  }

  lemma SameKind(d: Tree, hd: Head, t: Tree, h: Head)
    requires HeadIs(d, hd) && HasAttr(t, KIND) && t.vals[KIND] == Text(h.kind) && IsDefault(d)
        && d.vals[KIND] == t.vals[KIND]
    ensures hd.name == "default" && hd.kind == h.kind
  {
  }

  /** The chain of a document stays within its kind, whose 'default' document can only be the document itself. */
  lemma {:induction false} ChainAlone(files: seq<Tree>, seen: seq<Tree>, heads: seq<Head>, turn: nat, link: Link,
                                      fuel: nat)
    requires HeadsAre(seen, heads) && DefaultsAlone(heads) && turn < |heads|
    requires HasAttr(link.doc, KIND) && link.doc.vals[KIND] == Text(heads[turn].kind)
    requires forall i :: 0 <= i < |files| ==> HasAttr(files[i], KIND) && files[i].vals[KIND] == Text(heads[turn].kind)
    requires if link.at.Some? then heads[turn].parent.Some? else link.doc == seen[turn]
    ensures MeetsNoOther(files, seen, turn, link, fuel)
    decreases fuel
  {
    hide ConfigAt, HeadIs, SelectByName;
    if HasAttr(link.doc, BASED_ON) {
      var parent := Parent(files, link.doc);
      if parent.Success? && fuel != 0 {
        if link.at.None? {
          HeadKind(seen[turn], heads[turn]);
        }
        ChainAlone(files, seen, heads, turn, parent.value, fuel - 1);
      }
    } else {
      var config := ConfigAt(seen, link.doc);
      if config.Success? && config.value.Some? {
        SameKind(seen[config.value.value], heads[config.value.value], link.doc, heads[turn]);
      }
    }
  }

  lemma HeadedAlone(load: Loader, docs: seq<Tree>, heads: seq<Head>, i: nat)
    requires Loads(load) && KindFiles(load) && Headed(docs, heads) && DefaultsAlone(heads) && i < |docs|
    requires PlainHeads(heads)
    ensures Alone(load, docs, i)
  {
    hide Normalise, PlainHead, HeadIs, DefaultsAlone, MeetsNoOther;
    var seen := NormalisedUpTo(docs, i + 1);
    forall m | 0 <= m < |docs| ensures HeadIs(seen[m], heads[m]) {
      HeadKept(docs[m], heads[m]);
    }
    HeadKind(seen[i], heads[i]);
    var files := load(seen[i].vals[PROVIDER], seen[i].vals[KIND]);
    ChainAlone(files, seen, heads, i, Link(seen[i], None), |files|);
  }

  lemma AloneIsSafe(version: string, heads: seq<Head>)
    requires DefaultsAlone(heads) && PlainHeads(heads)
    ensures Safe(version, heads)
  {
    hide Agrees, Turns, LayeredUpTo, Alone, HeadIs, DefaultsAlone, Loads, KindFiles;
    forall load: Loader, docs: seq<Tree> | Loads(load) && KindFiles(load) && Headed(docs, heads)
      ensures Agrees(load, version, docs, |docs|)
    {
      forall i | 0 <= i < |docs| ensures Alone(load, docs, i) {
        HeadedAlone(load, docs, heads, i);
      }
      RunIsLayering(load, version, docs, |docs|);
    }
  }

  /** A 'default' document whose dictionary takes a second entry: the loop and the layering part. */
  lemma SecondDisagrees(version: string, c: Setting, m: nat)
    requires c.Proper() && m < |c.heads| && c.Merges(m) && c.b != After(c.a)
    ensures !Safe(version, c.heads)
  {
    hide Turns, LayeredUpTo, EntryOf, Loading, PlainHeads, FirstDefault, After, SameType, Doc, KindFiles, Loads;
    SharedEntry(version, c);
    LoadingLoads(c);
    DocsForm(c, c.a);
    SecondStays(c, m, |c.heads|);
    var run := RunOf(version, c).value;
    assert EraseAll(run.merged)[c.f] == Erase(run.merged[c.f]);
    assert !Agrees(Loading(c), version, c.Docs(c.a), |c.heads|);
    assert Headed(c.Docs(c.a), c.heads);
  }

  lemma {:induction false} FirstOfKind(heads: seq<Head>, j: nat) returns (f: nat)
    requires j < |heads| && heads[j].name == "default"
    ensures FirstDefault(heads, f) && heads[f].kind == heads[j].kind
    decreases j
  {
    f := j;
    if !FirstDefault(heads, j) {
      var m :| 0 <= m < j && heads[m].name == "default" && heads[m].kind == heads[j].kind;
      f := FirstOfKind(heads, m);
    }
  }

  /**
   * The loop gives the layered versions, whatever else is in the documents and in the schema files of their
   * kinds, exactly when every document named 'default' is the only one of its kind and based on no other.
   */
  lemma SafeExactly(version: string, heads: seq<Head>)
    requires PlainHeads(heads)
    ensures Safe(version, heads) <==> DefaultsAlone(heads)
  {
    hide Safe, PlainHeads;
    if DefaultsAlone(heads) {
      AloneIsSafe(version, heads);
    } else if i, j :| 0 <= i < |heads| && 0 <= j < |heads| && i != j && heads[j].name == "default"
                      && heads[i].kind == heads[j].kind {
      var f := FirstOfKind(heads, j);
      var o := if f == i then j else i;
      SecondDisagrees(version, Setting(heads, f, o, IntV(1), IntV(2), false), o);
    } else {
      var j :| 0 <= j < |heads| && heads[j].name == "default" && heads[j].parent.Some?;
      SecondDisagrees(version, Setting(heads, j, |heads|, IntV(1), IntV(2), true), j);
    }
  }
}
