/** What layering gives the documents of such a run. */
module SharedValues {
  import opened Results
  import opened Trees
  import opened Merge
  import opened MergeFacts
  import opened YesNo
  import opened Layering
  import opened SharedNodes
  import opened DefaultMerger
  import opened SharedLayering
  import opened SmallDocuments
  import opened SharedDefaults
  import opened SharedRuns
  import opened SharedTurns

  // ---------- what layering gives ----------

  lemma SelfMeets(t: Tree)
    ensures EntriesMeet(t, t)
  {
  }

  /** A small layer over a small document. */
  lemma StackSmall(files: seq<Tree>, version: string, merged: Tree, link: Link)
    requires SmallTree(merged) && SmallTree(link.doc) && EntriesMeet(merged, link.doc)
    ensures merged.Obj? && WellFormed(merged) && link.doc.Obj? && WellFormed(link.doc)
    ensures var r := Stack(files, version, merged, link);
            && r.Success? && SmallTree(r.value)
            && EntryOf(r.value) == if IsBase(files, link.at) || EntryOf(link.doc).None? then EntryOf(merged)
                                   else EntryOf(link.doc)
  {
    hide MergeObj, SmallTree, EntryOf, Stamp, IsBase, WellFormed;
    SmallForm(merged);
    SmallForm(link.doc);
    StampIsSmall(merged, version);
    var stamped := Stamp(merged, version);
    SmallForm(stamped);
    SelfMeets(stamped);
    StampMeets(merged, version, link.doc);
    MergeSmallTrees(stamped, if IsBase(files, link.at) then stamped else link.doc);
  }

  lemma StampMeets(merged: Tree, version: string, doc: Tree)
    requires merged.Obj? && EntriesMeet(merged, doc) && EntryOf(Stamp(merged, version)) == EntryOf(merged)
    ensures EntriesMeet(Stamp(merged, version), doc)
  {
  }

  /** The entry below the input document's own layer. */
  function Under(c: Setting, turn: nat, now: Scalar): Option<Scalar>
    requires turn < |c.heads| && c.f < |c.heads|
  {
    if c.Of(turn) then Some(now) else None
  }

  lemma DocSmall(c: Setting, now: Scalar, m: nat)
    requires m < |c.heads|
    ensures var t := c.Docs(now)[m];
            && t.Obj? && WellFormed(t) && SmallTree(t) && HeadIs(t, c.heads[m]) && EntryOf(t) == c.Body(m, now)
  {
    hide Doc, SmallTree, HeadIs, EntryOf, WellFormed;
    DocForm(c.heads[m], c.Body(m, now));
  }

  lemma NoEntryMeets(x: Tree, y: Tree)
    ensures EntryOf(x).None? || EntryOf(y).None? ==> EntriesMeet(x, y)
    ensures EntryOf(x).Some? && EntryOf(y).Some? && SameType(EntryOf(x).value, EntryOf(y).value) ==> EntriesMeet(x, y)
  {
  }

  lemma BaseValue(c: Setting, now: Scalar, turn: nat, root: Tree)
    requires c.Proper() && turn < |c.heads|
    requires HasAttr(root, KIND) && root.vals[KIND] == Text(c.heads[turn].kind)
    ensures Documents(FilesIn(c, c.heads[turn].kind)) && Documents(c.Docs(now))
    ensures var r := Base(FilesIn(c, c.heads[turn].kind), c.Docs(now), root);
            r.Success? && SmallTree(r.value) && EntryOf(r.value) == Under(c, turn, now)
  {
    hide MergeObj, ConfigAt, SmallTree, EntryOf, FilesIn, SelectByName, PlainHeads, After, SameType, HeadIs, WellFormed;
    var kind := c.heads[turn].kind;
    var files, docs := FilesIn(c, kind), c.Docs(now);
    FirstFile(c, kind);
    FileIs(c, kind, 0);
    DefaultFile(c, kind);
    DocsForm(c, now);
    ConfigFound(docs, c.heads, root);
    if c.Of(turn) {
      FirstIsConfig(docs, c.heads, c.f, root);
    }
    var config := ConfigAt(docs, root).value;
    if config.Some? {
      DocSmall(c, now, config.value);
      HeadKind(docs[config.value], c.heads[config.value]);
      NoEntryMeets(files[0], docs[config.value]);
      MergeSmallTrees(files[0], docs[config.value]);
    }
  }

  lemma HeadKind(t: Tree, h: Head)
    requires HeadIs(t, h)
    ensures HasAttr(t, PROVIDER) && HasAttr(t, KIND) && t.vals[KIND] == Text(h.kind) && HasAttr(t, NAME)
    ensures HasAttr(t, BASED_ON) <==> h.parent.Some?
    ensures HeadError(t).None?
  {
  }

  /** The layers up to a file based on no other. */
  lemma NamedLayersValue(c: Setting, now: Scalar, turn: nat, version: string, at: nat, fuel: nat)
    requires c.Proper() && CanBe(c, now) && turn < |c.heads|
    requires 0 < at < |FilesIn(c, c.heads[turn].kind)|
    ensures Documents(FilesIn(c, c.heads[turn].kind)) && Documents(c.Docs(now))
    ensures var files := FilesIn(c, c.heads[turn].kind);
            && files[at].Obj? && WellFormed(files[at])
            && var r := MergeParent(files, c.Docs(now), version, Link(files[at], Some(at)), fuel);
               && r.Some? && r.value.Success? && SmallTree(r.value.value)
               && EntryOf(r.value.value) == Under(c, turn, Passed(c, turn, 1, now))
  {
    hide Stack, Base, SmallTree, EntryOf, FilesIn, SelectByName, PlainHeads, After, SameType, HeadIs, WellFormed,
         IsBase;
    var kind := c.heads[turn].kind;
    var files := FilesIn(c, kind);
    FileIs(c, kind, at);
    HeadKind(files[at], FileHead(ParentNames(c.heads), kind, at));
    BaseValue(c, now, turn, files[at]);
    var base := Base(files, c.Docs(now), files[at]).value;
    CanBeRead(c, now);
    NoEntryMeets(base, files[at]);
    DefaultFile(c, kind);
    StackSmall(files, version, base, Link(files[at], Some(at)));
  }

  /** The layers up to a file. */
  lemma FileLayersValue(c: Setting, now: Scalar, turn: nat, version: string, at: nat, fuel: nat)
    requires c.Proper() && CanBe(c, now) && turn < |c.heads|
    requires at < |FilesIn(c, c.heads[turn].kind)| && (at == 0 ==> fuel != 0)
    ensures Documents(FilesIn(c, c.heads[turn].kind)) && Documents(c.Docs(now))
    ensures var files := FilesIn(c, c.heads[turn].kind);
            && files[at].Obj? && WellFormed(files[at])
            && var r := MergeParent(files, c.Docs(now), version, Link(files[at], Some(at)), fuel);
               && r.Some? && r.value.Success? && SmallTree(r.value.value)
               && EntryOf(r.value.value) == Under(c, turn, Passed(c, turn, 1, now))
  {
    hide Stack, Base, SmallTree, EntryOf, FilesIn, SelectByName, PlainHeads, After, SameType, WellFormed, IsBase;
    hide FoundAt, Parent, FirstDefault, ParentNames;
    var kind := c.heads[turn].kind;
    var files := FilesIn(c, kind);
    DocsForm(c, now);
    FileIs(c, kind, at);
    if at == 0 {
      ParentFound(c, kind, files[0], FileHead(ParentNames(c.heads), kind, 0));
      var p := FoundAt(ParentNames(c.heads), "parent");
      NamedLayersValue(c, now, turn, version, p, fuel - 1);
      var merged := MergeParent(files, c.Docs(now), version, Link(files[p], Some(p)), fuel - 1).value.value;
      NoEntryMeets(merged, files[0]);
      DefaultFile(c, kind);
      StackSmall(files, version, merged, Link(files[0], Some(0)));
    } else {
      NamedLayersValue(c, now, turn, version, at, fuel);
    }
  }

  /** The entry layering gives: the document's own, its parent's, or that of the 'default' document. */
  function LayeredWith(c: Setting, turn: nat, now: Scalar): Option<Scalar>
    requires turn < |c.heads| && c.f < |c.heads|
  {
    if !c.Of(turn) then None
    else if c.Body(turn, now).Some? then c.Body(turn, now)
    else if c.Merges(turn) then Some(c.b)
    else Some(now)
  }

  lemma LayersValue(c: Setting, now: Scalar, turn: nat, version: string, fuel: nat)
    requires c.Proper() && CanBe(c, now) && turn < |c.heads| && fuel >= 2
    ensures Documents(FilesIn(c, c.heads[turn].kind)) && Documents(c.Docs(now))
    ensures var files, doc := FilesIn(c, c.heads[turn].kind), c.Docs(now)[turn];
            var r := MergeParent(files, c.Docs(now), version, Link(doc, None), fuel);
            r.Some? && r.value.Success? && EntryOf(r.value.value) == LayeredWith(c, turn, now)
  {
    hide Stack, Base, SmallTree, EntryOf, FilesIn, SelectByName, PlainHeads, After, WellFormed, FoundAt, Parent, Doc;
    hide ParentNames, HeadIs, FirstDefault, SameType;
    var h := c.heads[turn];
    var files, docs := FilesIn(c, h.kind), c.Docs(now);
    var doc := docs[turn];
    DocsForm(c, now);
    DocSmall(c, now, turn);
    HeadKind(doc, h);
    CanBeRead(c, now);
    if h.parent.Some? {
      ParentOf(c, h.kind, doc, h, turn);
      var p := FoundAt(ParentNames(c.heads), h.parent.value);
      FileLayersValue(c, now, turn, version, p, fuel - 1);
      var merged := MergeParent(files, docs, version, Link(files[p], Some(p)), fuel - 1).value.value;
      TopMeets(c, turn, merged, doc, now, Passed(c, turn, 1, now));
      StackSmall(files, version, merged, Link(doc, None));
    } else {
      BaseValue(c, now, turn, doc);
      var base := Base(files, docs, doc).value;
      TopMeets(c, turn, base, doc, now, now);
      StackSmall(files, version, base, Link(doc, None));
    }
  }

  lemma ParentOf(c: Setting, kind: string, doc: Tree, h: Head, turn: nat)
    requires c.f < |c.heads| && HeadIs(doc, h) && h.parent.Some? && turn < |c.heads| && h == c.heads[turn]
    ensures h.parent.value == "default" || h.parent.value in ParentNames(c.heads)
    ensures var at := FoundAt(ParentNames(c.heads), h.parent.value);
            && at < |FilesIn(c, kind)|
            && Parent(FilesIn(c, kind), doc) == Success(Link(FilesIn(c, kind)[at], Some(at)))
  {
    hide HeadIs, FilesIn, Parent, FoundAt;
    ParentFound(c, kind, doc, h);
  }

  lemma TopMeets(c: Setting, turn: nat, merged: Tree, doc: Tree, now: Scalar, passed: Scalar)
    requires c.Proper() && CanBe(c, now) && turn < |c.heads|
    requires passed == now || passed == Passed(c, turn, 1, now)
    requires EntryOf(merged) == Under(c, turn, passed) && EntryOf(doc) == c.Body(turn, now)
    ensures EntriesMeet(merged, doc)
  {
    hide EntryOf, FirstDefault, PlainHeads;
  }

  /** The entry of the shared dictionary that the `m`-th document's layering reads. */
  function SeenAs(c: Setting, m: nat): Scalar {
    if c.f <= m then After(c.a) else c.a
  }

  lemma SeenDocs(c: Setting, m: nat)
    requires c.Proper() && m < |c.heads|
    ensures NormalisedUpTo(c.Docs(c.a), m + 1) == c.Docs(SeenAs(c, m)) && CanBe(c, SeenAs(c, m))
  {
    hide Doc, Normalise, After, PlainHead, SameType, FirstDefault;
    forall i | 0 <= i <= m
      ensures Normalise(Doc(c.heads[i], c.Body(i, c.a))) == Doc(c.heads[i], c.Body(i, After(c.a)))
    {
      DocNormalised(c.heads[i], c.Body(i, c.a));
    }
  }

  lemma LayeredEntry(version: string, c: Setting, m: nat)
    requires c.Proper() && m < |c.heads|
    ensures Loads(Loading(c))
    ensures var seen := NormalisedUpTo(c.Docs(c.a), m + 1);
            && Documents(seen) && seen[m].Obj? && WellFormed(seen[m])
            && var r := MergeOne(Loading(c), version, seen, seen[m]);
               r.Success? && EntryOf(r.value) == LayeredWith(c, m, SeenAs(c, m))
  {
    hide FilesOf, ParentNames, MergeParent, SmallTree, EntryOf, After, HeadIs, FirstDefault, SameType, Loading, CanBe;
    hide LayeredWith, Normalise, PlainHeads, WellFormed, Doc;
    var now := SeenAs(c, m);
    LoadingLoads(c);
    SeenDocs(c, m);
    DocsForm(c, now);
    var doc := c.Docs(now)[m];
    DocSmall(c, now, m);
    HeadKind(doc, c.heads[m]);
    TwoFiles(c, c.heads[m].kind);
    LayersValue(c, now, m, version, |FilesIn(c, c.heads[m].kind)|);
  }

  lemma {:induction false} LayeredEntries(version: string, c: Setting, n: nat)
    requires c.Proper() && n <= |c.heads|
    ensures Loads(Loading(c)) && Documents(c.Docs(c.a))
    ensures var r := LayeredUpTo(Loading(c), version, c.Docs(c.a), n);
            r.Success? && forall m :: 0 <= m < n ==> EntryOf(r.value[m]) == LayeredWith(c, m, SeenAs(c, m))
    decreases n
  {
    hide Loading, MergeOne, EntryOf, After, FirstDefault, SameType, PlainHeads, LayeredWith, SeenAs, Doc, Normalise;
    LoadingLoads(c);
    DocsForm(c, c.a);
    if n != 0 {
      LayeredEntries(version, c, n - 1);
      LayeredEntry(version, c, n - 1);
    }
  }
}
