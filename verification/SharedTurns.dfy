/** The run over such documents, turn by turn, next to what layering gives each of them. */
module SharedTurns {
  import opened Results
  import opened Trees
  import opened Merge
  import opened YesNo
  import opened Layering
  import opened SharedNodes
  import opened SharedMerge
  import opened DefaultMerger
  import opened SharedLayering
  import opened SmallDocuments
  import opened SharedDefaults
  import opened SharedRuns

  // ---------- one turn, on documents with identities ----------

  /** Part way through a turn: the documents stand, and what is merged so far shows the shared entry. */
  ghost predicate StageStands(stage: Stage, c: Setting, turn: nat, now: Scalar) {
    && turn < |c.heads| && Standing(stage.world, c, now) && |stage.world.merged| == turn
    && ResultIs(stage.top, turn, c.Of(turn), c.f, now)
  }

  lemma StageStandsFits(stage: Stage, c: Setting, turn: nat, now: Scalar)
    requires StageStands(stage, c, turn, now)
    ensures StageFits(stage, stage.world) && |stage.world.docs| == |c.heads| && c.f < |c.heads|
  {
    hide ResultsAre;
    StandingFits(stage.world, c, now);
  }

  /** A merge whose result shows the shared entry as it then is. */
  lemma MergeStands(world: World, c: Setting, now: Scalar, x: Node, y: Node, call: Call, next: Scalar)
    requires Standing(world, c, now) && |world.merged| == call.turn < |c.heads|
    requires Small(x) && Small(y) && Fits(ExtraOf(x), ExtraOf(y)) && x.id == Loaded(Origin(call.turn, Some(0)), [])
    requires Joined(ExtraOf(x), ExtraOf(y)) == if c.Of(call.turn) then Some(EntryIn(c.f, next)) else None
    requires c.Of(call.turn) || next == now
    ensures Fit(world) && Formed(x) && Formed(y)
    ensures var r := MergeNode(world, x, y, call); r.Success? && StageStands(r.value, c, call.turn, next)
  {
    hide OverDict, Standing, Fits, EntryIn;
    SmallForms(x);
    SmallForms(y);
    StandingFits(world, c, now);
    OverSmall(x, y, call);
    var w := OverDict(x, y, call).value;
    WrittenStands(world, c, now, w, call.turn, c.Of(call.turn), next);
  }

  /** The heads of the documents, as long as they stand. */
  lemma StandingHeads(world: World, c: Setting, now: Scalar)
    requires Standing(world, c, now)
    ensures HeadsAre(EraseAll(world.docs), c.heads)
  {
    hide HeadIs, Doc, Small, ResultsAre, SmallTree, WellFormed;
    forall m | 0 <= m < |c.heads| ensures HeadIs(Erase(world.docs[m]), c.heads[m]) {
      DocNodeIs(c.heads[m], c.Body(m, now), m);
      DocForm(c.heads[m], c.Body(m, now));
    }
  }

  /** The files of a kind in the setting. */
  function FilesIn(c: Setting, kind: string): seq<Tree>
    requires c.f < |c.heads|
  {
    FilesOf(ParentNames(c.heads), kind, Inherited(c, kind))
  }

  /** A file as loaded in a turn. */
  lemma FileNodeIs(c: Setting, kind: string, turn: nat, at: nat)
    requires c.f < |c.heads| && at < |FilesIn(c, kind)|
    ensures Documents(FilesIn(c, kind))
    ensures var n := FileNode(FilesIn(c, kind), turn, at);
            && Small(n) && n.id == Loaded(Origin(turn, Some(at)), [])
            && ExtraOf(n) == if at == 0 || Inherited(c, kind).None? then None
                             else Some(Entry(Origin(turn, Some(at)), Inherited(c, kind).value))
  {
    hide Small, SmallTree, FilesOf, WellFormed, EntryOf, HeadIs;
    FilesForm(ParentNames(c.heads), kind, Inherited(c, kind));
    LabelSmall(FilesIn(c, kind)[at], Origin(turn, Some(at)));
  }

  lemma DefaultFile(c: Setting, kind: string)
    requires c.f < |c.heads|
    ensures SelectByName(FilesIn(c, kind), DEFAULT) == Success(Some(0))
    ensures forall at: nat :: IsBase(FilesIn(c, kind), Some(at)) <==> at == 0
  {
    hide FilesOf, SelectByName;
    FileFound(ParentNames(c.heads), kind, Inherited(c, kind), "default");
  }

  /** The base of a document of the kind has the shared dictionary, any other has none. */
  lemma BaseStands(world: World, c: Setting, now: Scalar, turn: nat, root: Tree)
    requires c.Proper() && Standing(world, c, now) && |world.merged| == turn < |c.heads|
    requires HasAttr(root, KIND) && root.vals[KIND] == Text(c.heads[turn].kind)
    ensures Fit(world) && Documents(FilesIn(c, c.heads[turn].kind))
    ensures var r := BaseNode(FilesIn(c, c.heads[turn].kind), world, turn, root);
            r.Success? && StageStands(r.value, c, turn, now)
  {
    hide MergeNode, ConfigAt, Small, EntryIn, Fits, FileNode, FilesIn, SelectByName, DocNode, PlainHeads, After,
         SameType;
    var kind := c.heads[turn].kind;
    var files, docs := FilesIn(c, kind), EraseAll(world.docs);
    StandingFits(world, c, now);
    StandingHeads(world, c, now);
    FirstFile(c, kind);
    FileNodeIs(c, kind, turn, 0);
    DefaultFile(c, kind);
    ConfigFound(docs, c.heads, root);
    if c.Of(turn) {
      FirstIsConfig(docs, c.heads, c.f, root);
    }
    var config := ConfigAt(docs, root).value;
    if config.Some? {
      assert HeadIs(docs[config.value], c.heads[config.value]);
      ConfigStands(world, c, now, turn, FileNode(files, turn, 0), config.value);
    }
  }

  /** The 'default' document of the turn's kind merged into the file. */
  lemma ConfigStands(world: World, c: Setting, now: Scalar, turn: nat, file: Node, d: nat)
    requires c.Proper() && Standing(world, c, now) && |world.merged| == turn < |c.heads| && d < |c.heads|
    requires c.heads[d].kind == c.heads[turn].kind && (c.Of(turn) ==> d == c.f)
    requires Small(file) && file.id == Loaded(Origin(turn, Some(0)), []) && ExtraOf(file) == None
    ensures Fit(world) && d < |world.docs| && world.docs[d].Dict? && Formed(world.docs[d]) && Formed(file)
    ensures var r := MergeNode(world, file, world.docs[d], Call(turn, 0));
            r.Success? && StageStands(r.value, c, turn, now)
  {
    hide MergeNode, Small, EntryIn, Fits, DocNode, PlainHeads, After, SameType, ResultsAre, FirstDefault;
    DocNodeIs(c.heads[d], c.Body(d, now), d);
    NothingJoins(file, world.docs[d]);
    MergeStands(world, c, now, file, world.docs[d], Call(turn, 0), now);
  }

  lemma FirstFile(c: Setting, kind: string)
    requires c.f < |c.heads|
    ensures |FilesIn(c, kind)| == |ParentNames(c.heads)| + 1
  {
  }

  /** The entry after a file has been merged. */
  function Passed(c: Setting, turn: nat, at: nat, now: Scalar): Scalar
    requires turn < |c.heads| && c.f < |c.heads|
  {
    if at != 0 && Inherited(c, c.heads[turn].kind).Some? then c.b else now
  }

  /** The next file: a parent's entry goes into the shared dictionary; the 'default' file itself adds nothing. */
  lemma FileStands(c: Setting, stage: Stage, turn: nat, now: Scalar, version: string, at: nat, merge: nat)
    requires c.Proper() && CanBe(c, now) && StageStands(stage, c, turn, now)
    requires at < |FilesIn(c, c.heads[turn].kind)|
    ensures Documents(FilesIn(c, c.heads[turn].kind)) && StageFits(stage, stage.world) && turn < |stage.world.docs|
    ensures var r := StackNode(FilesIn(c, c.heads[turn].kind), stage, turn, version, Some(at), merge);
            r.Success? && StageStands(r.value, c, turn, Passed(c, turn, at, now))
  {
    hide MergeNode, Small, Fits, Entry, FilesIn, FileNode, Standing, IsBase, StampNode, After, FirstDefault, SameType;
    StageStandsFits(stage, c, turn, now);
    var files := FilesIn(c, c.heads[turn].kind);
    CanBeRead(c, now);
    DefaultFile(c, c.heads[turn].kind);
    FileNodeIs(c, c.heads[turn].kind, turn, at);
    var top := StampNode(stage.top, version);
    StampSmall(stage.top, version);
    var layer := if at == 0 then top else FileNode(files, turn, at);
    var next := Passed(c, turn, at, now);
    if ExtraOf(layer).None? {
      NothingMeets(top, layer);
    } else if at == 0 {
      EntriesFit(Origin(c.f, None), Origin(c.f, None), now, now);
    } else {
      EntriesFit(Origin(c.f, None), Origin(turn, Some(at)), now, c.b);
    }
    MergeStands(stage.world, c, now, top, layer, Call(turn, merge), next);
  }

  /** The entry after the input document has been merged. */
  function Topped(c: Setting, turn: nat, now: Scalar): Scalar {
    if turn == c.o then c.b else now
  }

  lemma TopStands(c: Setting, stage: Stage, turn: nat, now: Scalar, version: string, merge: nat)
    requires c.Proper() && CanBe(c, now) && StageStands(stage, c, turn, now)
    ensures Documents(FilesIn(c, c.heads[turn].kind)) && StageFits(stage, stage.world) && turn < |stage.world.docs|
    ensures var r := StackNode(FilesIn(c, c.heads[turn].kind), stage, turn, version, None, merge);
            r.Success? && StageStands(r.value, c, turn, Topped(c, turn, now))
  {
    hide MergeNode, Small, Fits, Entry, FilesIn, FileNode, ResultsAre, StampNode, DocNode, After, FirstDefault,
         SameType;
    StageStandsFits(stage, c, turn, now);
    CanBeRead(c, now);
    FirstFile(c, c.heads[turn].kind);
    FileNodeIs(c, c.heads[turn].kind, turn, 0);
    var top, s := StampNode(stage.top, version), c.Body(turn, now);
    StampSmall(stage.top, version);
    DocNodeIs(c.heads[turn], s, turn);
    var doc := stage.world.docs[turn];
    if s.Some? {
      EntriesFit(Origin(c.f, None), Origin(turn, None), now, s.value);
    } else {
      NothingMeets(top, doc);
    }
    MergeStands(stage.world, c, now, top, doc, Call(turn, merge), Topped(c, turn, now));
  }

  /** What a document is based on is found among the files. */
  lemma ParentFound(c: Setting, kind: string, doc: Tree, h: Head)
    requires c.f < |c.heads| && HeadIs(doc, h) && h.parent.Some?
    requires h.parent.value == "default" || h.parent.value in ParentNames(c.heads)
    ensures var at := FoundAt(ParentNames(c.heads), h.parent.value);
            && at < |FilesIn(c, kind)|
            && Parent(FilesIn(c, kind), doc) == Success(Link(FilesIn(c, kind)[at], Some(at)))
            && (at == 0 <==> h.parent.value == "default")
  {
    hide SelectByName, FilesOf;
    FirstFile(c, kind);
    FileFound(ParentNames(c.heads), kind, Inherited(c, kind), h.parent.value);
  }

  lemma FileIs(c: Setting, kind: string, at: nat)
    requires c.f < |c.heads| && at < |FilesIn(c, kind)|
    ensures Documents(FilesIn(c, kind)) && FilesIn(c, kind)[at].Obj? && WellFormed(FilesIn(c, kind)[at])
    ensures at <= |ParentNames(c.heads)|
    ensures SmallTree(FilesIn(c, kind)[at]) && HeadIs(FilesIn(c, kind)[at], FileHead(ParentNames(c.heads), kind, at))
    ensures EntryOf(FilesIn(c, kind)[at]) == if at == 0 then None else Inherited(c, kind)
  {
    hide SmallTree, FilesOf, HeadIs, EntryOf, WellFormed;
    FirstFile(c, kind);
    FilesForm(ParentNames(c.heads), kind, Inherited(c, kind));
  }

  /** The layers up to a file based on no other. */
  lemma NamedLayersStand(world: World, c: Setting, now: Scalar, turn: nat, version: string, at: nat, fuel: nat)
    requires c.Proper() && CanBe(c, now) && Standing(world, c, now) && |world.merged| == turn < |c.heads|
    requires 0 < at < |FilesIn(c, c.heads[turn].kind)|
    ensures Fit(world) && Documents(FilesIn(c, c.heads[turn].kind)) && turn < |world.docs|
    ensures var files := FilesIn(c, c.heads[turn].kind);
            var r := LayerNode(files, world, turn, version, Link(files[at], Some(at)), fuel);
            r.Some? && r.value.Success? && StageStands(r.value.value, c, turn, Passed(c, turn, 1, now))
  {
    hide Small, SmallTree, FilesIn, BaseNode, StackNode, Standing, Entry, EntryOf, WellFormed, After, StageStands;
    hide FirstDefault, SameType, PlainHeads, ParentNames;
    StandingFits(world, c, now);
    var kind := c.heads[turn].kind;
    FileIs(c, kind, at);
    BaseStands(world, c, now, turn, FilesIn(c, kind)[at]);
    var stage := BaseNode(FilesIn(c, kind), world, turn, FilesIn(c, kind)[at]).value;
    FileStands(c, stage, turn, now, version, at, fuel + 1);
  }

  /** The layers up to a file: the 'default' file has the file 'parent' below it. */
  lemma FileLayersStand(world: World, c: Setting, now: Scalar, turn: nat, version: string, at: nat, fuel: nat)
    requires c.Proper() && CanBe(c, now) && Standing(world, c, now) && |world.merged| == turn < |c.heads|
    requires at < |FilesIn(c, c.heads[turn].kind)| && (at == 0 ==> fuel != 0)
    ensures Fit(world) && Documents(FilesIn(c, c.heads[turn].kind)) && turn < |world.docs|
    ensures var files := FilesIn(c, c.heads[turn].kind);
            var r := LayerNode(files, world, turn, version, Link(files[at], Some(at)), fuel);
            r.Some? && r.value.Success? && StageStands(r.value.value, c, turn, Passed(c, turn, 1, now))
  {
    hide Small, SmallTree, FilesIn, BaseNode, StackNode, Standing, Entry, EntryOf, WellFormed, After, StageStands,
         Parent;
    hide FirstDefault, SameType, PlainHeads, ParentNames, FoundAt;
    StandingFits(world, c, now);
    var kind := c.heads[turn].kind;
    var files := FilesIn(c, kind);
    if at == 0 {
      FileIs(c, kind, 0);
      ParentFound(c, kind, files[0], FileHead(ParentNames(c.heads), kind, 0));
      var p := FoundAt(ParentNames(c.heads), "parent");
      NamedLayersStand(world, c, now, turn, version, p, fuel - 1);
      var stage := LayerNode(files, world, turn, version, Link(files[p], Some(p)), fuel - 1).value.value;
      PassedCanBe(c, turn, now);
      FileStands(c, stage, turn, Passed(c, turn, 1, now), version, 0, fuel + 1);
    } else {
      NamedLayersStand(world, c, now, turn, version, at, fuel);
    }
  }

  lemma PassedCanBe(c: Setting, turn: nat, now: Scalar)
    requires c.Proper() && CanBe(c, now) && turn < |c.heads|
    ensures CanBe(c, Passed(c, turn, 1, now))
  {
  }

  /** The shared entry after a turn that has it as `now` once its document has been replaced. */
  function Next(c: Setting, turn: nat, now: Scalar): Scalar
    requires turn < |c.heads| && c.f < |c.heads|
  {
    if c.Merges(turn) then c.b else now
  }

  lemma BasedLayersStand(world: World, c: Setting, now: Scalar, turn: nat, version: string, doc: Tree, fuel: nat)
    requires c.Proper() && CanBe(c, now) && Standing(world, c, now) && |world.merged| == turn < |c.heads|
    requires HeadIs(doc, c.heads[turn]) && c.heads[turn].parent.Some? && fuel >= 2
    ensures Fit(world) && Documents(FilesIn(c, c.heads[turn].kind)) && turn < |world.docs|
    ensures var r := LayerNode(FilesIn(c, c.heads[turn].kind), world, turn, version, Link(doc, None), fuel);
            r.Some? && r.value.Success? && StageStands(r.value.value, c, turn, Next(c, turn, now))
  {
    hide Small, FilesIn, BaseNode, StackNode, Standing, Entry, WellFormed, After, StageStands, Parent, ParentNames;
    hide FirstDefault, SameType, PlainHeads;
    StandingFits(world, c, now);
    var h := c.heads[turn];
    ParentFound(c, h.kind, doc, h);
    var p := FoundAt(ParentNames(c.heads), h.parent.value);
    FileLayersStand(world, c, now, turn, version, p, fuel - 1);
    var stage := LayerNode(FilesIn(c, h.kind), world, turn, version, Link(FilesIn(c, h.kind)[p], Some(p)), fuel - 1);
    PassedCanBe(c, turn, now);
    TopStands(c, stage.value.value, turn, Passed(c, turn, 1, now), version, fuel + 1);
  }

  /** All layers of a turn. */
  lemma LayersStand(world: World, c: Setting, now: Scalar, turn: nat, version: string, doc: Tree, fuel: nat)
    requires c.Proper() && CanBe(c, now) && Standing(world, c, now) && |world.merged| == turn < |c.heads|
    requires HeadIs(doc, c.heads[turn]) && fuel >= 2
    ensures Fit(world) && Documents(FilesIn(c, c.heads[turn].kind)) && turn < |world.docs|
    ensures var r := LayerNode(FilesIn(c, c.heads[turn].kind), world, turn, version, Link(doc, None), fuel);
            r.Some? && r.value.Success? && StageStands(r.value.value, c, turn, Next(c, turn, now))
  {
    hide Small, FilesIn, BaseNode, StackNode, Standing, Entry, WellFormed, After, StageStands, Parent;
    StandingFits(world, c, now);
    if c.heads[turn].parent.Some? {
      BasedLayersStand(world, c, now, turn, version, doc, fuel);
    } else {
      BaseStands(world, c, now, turn, doc);
      var stage := BaseNode(FilesIn(c, c.heads[turn].kind), world, turn, doc).value;
      TopStands(c, stage, turn, now, version, fuel + 1);
    }
  }

  lemma ResultAdded(stage: Stage, c: Setting, turn: nat, now: Scalar)
    requires StageStands(stage, c, turn, now)
    ensures Standing(World(stage.world.docs, stage.world.merged + [stage.top]), c, now)
  {
    hide ResultIs, DocNode;
  }

  lemma TurnsDoc(world: World, c: Setting, now: Scalar, turn: nat)
    requires Standing(world, c, now) && turn < |c.heads|
    ensures turn < |world.docs| && HeadIs(Erase(world.docs[turn]), c.heads[turn])
  {
    hide Small, ResultsAre, HeadIs, Doc, SmallTree, WellFormed;
    DocNodeIs(c.heads[turn], c.Body(turn, now), turn);
    DocForm(c.heads[turn], c.Body(turn, now));
  }

  /** One turn: the replacement, then the layers. */
  lemma TurnStands(version: string, world: World, c: Setting, now: Scalar, turn: nat)
    requires c.Proper() && CanBe(c, now) && Standing(world, c, now) && |world.merged| == turn < |c.heads|
    ensures Loads(Loading(c)) && Fit(world) && turn < |world.docs|
    ensures var r := Turn(Loading(c), version, world, turn);
            && r.Success? && |r.value.merged| == turn + 1
            && Standing(r.value, c, Next(c, turn, Read(c, turn, now)))
  {
    hide FilesOf, ParentNames, Standing, LayerNode, Replaced, After, ResultIs, FirstDefault, SameType, Loading, CanBe,
         Next;
    LoadingLoads(c);
    StandingFits(world, c, now);
    ReplacedStands(world, c, now, turn);
    CanBeReplaced(c, turn, now);
    var seen, mid := Replaced(world, turn), Read(c, turn, now);
    var doc := Erase(seen.docs[turn]);
    TurnsDoc(seen, c, mid, turn);
    var files := FilesIn(c, c.heads[turn].kind);
    TwoFiles(c, c.heads[turn].kind);
    LayersStand(seen, c, mid, turn, version, doc, |files|);
    var stage := LayerNode(files, seen, turn, version, Link(doc, None), |files|).value.value;
    ResultAdded(stage, c, turn, Next(c, turn, mid));
  }

  lemma CanBeReplaced(c: Setting, turn: nat, now: Scalar)
    requires c.Proper() && CanBe(c, now)
    ensures CanBe(c, Read(c, turn, now))
  {
    CanBeRead(c, now);
  }

  lemma TwoFiles(c: Setting, kind: string)
    requires c.f < |c.heads|
    ensures |FilesIn(c, kind)| >= 2
  {
    hide FilesOf;
    FirstFile(c, kind);
    assert "parent" in ParentNames(c.heads);
  }

  // ---------- the turns ----------

  lemma StartStands(c: Setting)
    requires c.f < |c.heads| && c.f != c.o && Documents(c.Docs(c.a))
    ensures Standing(Start(c.Docs(c.a)), c, c.a)
  {
    hide Doc, WellFormed, Label;
  }

  lemma DocsForm(c: Setting, now: Scalar)
    ensures Documents(c.Docs(now)) && HeadsAre(c.Docs(now), c.heads)
  {
    hide Doc, WellFormed, SmallTree, HeadIs, EntryOf;
    forall i | 0 <= i < |c.heads|
      ensures var t := Doc(c.heads[i], c.Body(i, now)); t.Obj? && WellFormed(t) && HeadIs(t, c.heads[i])
    {
      DocForm(c.heads[i], c.Body(i, now));
    }
  }

  lemma NowNext(c: Setting, n: nat)
    requires c.Proper() && 0 < n <= |c.heads|
    ensures c.Now(n) == Next(c, n - 1, Read(c, n - 1, c.Now(n - 1)))
  {
  }

  /** After `n` turns all documents of the kind show the entry of the shared dictionary. */
  lemma {:induction false} TurnsStand(version: string, c: Setting, n: nat)
    requires c.Proper() && n <= |c.heads|
    ensures Loads(Loading(c)) && Documents(c.Docs(c.a))
    ensures var r := Turns(Loading(c), version, c.Docs(c.a), n);
            r.Success? && |r.value.merged| == n && Standing(r.value, c, c.Now(n))
    decreases n
  {
    hide Loading, Turn, Standing, After, FirstDefault, SameType, PlainHeads, Start, CanBe, Doc, WellFormed, Next, Read,
         Fit;
    LoadingLoads(c);
    DocsForm(c, c.a);
    if n == 0 {
      StartStands(c);
    } else {
      TurnsStand(version, c, n - 1);
      NowCanBe(c, n - 1);
      NowNext(c, n);
      TurnStands(version, Turns(Loading(c), version, c.Docs(c.a), n - 1).value, c, c.Now(n - 1), n - 1);
    }
  }
}
