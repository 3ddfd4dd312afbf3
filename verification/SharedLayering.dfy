/** When the loop over shared documents gives every document its layered version. */
module SharedLayering {
  import opened Results
  import opened Trees
  import opened Merge
  import opened YesNo
  import opened Layering
  import opened SharedNodes
  import opened SharedMerge
  import opened DefaultMerger

  // ---------- the layered versions, on values ----------

  /** The first `n` documents normalised, the others not yet. */
  function NormalisedUpTo(docs: seq<Tree>, n: nat): (r: seq<Tree>)
    requires n <= |docs|
    ensures |r| == |docs|
  {
    seq(|docs|, i requires 0 <= i < |docs| => if i < n then Normalise(docs[i]) else docs[i])
  }

  lemma NormalisedDocuments(docs: seq<Tree>, n: nat)
    requires Documents(docs) && n <= |docs|
    ensures Documents(NormalisedUpTo(docs, n))
  {
    forall i | 0 <= i < |docs| ensures WellFormed(Normalise(docs[i])) {
      NormaliseKeepsForm(docs[i]);
    }
  }

  /** What one document comes to when `docs` is the list as it then stands. */
  function MergeOne(load: Loader, version: string, docs: seq<Tree>, doc: Tree): Layered
    requires Documents(docs) && doc.Obj? && WellFormed(doc) && Loads(load)
  {
    var error := HeadError(doc);
    if error.Some? then Failure(error.value)
    else
      var files := load(doc.vals[PROVIDER], doc.vals[KIND]);
      match MergeParent(files, docs, version, Link(doc, None), |files|)
      case None => Failure(EndlessChain)
      case Some(r) => r
  }

  /** The layered versions of the first `n` documents, each with the documents before it normalised. */
  function LayeredUpTo(load: Loader, version: string, docs: seq<Tree>, n: nat): (r: Result<seq<Tree>, LayerError>)
    requires Loads(load) && Documents(docs) && n <= |docs|
    ensures r.Success? ==> |r.value| == n
  {
    if n == 0 then Success([])
    else
      var done :- LayeredUpTo(load, version, docs, n - 1);
      NormalisedDocuments(docs, n);
      var seen := NormalisedUpTo(docs, n);
      var last :- MergeOne(load, version, seen, seen[n - 1]);
      Success(done + [last])
  }

  // ---------- one merge ----------

  /** A merge of documents with identities says what the merge of values says. */
  ghost predicate Says(r: Result<Stage, LayerError>, t: Layered) {
    match r
    case Failure(e) => t == Failure(e)
    case Success(stage) => t == Success(Erase(stage.top))
  }

  lemma MergeNodeIsMerge(world: World, x: Node, y: Node, call: Call)
    requires Fit(world) && x.Dict? && y.Dict? && Formed(x) && Formed(y)
    ensures Says(MergeNode(world, x, y, call), MergeInto(Erase(x), Erase(y)))
  {
    hide MergeObj, OverDict, Erase;
    OverIsMerge(x, y, call);
  }

  /** Every document but that of the turn is made of the objects of its own turn. */
  ghost predicate Apart(world: World, turn: nat) {
    && turn < |world.docs| && |world.merged| <= turn
    && (forall m :: 0 <= m < |world.docs| && m != turn ==> Own(world.docs[m], m, Any))
    && (forall m :: 0 <= m < |world.merged| ==> Own(world.merged[m], m, Any))
  }

  ghost predicate Fresh(world: World, turn: nat)
    requires turn < |world.docs|
  {
    Placed(world.docs[turn], Origin(turn, None), [])
  }

  lemma FitsAt(world: World, i: nat)
    requires Fit(world) && i < |world.docs|
    ensures world.docs[i].Dict? && Formed(world.docs[i])
  {
  }

  /** What a turn writes is seen by its own document only. */
  lemma OthersUnseen(world: World, n: Node, turn: nat)
    requires Fit(world) && Formed(n) && Apart(world, turn) && Own(n, turn, Any)
    ensures Written(world, n) == World(world.docs[turn := Sync(world.docs[turn], n)], world.merged)
  {
    hide Own, Sync, Fit, Formed;
    forall m | 0 <= m < |world.docs| && m != turn ensures Sync(world.docs[m], n) == world.docs[m] {
      OtherTurnsUnseen(world.docs[m], n, m, turn);
    }
    forall m | 0 <= m < |world.merged| ensures Sync(world.merged[m], n) == world.merged[m] {
      OtherTurnsUnseen(world.merged[m], n, m, turn);
    }
    assert SyncAll(world.docs, n) == world.docs[turn := Sync(world.docs[turn], n)];
    assert SyncAll(world.merged, n) == world.merged;
  }

  /** A layer of files: no document sees it. */
  lemma FileLayer(world: World, x: Node, y: Node, call: Call)
    requires Fit(world) && x.Dict? && y.Dict? && Formed(x) && Formed(y)
    requires Apart(world, call.turn) && Fresh(world, call.turn)
    requires Own(x, call.turn, Absent) && Own(y, call.turn, Absent)
    ensures var r := MergeNode(world, x, y, call);
            r.Success? ==> r.value.world == world && Own(r.value.top, call.turn, Absent)
  {
    hide OverDict, Sync, Fit, Formed, Placed;
    OverOwn(x, y, call, Absent);
    var r := MergeNode(world, x, y, call);
    if r.Success? {
      var doc := world.docs[call.turn];
      AbsentIsOwn(r.value.top, call.turn, Any);
      AbsentIsOwn(r.value.top, call.turn, As(doc));
      OthersUnseen(world, r.value.top, call.turn);
      InputUnseen(doc, r.value.top, call.turn, [], doc);
    }
  }

  /** The input document over files: its objects join the result and look as they do in it. */
  lemma InputLayer(world: World, x: Node, call: Call)
    requires Fit(world) && x.Dict? && Formed(x)
    requires Apart(world, call.turn) && Fresh(world, call.turn) && Own(x, call.turn, Absent)
    ensures var r := MergeNode(world, x, world.docs[call.turn], call);
            r.Success? ==>
                r.value.world == world && Own(r.value.top, call.turn, Any) && Own(r.value.top, call.turn, Below)
  {
    hide OverDict, Sync, Fit, Formed;
    var doc := world.docs[call.turn];
    FitsAt(world, call.turn);
    var r := MergeNode(world, x, doc, call);
    InputParts(doc, call.turn);
    AbsentIsOwn(x, call.turn, Any);
    AbsentIsOwn(x, call.turn, Below);
    AbsentIsOwn(x, call.turn, As(doc));
    OverOwn(x, doc, call, Any);
    OverOwn(x, doc, call, Below);
    OverOwn(x, doc, call, As(doc));
    if r.Success? {
      OthersUnseen(world, r.value.top, call.turn);
      InputUnseen(doc, r.value.top, call.turn, [], doc);
    }
  }

  lemma InputParts(doc: Node, turn: nat)
    requires doc.Dict? && Placed(doc, Origin(turn, None), [])
    ensures Parts(doc, turn, Any) && Parts(doc, turn, Below) && Parts(doc, turn, As(doc))
    ensures Own(doc, turn, Any)
  {
    hide Own;
    InputIsOwn(doc, turn, [], Any);
    forall k | k in doc.vals
      ensures Own(doc.vals[k], turn, Any) && Own(doc.vals[k], turn, Below) && Own(doc.vals[k], turn, As(doc))
    {
      assert Placed(doc.vals[k], Origin(turn, None), [Key(k)]) by {
        assert [] + [Key(k)] == [Key(k)];
      }
      assert Place(doc, [Key(k)]) == Some(doc.vals[k]) by {
        assert [Key(k)][..0] == [];
      }
      InputIsOwn(doc.vals[k], turn, [Key(k)], Any);
      InputIsOwn(doc.vals[k], turn, [Key(k)], Below);
      InputIsOwn(doc.vals[k], turn, [Key(k)], As(doc));
    }
  }

  /** What the search for a 'default' document reads of a document. */
  ghost predicate SameHead(a: Tree, b: Tree) {
    && (HasAttr(a, NAME) <==> HasAttr(b, NAME))
    && (HasAttr(a, KIND) <==> HasAttr(b, KIND))
    && (HasAttr(a, NAME) ==> NameOf(a) == NameOf(b))
    && (HasAttr(a, KIND) ==> a.vals[KIND] == b.vals[KIND])
  }

  /** The input document over a result that has its objects already: it may change, but not its head. */
  lemma OwnLayer(world: World, x: Node, call: Call)
    requires Fit(world) && x.Dict? && Formed(x)
    requires Apart(world, call.turn) && Fresh(world, call.turn)
    requires Own(x, call.turn, Any) && Own(x, call.turn, Below)
    requires ScalarHead(world.docs[call.turn])
    ensures var r := MergeNode(world, x, world.docs[call.turn], call);
            r.Success? ==>
              && r.value.world.merged == world.merged && Own(r.value.top, call.turn, Any)
              && |r.value.world.docs| == |world.docs|
              && (forall m :: 0 <= m < |world.docs| && m != call.turn ==> r.value.world.docs[m] == world.docs[m])
              && Own(r.value.world.docs[call.turn], call.turn, Any)
              && SameHead(Erase(r.value.world.docs[call.turn]), Erase(world.docs[call.turn]))
  {
    hide OverDict, Fit, Formed, Own, Placed, Erase, HasAttr, SameHead;
    var turn, doc := call.turn, world.docs[call.turn];
    FitsAt(world, turn);
    var r := MergeNode(world, x, doc, call);
    InputParts(doc, turn);
    OverOwn(x, doc, call, Any);
    OverOwn(x, doc, call, Below);
    if r.Success? {
      OthersUnseen(world, r.value.top, turn);
      SyncKeepsOwn(doc, r.value.top, turn);
      RootStays(doc, r.value.top, turn);
    }
  }

  /** Name and kind are no dictionaries or lists, which a turn could write. */
  ghost predicate ScalarHead(doc: Node) {
    doc.Dict? && (NAME in doc.vals ==> doc.vals[NAME].Scal?) && (KIND in doc.vals ==> doc.vals[KIND].Scal?)
  }

  lemma RootStays(doc: Node, top: Node, turn: nat)
    requires ScalarHead(doc) && Placed(doc, Origin(turn, None), []) && Own(top, turn, Below)
    ensures SameHead(Erase(Sync(doc, top)), Erase(doc))
  {
    FoundIsOwn(top, doc, turn, Below);
    assert Find(top, doc).None?;
    var r := Sync(doc, top);
    assert r.vals.Keys == doc.vals.Keys;
    assert forall k :: k in doc.vals && doc.vals[k].Scal? ==> r.vals[k] == doc.vals[k];
  }

  // ---------- one turn ----------

  /**
   * No other input document named 'default' goes into the layers of the turn's document: its kind has no
   * such document, or the document is that one and is based on no other.
   */
  predicate MeetsNoOther(files: seq<Tree>, docs: seq<Tree>, turn: nat, link: Link, fuel: nat)
    decreases fuel
  {
    if HasAttr(link.doc, BASED_ON) then
      var parent := Parent(files, link.doc);
      parent.Success? && fuel != 0 ==> MeetsNoOther(files, docs, turn, parent.value, fuel - 1)
    else
      var config := ConfigAt(docs, link.doc);
      config.Success? && config.value.Some? ==> config.value.value == turn && link.at.None?
  }

  /** What the recursion says, against merge_parent on values. */
  ghost predicate Returns(r: Option<Result<Stage, LayerError>>, t: Option<Layered>) {
    match r
    case None => t == None
    case Some(s) => t.Some? && Says(s, t.value)
  }

  /** The world of a turn: its document is as loaded, the others are of other turns, and `docs` is how they look. */
  ghost predicate Prepared(world: World, docs: seq<Tree>, turn: nat) {
    && Fit(world) && Documents(docs) && |docs| == |world.docs|
    && Apart(world, turn) && Fresh(world, turn)
    && Erase(world.docs[turn]) == docs[turn] && SameHeads(EraseAll(world.docs), docs)
  }

  ghost predicate Ready(world: World, docs: seq<Tree>, turn: nat) {
    Prepared(world, docs, turn) && ScalarHead(world.docs[turn])
  }

  ghost predicate SameHeads(xs: seq<Tree>, ys: seq<Tree>) {
    |xs| == |ys| && forall i :: 0 <= i < |xs| ==> SameHead(xs[i], ys[i])
  }

  lemma {:induction false} SameConfigAt(xs: seq<Tree>, ys: seq<Tree>, root: Tree)
    requires SameHeads(xs, ys)
    ensures ConfigAt(xs, root) == ConfigAt(ys, root)
  {
    if xs != [] {
      SameConfigAt(xs[1..], ys[1..], root);
    }
  }

  /** What a stage keeps of the world before: after a file nothing has changed, after the input its head is the same. */
  ghost predicate Keeps(stage: Stage, world: World, turn: nat, link: Link)
    requires turn < |world.docs|
  {
    if link.at.Some? then stage.world == world && Own(stage.top, turn, Absent)
    else
      && stage.world.merged == world.merged && Own(stage.top, turn, Any)
      && |stage.world.docs| == |world.docs|
      && (forall m :: 0 <= m < |world.docs| && m != turn ==> stage.world.docs[m] == world.docs[m])
      && Own(stage.world.docs[turn], turn, Any)
      && SameHead(Erase(stage.world.docs[turn]), Erase(world.docs[turn]))
  }

  lemma FileOwn(files: seq<Tree>, turn: nat, at: nat)
    requires Documents(files) && at < |files|
    ensures Own(FileNode(files, turn, at), turn, Absent)
  {
    LabelPlaces(files[at], Origin(turn, Some(at)), []);
    FileIsOwn(FileNode(files, turn, at), Origin(turn, Some(at)), [], Absent);
  }

  lemma StampOwn(top: Node, version: string, turn: nat, look: Look)
    requires top.Dict? && Formed(top) && !look.As? && Own(top, turn, look)
    ensures Own(StampNode(top, version), turn, look)
  {
  }

  /** The base without a 'default' document is the file; with the turn's own document it has its objects. */
  lemma BaseNodeIsBase(files: seq<Tree>, world: World, docs: seq<Tree>, turn: nat, root: Tree)
    requires Documents(files) && Ready(world, docs, turn)
    requires var config := ConfigAt(docs, root);
             config.Success? && config.value.Some? ==> config.value.value == turn
    ensures var r := BaseNode(files, world, turn, root);
            && Says(r, Base(files, docs, root))
            && (r.Success? ==> r.value.world == world && ConfigAt(docs, root).Success?)
            && (r.Success? && (ConfigAt(docs, root).value.None? || !IsDefault(docs[turn])) ==>
                  Own(r.value.top, turn, Absent))
            && (r.Success? ==> Own(r.value.top, turn, Any) && Own(r.value.top, turn, Below))
  {
    hide OverDict, Fit, Formed, Own, Placed, Erase, ConfigAt, SelectByName, MergeNode, MergeObj, ScalarHead, FileNode;
    SameConfigAt(EraseAll(world.docs), docs, root);
    var config, at := ConfigAt(docs, root), SelectByName(files, DEFAULT);
    if config.Success? && at.Success? && at.value.Some? {
      var file := FileNode(files, turn, at.value.value);
      FileOwn(files, turn, at.value.value);
      AbsentIsOwn(file, turn, Any);
      AbsentIsOwn(file, turn, Below);
      if config.value.Some? {
        FitsAt(world, turn);
        MergeNodeIsMerge(world, file, world.docs[turn], Call(turn, 0));
        InputLayer(world, file, Call(turn, 0));
      }
    }
  }

  /** The next layer over a result without the input's objects. */
  lemma StackNodeIsStack(files: seq<Tree>, stage: Stage, docs: seq<Tree>, turn: nat, version: string, link: Link,
                         merge: nat)
    requires Documents(files) && Ready(stage.world, docs, turn) && StageFits(stage, stage.world)
    requires IsLink(files, docs, turn, link)
    requires Own(stage.top, turn, Absent)
             || (link.at.None? && Own(stage.top, turn, Any) && Own(stage.top, turn, Below))
    ensures var r := StackNode(files, stage, turn, version, link.at, merge);
            && Says(r, Stack(files, version, Erase(stage.top), link))
            && (r.Success? ==> Keeps(r.value, stage.world, turn, link))
            && (r.Success? && Own(stage.top, turn, Absent) ==> r.value.world == stage.world)
  {
    hide OverDict, Fit, Formed, Own, Placed, Erase, MergeNode, MergeObj, ScalarHead, StampNode, FileNode, SameHead;
    var top := StampNode(stage.top, version);
    var call := Call(turn, merge);
    FitsAt(stage.world, turn);
    if link.at.Some? {
      StampOwn(stage.top, version, turn, Absent);
      var layer := if IsBase(files, link.at) then top else FileNode(files, turn, link.at.value);
      FileOwn(files, turn, link.at.value);
      MergeNodeIsMerge(stage.world, top, layer, call);
      FileLayer(stage.world, top, layer, call);
    } else {
      MergeNodeIsMerge(stage.world, top, stage.world.docs[turn], call);
      if Own(stage.top, turn, Absent) {
        AbsentIsOwn(stage.top, turn, Any);
        AbsentIsOwn(stage.top, turn, Below);
        StampOwn(stage.top, version, turn, Absent);
        InputLayer(stage.world, top, call);
      }
      StampOwn(stage.top, version, turn, Any);
      StampOwn(stage.top, version, turn, Below);
      OwnLayer(stage.world, top, call);
    }
  }

  /** A document of the chain: a file, or the input document of the turn. */
  ghost predicate IsLink(files: seq<Tree>, docs: seq<Tree>, turn: nat, link: Link) {
    && turn < |docs|
    && (if link.at.Some? then link.at.value < |files| && link.doc == files[link.at.value] else link.doc == docs[turn])
  }

  lemma {:induction false} LayerNodeIsMergeParent(files: seq<Tree>, world: World, docs: seq<Tree>, turn: nat,
                                                  version: string, link: Link, fuel: nat)
    requires Documents(files) && Ready(world, docs, turn) && IsLink(files, docs, turn, link)
    requires link.doc.Obj? && WellFormed(link.doc)
    requires MeetsNoOther(files, docs, turn, link, fuel)
    ensures var r := LayerNode(files, world, turn, version, link, fuel);
            && Returns(r, MergeParent(files, docs, version, link, fuel))
            && (r.Some? && r.value.Success? ==> Keeps(r.value.value, world, turn, link))
            && (r.Some? && r.value.Success? && !IsDefault(docs[turn]) ==> r.value.value.world == world)
    decreases fuel
  {
    assert Fit(world) && turn < |world.docs|;
    hide StackNode, BaseNode, Stack, Base, Ready, IsDefault, Own, Erase, SameHead, Parent, ConfigAt, StageFits,
         WellFormed;
    if HasAttr(link.doc, BASED_ON) {
      var parent := Parent(files, link.doc);
      if parent.Success? && fuel != 0 {
        LayerNodeIsMergeParent(files, world, docs, turn, version, parent.value, fuel - 1);
        var stage := LayerNode(files, world, turn, version, parent.value, fuel - 1);
        if stage.Some? && stage.value.Success? {
          StackNodeIsStack(files, stage.value.value, docs, turn, version, link, fuel + 1);
        }
      }
    } else {
      BaseNodeIsBase(files, world, docs, turn, link.doc);
      var stage := BaseNode(files, world, turn, link.doc);
      if stage.Success? {
        StackNodeIsStack(files, stage.value, docs, turn, version, link, fuel + 1);
      }
    }
  }

  // ---------- the run ----------

  /** No other document named 'default' goes into the layers of the `turn`-th document. */
  predicate Alone(load: Loader, docs: seq<Tree>, turn: nat)
    requires Loads(load) && turn < |docs|
  {
    var seen := NormalisedUpTo(docs, turn + 1);
    var doc := seen[turn];
    HasAttr(doc, PROVIDER) && HasAttr(doc, KIND) ==>
      var files := load(doc.vals[PROVIDER], doc.vals[KIND]);
      MeetsNoOther(files, seen, turn, Link(doc, None), |files|)
  }

  /** The world after `n` turns. */
  ghost predicate Reached(world: World, docs: seq<Tree>, n: nat) {
    && Fit(world) && Documents(docs) && |world.docs| == |docs| && |world.merged| == n <= |docs|
    && (forall m :: 0 <= m < n ==> Own(world.merged[m], m, Any))
    && (forall m :: 0 <= m < n ==> DoneWith(world.docs[m], docs[m], m))
    && (forall m :: n <= m < |docs| ==> world.docs[m] == Label(docs[m], Origin(m, None), []))
  }

  /** A document after its turn: normalised, and otherwise as given unless it is named 'default'. */
  ghost predicate DoneWith(n: Node, doc: Tree, turn: nat) {
    && Own(n, turn, Any)
    && SameHead(Erase(n), Normalise(doc))
    && (!IsDefault(Normalise(doc)) ==> Erase(n) == Normalise(doc))
  }

  lemma ReachedAtStart(docs: seq<Tree>)
    requires Documents(docs)
    ensures Reached(Start(docs), docs, 0)
  {
  }

  lemma LabelOwn(doc: Tree, turn: nat)
    ensures Own(Label(doc, Origin(turn, None), []), turn, Any)
    ensures Placed(Label(doc, Origin(turn, None), []), Origin(turn, None), [])
  {
    LabelPlaces(doc, Origin(turn, None), []);
    InputIsOwn(Label(doc, Origin(turn, None), []), turn, [], Any);
  }

  lemma ReachedApart(world: World, docs: seq<Tree>, n: nat)
    requires Reached(world, docs, n) && n < |docs|
    ensures Apart(world, n)
  {
    forall m | 0 <= m < |docs| && m != n ensures Own(world.docs[m], m, Any) {
      if m > n {
        LabelOwn(docs[m], m);
      }
    }
  }

  lemma ReachedFits(world: World, docs: seq<Tree>, n: nat)
    requires Reached(world, docs, n)
    ensures Fit(world) && Documents(docs) && |world.docs| == |docs|
  {
  }

  /** The replacement touches the turn's document only. */
  lemma ReplacedReady(world: World, docs: seq<Tree>, n: nat)
    requires Reached(world, docs, n) && n < |docs|
    ensures var seen := Replaced(world, n);
            && seen == World(world.docs[n := NormaliseNode(world.docs[n])], world.merged)
            && Prepared(seen, NormalisedUpTo(docs, n + 1), n)
  {
    hide Fit, Formed, Label, Apart, Own, Placed, Reached, Sync;
    ReachedFits(world, docs, n);
    var doc := NormaliseNode(world.docs[n]);
    ReplacedPart(world, docs, n);
    NormalisedDocuments(docs, n + 1);
    var next := World(world.docs[n := doc], world.merged);
    OthersUnseen(next, doc, n);
    SyncSelf(doc);
    ReplacedHeads(world, docs, n);
  }

  lemma SyncSelf(n: Node)
    requires n.Dict?
    ensures Sync(n, n) == n
  {
  }

  lemma ReplacedPart(world: World, docs: seq<Tree>, n: nat)
    requires Reached(world, docs, n) && n < |docs|
    ensures var doc := NormaliseNode(world.docs[n]);
            && n < |world.docs| == |docs| && Documents(docs) && Fit(world)
            && Formed(doc) && Erase(doc) == Normalise(docs[n]) && Own(doc, n, Any)
            && Placed(doc, Origin(n, None), [])
            && Fit(World(world.docs[n := doc], world.merged))
            && Apart(World(world.docs[n := doc], world.merged), n)
  {
    hide Formed, Erase, NormaliseNode, Own, Placed, Label;
    var doc := NormaliseNode(world.docs[n]);
    ReplacedDoc(docs[n], n);
    ReachedApart(world, docs, n);
  }

  lemma ReplacedDoc(doc: Tree, n: nat)
    requires doc.Obj? && WellFormed(doc)
    ensures var d := NormaliseNode(Label(doc, Origin(n, None), []));
            && d.Dict? && Formed(d) && Erase(d) == Normalise(doc) && Own(d, n, Any)
            && Placed(d, Origin(n, None), [])
  {
    hide Erase, NormaliseNode, Own, Placed, Label, Normalise, WellFormed;
    var l := Label(doc, Origin(n, None), []);
    EraseLabel(doc, Origin(n, None), []);
    EraseNormalised(l);
    NormaliseKeepsForm(doc);
    LabelOwn(doc, n);
    NormaliseKeepsPlaces(l, Origin(n, None), []);
    InputIsOwn(NormaliseNode(l), n, [], Any);
  }

  lemma TextIsScalar(n: Node)
    requires n.Dict? && HeadError(Erase(n)).None?
    ensures ScalarHead(n)
  {
    hide Erase;
    EraseField(n, NAME);
    EraseField(n, KIND);
  }

  lemma EraseField(n: Node, k: string)
    requires n.Dict?
    ensures k in Erase(n).vals <==> k in n.vals
    ensures k in n.vals ==> Erase(n).vals[k] == Erase(n.vals[k])
  {
  }

  lemma NormalisedField(doc: Tree, k: string)
    requires doc.Obj?
    ensures Normalise(doc).Obj? && (k in Normalise(doc).vals <==> k in doc.vals)
    ensures k in doc.vals ==> Normalise(doc).vals[k] == NormaliseField(doc.vals[k])
    ensures k in doc.vals && doc.vals[k].Leaf? ==> NormaliseField(doc.vals[k]).Leaf?
  {
  }

  /** A text that is still one after the replacement. */
  predicate Readable(doc: Tree, key: string) {
    HasAttr(doc, key) && IsText(doc.vals[key]) && !SpellsBool(doc.vals[key])
  }

  /**
   * A replaced document's files can be named and its name be written in the message exactly when provider, kind and
   * name are texts that spell no boolean.
   */
  lemma HeadReadable(doc: Tree)
    requires doc.Obj?
    ensures HeadError(Normalise(doc)).None? <==> Readable(doc, PROVIDER) && Readable(doc, KIND) && Readable(doc, NAME)
  {
    hide Normalise, NormaliseField, SpellsBool;
    FieldReadable(doc, PROVIDER);
    FieldReadable(doc, KIND);
    FieldReadable(doc, NAME);
  }

  lemma FieldReadable(doc: Tree, key: string)
    requires doc.Obj?
    ensures HasAttr(Normalise(doc), key) <==> HasAttr(doc, key)
    ensures HasAttr(doc, key) ==> (IsText(Normalise(doc).vals[key]) <==> Readable(doc, key))
  {
    hide Normalise;
    NormalisedField(doc, key);
    if HasAttr(doc, key) {
      TextReplaced(doc.vals[key]);
    }
  }

  lemma TextReplaced(v: Tree)
    ensures IsText(NormaliseField(v)) <==> IsText(v) && !SpellsBool(v)
  {
  }

  lemma ReplacedHeads(world: World, docs: seq<Tree>, n: nat)
    requires Reached(world, docs, n) && n < |docs|
    requires Erase(NormaliseNode(world.docs[n])) == Normalise(docs[n])
    ensures SameHeads(EraseAll(world.docs[n := NormaliseNode(world.docs[n])]), NormalisedUpTo(docs, n + 1))
  {
    hide Fit, Formed, Own, Placed, Erase, Normalise, NormaliseNode, HasAttr;
    forall m | n < m < |docs| ensures Erase(world.docs[m]) == docs[m] {
      EraseLabel(docs[m], Origin(m, None), []);
    }
  }

  /** One turn gives the layered version, and what it writes no other document sees. */
  lemma TurnIsMergeOne(load: Loader, version: string, world: World, docs: seq<Tree>, n: nat)
    requires Loads(load) && Reached(world, docs, n) && n < |docs| && Alone(load, docs, n)
    ensures Documents(NormalisedUpTo(docs, n + 1))
    ensures var r := Turn(load, version, world, n);
            var seen := NormalisedUpTo(docs, n + 1);
            var t := MergeOne(load, version, seen, seen[n]);
            && (r.Success? <==> t.Success?)
            && (r.Failure? ==> t.error == r.error)
            && (r.Success? ==>
                  && Reached(r.value, docs, n + 1)
                  && EraseAll(r.value.merged) == EraseAll(world.merged) + [t.value])
  {
    hide Reached, Prepared, Ready, Replaced, LayerNode, HeadError, ScalarHead, MergeParent, Erase, Normalise,
         MeetsNoOther;
    ReachedFits(world, docs, n);
    NormalisedDocuments(docs, n + 1);
    ReplacedReady(world, docs, n);
    var seen, now := NormalisedUpTo(docs, n + 1), Replaced(world, n);
    ReadyParts(now, seen, n);
    var doc := seen[n];
    if HeadError(doc).None? {
      TextIsScalar(now.docs[n]);
      ReadyWithScalars(now, seen, n);
      var files := load(doc.vals[PROVIDER], doc.vals[KIND]);
      LayerNodeIsMergeParent(files, now, seen, n, version, Link(doc, None), |files|);
      var stage := LayerNode(files, now, n, version, Link(doc, None), |files|);
      if stage.Some? && stage.value.Success? {
        ReachedNext(world, docs, n, stage.value.value);
      }
    }
  }

  lemma ReadyWithScalars(world: World, docs: seq<Tree>, n: nat)
    requires Prepared(world, docs, n) && ScalarHead(world.docs[n])
    ensures Ready(world, docs, n)
  {
  }

  lemma ReadyParts(world: World, docs: seq<Tree>, n: nat)
    requires Prepared(world, docs, n)
    ensures Fit(world) && Documents(docs) && n < |docs| == |world.docs| && Erase(world.docs[n]) == docs[n]
    ensures docs[n].Obj? && WellFormed(docs[n]) && world.docs[n].Dict?
  {
  }

  lemma ReachedNext(world: World, docs: seq<Tree>, n: nat, stage: Stage)
    requires Reached(world, docs, n) && n < |docs|
    requires var now := Replaced(world, n);
             StageFits(stage, now) && Keeps(stage, now, n, Link(Normalise(docs[n]), None))
             && (!IsDefault(Normalise(docs[n])) ==> stage.world == now)
    ensures var next := World(stage.world.docs, stage.world.merged + [stage.top]);
            Reached(next, docs, n + 1) && EraseAll(next.merged) == EraseAll(world.merged) + [Erase(stage.top)]
  {
    hide Formed, Own, Placed, Erase, Normalise, NormaliseNode, HasAttr, SameHead, Sync, Replaced, IsDefault;
    ReplacedReady(world, docs, n);
    ReplacedPart(world, docs, n);
  }

  /** The loop gives the layered versions of the first `n` documents, or fails as their layering does. */
  ghost predicate Agrees(load: Loader, version: string, docs: seq<Tree>, n: nat)
    requires Loads(load) && Documents(docs) && n <= |docs|
  {
    var r, t := Turns(load, version, docs, n), LayeredUpTo(load, version, docs, n);
    && (r.Success? <==> t.Success?)
    && (r.Failure? ==> t.error == r.error)
    && (r.Success? ==> EraseAll(r.value.merged) == t.value)
  }

  /**
   * When no document is merged over another one named 'default', the loop fails when the layering of some
   * document fails, the first of them, and otherwise every result is, when the loop is done, its document
   * layered over its defaults with the documents up to it normalised. Documents not named 'default' are
   * left normalised and otherwise as given.
   */
  lemma {:induction false} RunIsLayering(load: Loader, version: string, docs: seq<Tree>, n: nat)
    requires Loads(load) && Documents(docs) && n <= |docs|
    requires forall i :: 0 <= i < n ==> Alone(load, docs, i)
    ensures Agrees(load, version, docs, n)
    ensures var r := Turns(load, version, docs, n); r.Success? ==> Reached(r.value, docs, n)
  {
    hide Turn, MergeOne, Alone, Reached, Start;
    if n == 0 {
      ReachedAtStart(docs);
    } else {
      RunIsLayering(load, version, docs, n - 1);
      var r := Turns(load, version, docs, n - 1);
      if r.Success? {
        TurnIsMergeOne(load, version, r.value, docs, n - 1);
      }
    }
  }
}
