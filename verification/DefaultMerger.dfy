/**
 * The step that replaces every input document by its layered version. Documents are held by the identity
 * of their dictionaries and lists: what is merged into a default document joins it as the object it is, so
 * a later write through one document shows in every other that shares the object.
 */
module DefaultMerger {
  import opened Results
  import opened Trees
  import opened YesNo
  import opened Layering
  import opened SharedNodes
  import opened SharedMerge

  const PROVIDER := "provider"

  /** The default documents of a provider and kind; reading the schema files is left to this function. */
  type Loader = (Tree, Tree) -> seq<Tree>

  ghost predicate Loads(load: Loader) {
    forall provider, kind :: Documents(load(provider, kind))
  }

  /** The input documents and the results so far, as they stand. */
  datatype World = World(docs: seq<Node>, merged: seq<Node>)

  /** Part way through merge_parent: the layers so far have been merged into `top`. */
  datatype Stage = Stage(world: World, top: Node)

  ghost predicate FitAll(ns: seq<Node>) {
    forall i :: 0 <= i < |ns| ==> ns[i].Dict? && Formed(ns[i])
  }

  ghost predicate Fit(world: World) {
    FitAll(world.docs) && FitAll(world.merged)
  }

  /** Every document after `n` was written. */
  function Written(world: World, n: Node): (r: World)
    requires Fit(world) && Formed(n)
    ensures Fit(r) && |r.docs| == |world.docs| && |r.merged| == |world.merged|
  {
    var r := World(SyncAll(world.docs, n), SyncAll(world.merged, n));
    WrittenFits(world, n);
    r
  }

  lemma WrittenFits(world: World, n: Node)
    requires Fit(world) && Formed(n)
    ensures FitAll(SyncAll(world.docs, n)) && FitAll(SyncAll(world.merged, n))
  {
    forall i | 0 <= i < |world.docs| ensures Formed(Sync(world.docs[i], n)) {
      SyncKeepsForm(world.docs[i], n);
    }
    forall i | 0 <= i < |world.merged| ensures Formed(Sync(world.merged[i], n)) {
      SyncKeepsForm(world.merged[i], n);
    }
  }

  /** One merge, and what the other documents see of it. */
  function MergeNode(world: World, x: Node, y: Node, call: Call): (r: Result<Stage, LayerError>)
    requires Fit(world) && x.Dict? && y.Dict? && Formed(x) && Formed(y)
    ensures r.Success? ==> StageFits(r.value, world)
  {
    OverKeepsForm(x, y, call);
    match OverDict(x, y, call)
    case Failure(e) => Failure(Merging(e))
    case Success(n) => Success(Stage(Written(world, n), n))
  }

  ghost predicate StageFits(stage: Stage, before: World) {
    && Fit(stage.world) && stage.top.Dict? && Formed(stage.top)
    && |stage.world.docs| == |before.docs| && |stage.world.merged| == |before.merged|
  }

  function FileNode(files: seq<Tree>, turn: nat, at: nat): (r: Node)
    requires Documents(files) && at < |files|
    ensures r.Dict? && Formed(r) && Erase(r) == files[at]
  {
    EraseLabel(files[at], Origin(turn, Some(at)), []);
    Label(files[at], Origin(turn, Some(at)), [])
  }

  /** The file called 'default' with the user's 'default' document of the kind merged into it. */
  function BaseNode(files: seq<Tree>, world: World, turn: nat, root: Tree): (r: Result<Stage, LayerError>)
    requires Documents(files) && Fit(world)
    ensures r.Success? ==> StageFits(r.value, world)
  {
    var config :- ConfigAt(EraseAll(world.docs), root);
    var at :- SelectByName(files, DEFAULT);
    if at.None? then Failure(NoDefault)
    else if config.None? then Success(Stage(world, FileNode(files, turn, at.value)))
    else MergeNode(world, FileNode(files, turn, at.value), world.docs[config.value], Call(turn, 0))
  }

  function StampNode(top: Node, version: string): (r: Node)
    requires top.Dict? && Formed(top)
    ensures r.Dict? && Formed(r) && Erase(r) == Stamp(Erase(top), version)
  {
    ErasePut(top, VERSION, Scal(StrV(version)));
    StampKeepsForm(Erase(top), version);
    PutNode(top, VERSION, Scal(StrV(version)))
  }

  /** The next layer: the default file itself, another file, or the input document. */
  function StackNode(files: seq<Tree>, stage: Stage, turn: nat, version: string, at: Option<nat>, merge: nat)
    : (r: Result<Stage, LayerError>)
    requires Documents(files) && StageFits(stage, stage.world) && turn < |stage.world.docs|
    requires at.Some? ==> at.value < |files|
    ensures r.Success? ==> StageFits(r.value, stage.world)
  {
    var top := StampNode(stage.top, version);
    var layer :=
      if IsBase(files, at) then top
      else if at.Some? then FileNode(files, turn, at.value)
      else stage.world.docs[turn];
    MergeNode(stage.world, top, layer, Call(turn, merge))
  }

  /** The recursion of merge_parent, cut off after `fuel` parents. */
  function LayerNode(files: seq<Tree>, world: World, turn: nat, version: string, link: Link, fuel: nat)
    : (r: Option<Result<Stage, LayerError>>)
    requires Documents(files) && Fit(world) && turn < |world.docs|
    requires link.at.Some? ==> link.at.value < |files|
    ensures r.Some? && r.value.Success? ==> StageFits(r.value.value, world)
    decreases fuel
  {
    if HasAttr(link.doc, BASED_ON) then
      match Parent(files, link.doc)
      case Failure(e) => Some(Failure(e))
      case Success(parent) =>
        if fuel == 0 then None
        else
          match LayerNode(files, world, turn, version, parent, fuel - 1)
          case None => None
          case Some(Failure(e)) => Some(Failure(e))
          case Some(Success(stage)) => Some(StackNode(files, stage, turn, version, link.at, fuel + 1))
    else
      match BaseNode(files, world, turn, link.doc)
      case Failure(e) => Some(Failure(e))
      case Success(stage) => Some(StackNode(files, stage, turn, version, link.at, fuel + 1))
  }

  /** The yes/no replacement on a document. */
  function Replaced(world: World, turn: nat): (r: World)
    requires Fit(world) && turn < |world.docs|
    ensures Fit(r) && |r.docs| == |world.docs| && |r.merged| == |world.merged|
  {
    var doc := NormaliseNode(world.docs[turn]);
    EraseNormalised(world.docs[turn]);
    NormaliseKeepsForm(Erase(world.docs[turn]));
    Written(World(world.docs[turn := doc], world.merged), doc)
  }

  /** Why a document's files cannot be named or its name be written in a message, if so. */
  function HeadError(doc: Tree): (r: Option<LayerError>)
    ensures r.None? ==> HasAttr(doc, PROVIDER) && HasAttr(doc, KIND) && HasAttr(doc, NAME)
  {
    if !HasAttr(doc, PROVIDER) then Some(NoAttribute(PROVIDER))
    else if !HasAttr(doc, KIND) then Some(NoAttribute(KIND))
    else if !IsText(doc.vals[KIND]) then Some(NotText(KIND))
    else if !IsText(doc.vals[PROVIDER]) then Some(NotText(PROVIDER))
    else if !HasAttr(doc, NAME) then Some(NoAttribute(NAME))
    else if !IsText(NameOf(doc)) then Some(NotText(NAME))
    else None
  }

  /** The document of a turn layered, once it has been replaced. */
  function LayerTurn(load: Loader, version: string, seen: World, turn: nat): (r: Result<World, LayerError>)
    requires Loads(load) && Fit(seen) && turn < |seen.docs|
    ensures r.Success? ==> Fit(r.value) && |r.value.docs| == |seen.docs| && |r.value.merged| == |seen.merged| + 1
  {
    var doc := Erase(seen.docs[turn]);
    var error := HeadError(doc);
    if error.Some? then Failure(error.value)
    else
      var files := load(doc.vals[PROVIDER], doc.vals[KIND]);
      match LayerNode(files, seen, turn, version, Link(doc, None), |files|)
      case None => Failure(EndlessChain)
      case Some(Failure(e)) => Failure(e)
      case Some(Success(stage)) => Success(World(stage.world.docs, stage.world.merged + [stage.top]))
  }

  /** One round of the loop: the document is replaced in place, then layered. */
  function Turn(load: Loader, version: string, world: World, turn: nat): (r: Result<World, LayerError>)
    requires Loads(load) && Fit(world) && turn < |world.docs|
    ensures r.Success? ==> Fit(r.value) && |r.value.docs| == |world.docs| && |r.value.merged| == |world.merged| + 1
  {
    LayerTurn(load, version, Replaced(world, turn), turn)
  }

  /** The input as loaded: no two documents share an object. */
  function Start(docs: seq<Tree>): (r: World)
    requires Documents(docs)
    ensures Fit(r) && |r.docs| == |docs| && r.merged == [] && EraseAll(r.docs) == docs
  {
    var labelled := seq(|docs|, i requires 0 <= i < |docs| => Label(docs[i], Origin(i, None), []));
    LabelsFit(docs, labelled);
    World(labelled, [])
  }

  lemma LabelsFit(docs: seq<Tree>, labelled: seq<Node>)
    requires Documents(docs) && |labelled| == |docs|
    requires forall i :: 0 <= i < |docs| ==> labelled[i] == Label(docs[i], Origin(i, None), [])
    ensures FitAll(labelled) && EraseAll(labelled) == docs
  {
    forall i | 0 <= i < |docs| ensures Erase(labelled[i]) == docs[i] {
      EraseLabel(docs[i], Origin(i, None), []);
    }
  }

  /** The first `n` rounds. */
  function Turns(load: Loader, version: string, docs: seq<Tree>, n: nat): (r: Result<World, LayerError>)
    requires Loads(load) && Documents(docs) && n <= |docs|
    ensures r.Success? ==> Fit(r.value) && |r.value.docs| == |docs| && |r.value.merged| == n
  {
    if n == 0 then Success(Start(docs))
    else
      var world :- Turns(load, version, docs, n - 1);
      Turn(load, version, world, n - 1)
  }

  lemma {:induction false} StaysFailed(load: Loader, version: string, docs: seq<Tree>, m: nat, n: nat)
    requires Loads(load) && Documents(docs) && m <= n <= |docs| && Turns(load, version, docs, m).Failure?
    ensures Turns(load, version, docs, n) == Turns(load, version, docs, m)
  {
    hide Turn, Start, Documents, Fit, Loads;
    if m < n {
      StaysFailed(load, version, docs, m, n - 1);
    }
  }

  /** The `i`-th round is the first to fail; `left` is how it found documents and results after its replacement. */
  ghost predicate FailsAt(load: Loader, version: string, docs: seq<Tree>, i: nat, error: LayerError, left: World)
    requires Loads(load) && Documents(docs) && i < |docs|
  {
    && Turns(load, version, docs, i).Success? && Turns(load, version, docs, i + 1) == Failure(error)
    && left == Replaced(Turns(load, version, docs, i).value, i)
  }

  class Merger {
    ghost const input: seq<Tree>
    var docs: seq<Node>
    var merged: seq<Node>

    /** Loaded, and not yet run. */
    ghost predicate Ready()
      reads this
    {
      Documents(input) && docs == Start(input).docs && merged == []
    }

    constructor (docs: seq<Tree>)
      requires Documents(docs)
      ensures Ready() && input == docs
    {
      input := docs;
      this.docs, merged := Start(docs).docs, [];
    }

    /**
     * Documents are replaced and layered one by one; the first failure ends the run. The documents and
     * results are left as all the rounds leave them; where a round fails other than in a merge, which may have
     * written some of its keys, they are left as after the round's replacement.
     */
    method Run(load: Loader, version: string) returns (r: Result<seq<Tree>, LayerError>)
      requires Loads(load) && Ready()
      modifies this
      ensures Documents(input)
      ensures var all := Turns(load, version, input, |input|);
              && (r.Success? <==> all.Success?)
              && (r.Success? ==> all.value == World(docs, merged) && r.value == EraseAll(merged))
              && (r.Failure? ==> all.error == r.error)
      ensures r.Failure? && !r.error.Merging? ==>
                exists i :: 0 <= i < |input| && FailsAt(load, version, input, i, r.error, World(docs, merged))
    {
      hide LayerTurn, Replaced, Start, Documents;
      var i := 0;
      assert Turns(load, version, input, 0) == Success(Start(input));
      while i < |docs|
        invariant i <= |docs| == |input| && FitAll(docs) && FitAll(merged)
        invariant Turns(load, version, input, i) == Success(World(docs, merged))
      {
        var seen := Replaced(World(docs, merged), i);
        docs, merged := seen.docs, seen.merged;
        var next := LayerTurn(load, version, seen, i);
        if next.Failure? {
          StaysFailed(load, version, input, i + 1, |input|);
          assert FailsAt(load, version, input, i, next.error, World(docs, merged));
          return Failure(next.error);
        }
        docs, merged := next.value.docs, next.value.merged;
        i := i + 1;
      }
      r := Success(EraseAll(merged));
    }
  }
}
