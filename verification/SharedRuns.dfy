/** Every turn of such a run, on documents with identities: all documents of the kind show one shared entry. */
module SharedRuns {
  import opened Results
  import opened Trees
  import opened Merge
  import opened YesNo
  import opened Layering
  import opened SharedNodes
  import opened SharedMerge
  import opened DefaultMerger
  import opened SharedLayering
  import opened SmallDocuments
  import opened SharedDefaults

  /** A result: over its own file, and with the shared dictionary if it is of the kind. */
  ghost predicate ResultIs(n: Node, m: nat, of: bool, f: nat, now: Scalar) {
    && Small(n) && n.id == Loaded(Origin(m, Some(0)), [])
    && ExtraOf(n) == if of then Some(EntryIn(f, now)) else None
  }

  ghost predicate ResultsAre(merged: seq<Node>, c: Setting, now: Scalar)
    requires c.f < |c.heads|
  {
    && |merged| <= |c.heads|
    && forall m :: 0 <= m < |merged| ==> ResultIs(merged[m], m, c.Of(m), c.f, now)
  }

  /** The documents as loaded but for the shared entry, and the results so far with it. */
  ghost predicate Standing(world: World, c: Setting, now: Scalar) {
    && |world.docs| == |c.heads| && c.f < |c.heads| && c.f != c.o
    && (forall m :: 0 <= m < |c.heads| ==> world.docs[m] == DocNode(c.heads[m], c.Body(m, now), m))
    && ResultsAre(world.merged, c, now)
  }

  lemma StandingFits(world: World, c: Setting, now: Scalar)
    requires Standing(world, c, now)
    ensures Fit(world) && |world.docs| == |c.heads| && c.f < |c.heads| && c.f != c.o
  {
    hide Small, Formed;
    forall m | 0 <= m < |c.heads| ensures Small(world.docs[m]) {
      DocNodeIs(c.heads[m], c.Body(m, now), m);
    }
    assert forall m :: 0 <= m < |world.merged| ==> Small(world.merged[m]);
    SmallFits(world);
  }

  lemma SmallFits(world: World)
    requires forall m :: 0 <= m < |world.docs| ==> Small(world.docs[m])
    requires forall m :: 0 <= m < |world.merged| ==> Small(world.merged[m])
    ensures Fit(world)
  {
  }

  // ---------- what the others see of a result being written ----------

  /**
   * The result of turn `turn` as it is written: with the shared dictionary, or without when nothing is
   * written to that.
   */
  ghost predicate Writes(w: Node, turn: nat, of: bool, f: nat, now: Scalar, next: Scalar) {
    ResultIs(w, turn, of, f, next) && (of || next == now)
  }

  lemma DocSees(h: Head, s: Option<Scalar>, m: nat, w: Node, turn: nat, of: bool, f: nat, now: Scalar, next: Scalar)
    requires Writes(w, turn, of, f, now, next) && (m == f ==> s == Some(now))
    ensures Sync(DocNode(h, s, m), w) == DocNode(h, if m == f then Some(next) else s, m)
  {
    hide Small, Find, Sync, Label;
    DocNodeIs(h, s, m);
    SmallForms(w);
    SyncSmall(DocNode(h, s, m), w);
    if m == f {
      DocRewritten(h, now, next, m);
    }
  }

  lemma ResultSees(n: Node, m: nat, mof: bool, w: Node, turn: nat, of: bool, f: nat, now: Scalar, next: Scalar)
    requires ResultIs(n, m, mof, f, now) && Writes(w, turn, of, f, now, next) && m < turn
    ensures ResultIs(Sync(n, w), m, mof, f, next)
  {
    hide Small, Find, Sync;
    SmallForms(n);
    SmallForms(w);
    SyncSmall(n, w);
    SyncKeepsForm(n, w);
    if mof {
      SmallWith(n, f, next);
    }
  }

  lemma SmallWith(n: Node, f: nat, s: Scalar)
    requires Small(n) && EXTRA in n.vals
    ensures var r := Dict(n.id, n.keys, n.vals[EXTRA := EntryIn(f, s)]);
            Formed(r) ==> Small(r)
  {
    LabelEntry(Origin(f, None), s);
  }

  /** After a later result is written the documents stand with its entry. */
  lemma WrittenStands(world: World, c: Setting, now: Scalar, w: Node, turn: nat, of: bool, next: Scalar)
    requires Standing(world, c, now) && |world.merged| <= turn
    requires Writes(w, turn, of, c.f, now, next)
    ensures Fit(world) && Formed(w)
    ensures Standing(Written(world, w), c, next) && |Written(world, w).merged| == |world.merged|
  {
    hide ResultIs, DocNode, Sync;
    StandingFits(world, c, now);
    WritesForms(w, turn, of, c.f, now, next);
    forall m | 0 <= m < |c.heads| ensures Sync(world.docs[m], w) == DocNode(c.heads[m], c.Body(m, next), m) {
      DocSees(c.heads[m], c.Body(m, now), m, w, turn, of, c.f, now, next);
    }
    forall m | 0 <= m < |world.merged| ensures ResultIs(Sync(world.merged[m], w), m, c.Of(m), c.f, next) {
      ResultSees(world.merged[m], m, c.Of(m), w, turn, of, c.f, now, next);
    }
    assert ResultsAre(SyncAll(world.merged, w), c, next);
  }

  lemma WritesForms(w: Node, turn: nat, of: bool, f: nat, now: Scalar, next: Scalar)
    requires Writes(w, turn, of, f, now, next)
    ensures Formed(w)
  {
  }

  // ---------- what they see of the yes/no replacement ----------

  /** A document seen by another one: they share nothing. */
  lemma DocUnseen(h: Head, s: Option<Scalar>, m: nat, h': Head, s': Option<Scalar>, turn: nat)
    requires m != turn
    ensures Sync(DocNode(h, s, m), DocNode(h', s', turn)) == DocNode(h, s, m)
  {
    hide Small, Find, Sync, Label;
    DocNodeIs(h, s, m);
    DocNodeIs(h', s', turn);
    SyncSmall(DocNode(h, s, m), DocNode(h', s', turn));
  }

  lemma ResultSeesDoc(n: Node, m: nat, of: bool, f: nat, now: Scalar, h: Head, s: Option<Scalar>, turn: nat,
                      next: Scalar)
    requires ResultIs(n, m, of, f, now) && (if turn == f then s == Some(next) else next == now)
    ensures ResultIs(Sync(n, DocNode(h, s, turn)), m, of, f, next)
  {
    hide Small, Find, Sync, Label;
    var w := DocNode(h, s, turn);
    DocNodeIs(h, s, turn);
    SmallForms(n);
    SmallForms(w);
    SyncSmall(n, w);
    SyncKeepsForm(n, w);
    if of {
      SmallWith(n, f, next);
    }
  }

  /** The shared entry after the replacement in the document of a turn. */
  function Read(c: Setting, turn: nat, now: Scalar): Scalar {
    if turn == c.f then After(now) else now
  }

  lemma DocsReplaced(world: World, c: Setting, now: Scalar, turn: nat)
    requires Standing(world, c, now) && turn < |c.heads| && c.Proper()
    ensures var doc := NormaliseNode(world.docs[turn]);
            var next := Read(c, turn, now);
            && doc == DocNode(c.heads[turn], c.Body(turn, next), turn)
            && forall m :: 0 <= m < |c.heads| ==>
                 Sync(world.docs[turn := doc][m], doc) == DocNode(c.heads[m], c.Body(m, next), m)
  {
    hide ResultsAre, DocNode, Sync, PlainHead, After, Small, FirstDefault, SameType;
    var next := Read(c, turn, now);
    var h, s := c.heads[turn], c.Body(turn, next);
    var doc := DocNode(h, s, turn);
    DocReplaced(h, c.Body(turn, now), turn);
    DocNodeIs(h, s, turn);
    SyncSelf(doc);
    forall m | 0 <= m < |c.heads| && m != turn ensures Sync(world.docs[m], doc) == world.docs[m] {
      DocUnseen(c.heads[m], c.Body(m, now), m, h, s, turn);
    }
  }

  lemma ResultsReplaced(merged: seq<Node>, c: Setting, now: Scalar, h: Head, s: Option<Scalar>, turn: nat, next: Scalar)
    requires c.f < |c.heads| && ResultsAre(merged, c, now)
    requires if turn == c.f then s == Some(next) else next == now
    ensures ResultsAre(SyncAll(merged, DocNode(h, s, turn)), c, next)
  {
    hide ResultIs, DocNode, Sync;
    forall m | 0 <= m < |merged| ensures ResultIs(Sync(merged[m], DocNode(h, s, turn)), m, c.Of(m), c.f, next) {
      ResultSeesDoc(merged[m], m, c.Of(m), c.f, now, h, s, turn, next);
    }
  }

  /** The 'default' document's own turn reads its entry as a boolean, and every result sees that. */
  lemma ReplacedStands(world: World, c: Setting, now: Scalar, turn: nat)
    requires Standing(world, c, now) && turn < |c.heads| && c.Proper()
    ensures Fit(world) && |Replaced(world, turn).merged| == |world.merged|
    ensures Standing(Replaced(world, turn), c, Read(c, turn, now))
  {
    hide ResultsAre, DocNode, Sync, After, NormaliseNode;
    StandingFits(world, c, now);
    var next := Read(c, turn, now);
    DocsReplaced(world, c, now, turn);
    ResultsReplaced(world.merged, c, now, c.heads[turn], c.Body(turn, next), turn, next);
  }

  // ---------- the schema files ----------

  /** A file named 'default', based on the file named 'parent', and one file for every name. */
  function FilesOf(names: seq<string>, kind: string, s: Option<Scalar>): (r: seq<Tree>)
    ensures |r| == |names| + 1 && r[0] == Doc(Head("any", kind, "default", Some("parent")), None)
    ensures forall i :: 0 <= i < |names| ==> r[i + 1] == Doc(Head("any", kind, names[i], None), s)
  {
    [Doc(Head("any", kind, "default", Some("parent")), None)]
    + seq(|names|, i requires 0 <= i < |names| => Doc(Head("any", kind, names[i], None), s))
  }

  /** Names of the files that documents are based on, the 'default' file aside. */
  function ParentNames(heads: seq<Head>): (r: seq<string>)
    ensures "default" !in r && "parent" in r
    ensures forall m :: 0 <= m < |heads| && heads[m].parent.Some? ==>
              heads[m].parent.value == "default" || heads[m].parent.value in r
  {
    if heads == [] then ["parent"]
    else
      var rest, last := ParentNames(heads[..|heads| - 1]), heads[|heads| - 1];
      if last.parent.None? || last.parent.value == "default" then rest else rest + [last.parent.value]
  }

  /** What the parents' files of a kind have under "extra". */
  function Inherited(c: Setting, kind: string): Option<Scalar>
    requires c.f < |c.heads|
  {
    if c.inherited && kind == c.heads[c.f].kind then Some(c.b) else None
  }

  function LoadOf(c: Setting, kind: Tree): (r: seq<Tree>)
    requires c.f < |c.heads|
  {
    match kind
    case Leaf(StrV(k)) => FilesOf(ParentNames(c.heads), k, Inherited(c, k))
    case _ => []
  }

  function Loading(c: Setting): Loader
    requires c.f < |c.heads|
  {
    (provider: Tree, kind: Tree) => LoadOf(c, kind)
  }

  /** All files loaded for a kind are of that kind. */
  ghost predicate KindFiles(load: Loader) {
    forall provider, kind, i :: 0 <= i < |load(provider, kind)| ==>
      HasAttr(load(provider, kind)[i], KIND) && load(provider, kind)[i].vals[KIND] == kind
  }

  lemma FilesForm(names: seq<string>, kind: string, s: Option<Scalar>)
    ensures Documents(FilesOf(names, kind, s))
    ensures forall i :: 0 <= i <= |names| ==>
              && SmallTree(FilesOf(names, kind, s)[i])
              && HeadIs(FilesOf(names, kind, s)[i], FileHead(names, kind, i))
              && EntryOf(FilesOf(names, kind, s)[i]) == if i == 0 then None else s
  {
    hide Doc, SmallTree, HeadIs, EntryOf, WellFormed;
    DocForm(Head("any", kind, "default", Some("parent")), None);
    forall i | 0 <= i < |names|
      ensures var t := Doc(Head("any", kind, names[i], None), s);
              t.Obj? && WellFormed(t) && SmallTree(t) && HeadIs(t, FileHead(names, kind, i + 1)) && EntryOf(t) == s
    {
      DocForm(Head("any", kind, names[i], None), s);
    }
    forall i | 0 <= i <= |names|
      ensures var t := FilesOf(names, kind, s)[i];
              && t.Obj? && WellFormed(t) && SmallTree(t) && HeadIs(t, FileHead(names, kind, i))
              && EntryOf(t) == if i == 0 then None else s
    {
      if i != 0 {
        assert FilesOf(names, kind, s)[i - 1 + 1] == Doc(Head("any", kind, names[i - 1], None), s);
      }
    }
  }

  function FileHead(names: seq<string>, kind: string, i: nat): Head
    requires i <= |names|
  {
    if i == 0 then Head("any", kind, "default", Some("parent")) else Head("any", kind, names[i - 1], None)
  }

  lemma LoadingLoads(c: Setting)
    requires c.f < |c.heads|
    ensures Loads(Loading(c)) && KindFiles(Loading(c))
    ensures forall provider, kind :: Loading(c)(provider, kind) == LoadOf(c, kind)
  {
    hide Doc, HeadIs, FilesOf, WellFormed;
    var load := Loading(c);
    forall provider, kind: Tree
      ensures Documents(load(provider, kind))
      ensures forall i :: 0 <= i < |load(provider, kind)| ==>
                HasAttr(load(provider, kind)[i], KIND) && load(provider, kind)[i].vals[KIND] == kind
    {
      if kind.Leaf? && kind.scalar.StrV? {
        LoadedForm(c, kind.scalar.s);
      }
    }
  }

  lemma LoadedForm(c: Setting, k: string)
    requires c.f < |c.heads|
    ensures Documents(LoadOf(c, Text(k)))
    ensures forall i :: 0 <= i < |LoadOf(c, Text(k))| ==>
              HasAttr(LoadOf(c, Text(k))[i], KIND) && LoadOf(c, Text(k))[i].vals[KIND] == Text(k)
  {
    hide Doc, SmallTree, WellFormed, EntryOf;
    var names := ParentNames(c.heads);
    FilesForm(names, k, Inherited(c, k));
    forall i | 0 <= i <= |names|
      ensures var t := FilesOf(names, k, Inherited(c, k))[i]; HasAttr(t, KIND) && t.vals[KIND] == Text(k)
    {
      assert HeadIs(FilesOf(names, k, Inherited(c, k))[i], FileHead(names, k, i));
    }
  }

  /** Where a name is found among the files. */
  function FoundAt(names: seq<string>, name: string): (r: nat)
    requires name == "default" || name in names
    requires "default" !in names
    ensures r <= |names| && (r == 0 <==> name == "default") && (r != 0 ==> names[r - 1] == name)
  {
    if name == "default" then 0 else NameAt(names, name) + 1
  }

  function NameAt(names: seq<string>, name: string): (r: nat)
    requires name in names
    ensures r < |names| && names[r] == name
  {
    if names[0] == name then 0 else NameAt(names[1..], name) + 1
  }

  lemma {:induction false} SelectNamed(docs: seq<Tree>, names: seq<string>, name: string)
    requires |docs| == |names| && name in names
    requires forall i :: 0 <= i < |docs| ==> HasAttr(docs[i], NAME) && NameOf(docs[i]) == Text(names[i])
    ensures SelectByName(docs, Text(name)) == Success(Some(NameAt(names, name)))
  {
    if names[0] != name {
      SelectNamed(docs[1..], names[1..], name);
    }
  }

  lemma FileNamed(names: seq<string>, kind: string, s: Option<Scalar>, i: nat)
    requires i <= |names|
    ensures var t := FilesOf(names, kind, s)[i];
            HasAttr(t, NAME) && NameOf(t) == Text(if i == 0 then "default" else names[i - 1])
  {
    hide Doc, SmallTree, WellFormed, EntryOf;
    FilesForm(names, kind, s);
    assert HeadIs(FilesOf(names, kind, s)[i], FileHead(names, kind, i));
  }

  lemma SelectNext(docs: seq<Tree>, name: Tree)
    requires docs != [] && HasAttr(docs[0], NAME)
    ensures NameOf(docs[0]) == name ==> SelectByName(docs, name) == Success(Some(0))
    ensures var rest := SelectByName(docs[1..], name);
            NameOf(docs[0]) != name && rest.Success? && rest.value.Some? ==>
              SelectByName(docs, name) == Success(Some(rest.value.value + 1))
  {
  }

  lemma FileFound(names: seq<string>, kind: string, s: Option<Scalar>, name: string)
    requires name == "default" || name in names
    requires "default" !in names
    ensures SelectByName(FilesOf(names, kind, s), Text(name)) == Success(Some(FoundAt(names, name)))
  {
    hide FilesOf, HasAttr, SelectByName;
    var files := FilesOf(names, kind, s);
    FileNamed(names, kind, s, 0);
    SelectNext(files, Text(name));
    if name != "default" {
      RestNamed(names, kind, s);
      SelectNamed(files[1..], names, name);
    }
  }

  lemma RestNamed(names: seq<string>, kind: string, s: Option<Scalar>)
    ensures var rest := FilesOf(names, kind, s)[1..];
            forall i :: 0 <= i < |rest| ==> HasAttr(rest[i], NAME) && NameOf(rest[i]) == Text(names[i])
  {
    hide FilesOf, HasAttr;
    forall i | 0 <= i < |names|
      ensures HasAttr(FilesOf(names, kind, s)[1..][i], NAME)
          && NameOf(FilesOf(names, kind, s)[1..][i]) == Text(names[i])
    {
      FileNamed(names, kind, s, i + 1);
    }
  }
}
