/** Layering an input document over the defaults of its kind along its `based_on` chain. */
module Layering {
  import opened Results
  import opened Trees
  import opened Merge
  import opened MergeFacts

  const BASED_ON := "based_on"
  const KIND := "kind"
  const VERSION := "version"
  const DEFAULT := Leaf(StrV("default"))

  datatype LayerError =
    | Merging(error: MergeError)
    | NoAttribute(key: string)
    | NotText(key: string)
    | UnknownParent
    | NoDefault
    | EndlessChain

  type Layered = Result<Tree, LayerError>

  /** Documents are well-formed objects. */
  ghost predicate Documents(docs: seq<Tree>) {
    forall i :: 0 <= i < |docs| ==> docs[i].Obj? && WellFormed(docs[i])
  }

  /** Position of the first document called `name`; reading a missing name fails. */
  function SelectByName(docs: seq<Tree>, name: Tree): (r: Result<Option<nat>, LayerError>)
    ensures r.Success? && r.value.Some? ==>
              r.value.value < |docs| && HasAttr(docs[r.value.value], NAME) && NameOf(docs[r.value.value]) == name
  {
    if docs == [] then Success(None)
    else if !HasAttr(docs[0], NAME) then Failure(NoAttribute(NAME))
    else if NameOf(docs[0]) == name then Success(Some(0))
    else
      var rest :- SelectByName(docs[1..], name);
      Success(match rest case None => None case Some(i) => Some(i + 1))
  }

  /** What a search by name comes to: the first document of the name, unless one without a name is before it. */
  lemma {:induction false} SelectsFirst(docs: seq<Tree>, name: Tree)
    ensures match SelectByName(docs, name)
            case Success(Some(i)) => i < |docs| && NamedUpTo(docs, name, i) && HasAttr(docs[i], NAME)
                                     && NameOf(docs[i]) == name
            case Success(None) => NamedUpTo(docs, name, |docs|)
            case Failure(e) => e == NoAttribute(NAME)
                               && exists i: nat :: i < |docs| && NamedUpTo(docs, name, i) && !HasAttr(docs[i], NAME)
  {
    if docs != [] && HasAttr(docs[0], NAME) && NameOf(docs[0]) != name {
      SelectsFirst(docs[1..], name);
      forall n: nat | n < |docs| ensures NamedUpTo(docs[1..], name, n) ==> NamedUpTo(docs, name, n + 1) {
        assert forall j :: 0 < j <= n ==> docs[j] == docs[1..][j - 1];
      }
    }
  }

  /** The first `n` documents have names, and other ones. */
  predicate NamedUpTo(docs: seq<Tree>, name: Tree, n: nat) {
    n <= |docs| && forall j :: 0 <= j < n ==> HasAttr(docs[j], NAME) && NameOf(docs[j]) != name
  }

  predicate IsDefault(doc: Tree) {
    HasAttr(doc, NAME) && NameOf(doc) == DEFAULT
  }

  /**
   * Position of the first input document named 'default' of the kind of `doc`; kinds are read only
   * when a name matches.
   */
  function ConfigAt(docs: seq<Tree>, doc: Tree): (r: Result<Option<nat>, LayerError>)
    ensures r.Success? && r.value.Some? ==>
              && r.value.value < |docs| && IsDefault(docs[r.value.value])
              && HasAttr(docs[r.value.value], KIND) && HasAttr(doc, KIND)
              && docs[r.value.value].vals[KIND] == doc.vals[KIND]
  {
    if docs == [] then Success(None)
    else if !HasAttr(docs[0], NAME) then Failure(NoAttribute(NAME))
    else if NameOf(docs[0]) == DEFAULT && (!HasAttr(docs[0], KIND) || !HasAttr(doc, KIND)) then
      Failure(NoAttribute(KIND))
    else if NameOf(docs[0]) == DEFAULT && docs[0].vals[KIND] == doc.vals[KIND] then Success(Some(0))
    else
      var rest :- ConfigAt(docs[1..], doc);
      Success(match rest case None => None case Some(i) => Some(i + 1))
  }

  /** The first `n` documents have names, and none is a document named 'default' of the kind of `doc`. */
  predicate NoConfigUpTo(docs: seq<Tree>, doc: Tree, n: nat) {
    n <= |docs| && forall j :: 0 <= j < n ==>
      && HasAttr(docs[j], NAME)
      && (IsDefault(docs[j]) ==> HasAttr(docs[j], KIND) && HasAttr(doc, KIND) && docs[j].vals[KIND] != doc.vals[KIND])
  }

  /** What the search for the user's document named 'default' of a kind comes to. */
  lemma {:induction false} ConfigIsFirst(docs: seq<Tree>, doc: Tree)
    ensures match ConfigAt(docs, doc)
            case Success(Some(i)) => i < |docs| && NoConfigUpTo(docs, doc, i) && IsDefault(docs[i])
            case Success(None) => NoConfigUpTo(docs, doc, |docs|)
            case Failure(e) =>
              exists i: nat :: i < |docs| && NoConfigUpTo(docs, doc, i)
                && if !HasAttr(docs[i], NAME) then e == NoAttribute(NAME)
                   else e == NoAttribute(KIND) && IsDefault(docs[i]) && !(HasAttr(docs[i], KIND) && HasAttr(doc, KIND))
  {
    hide HasAttr, NameOf;
    if docs != [] {
      ConfigIsFirst(docs[1..], doc);
      forall n: nat | n < |docs| && NoConfigUpTo(docs, doc, 1)
        ensures NoConfigUpTo(docs[1..], doc, n) ==> NoConfigUpTo(docs, doc, n + 1)
      {
        assert forall j :: 0 < j <= n ==> docs[j] == docs[1..][j - 1];
      }
    }
  }

  function SelectConfig(docs: seq<Tree>, doc: Tree): (r: Result<Option<Tree>, LayerError>)
    ensures r.Success? && r.value.Some? ==> r.value.value in docs
  {
    var at :- ConfigAt(docs, doc);
    Success(match at case None => None case Some(i) => Some(docs[i]))
  }

  /**
   * A document of the chain: `at` is its position among the files. The file called 'default' is
   * the very object the chain is merged into, so merging it means merging that object with itself.
   */
  datatype Link = Link(doc: Tree, at: Option<nat>)

  predicate IsBase(files: seq<Tree>, at: Option<nat>) {
    at.Some? && SelectByName(files, DEFAULT) == Success(at)
  }

  function Stamp(t: Tree, version: string): Tree
    requires t.Obj?
  {
    Put(t, VERSION, Leaf(StrV(version)))
  }

  lemma StampKeepsForm(t: Tree, version: string)
    requires t.Obj? && WellFormed(t)
    ensures Stamp(t, version).Obj? && WellFormed(Stamp(t, version))
  {
    assert VERSION !in t.vals ==> VERSION !in t.keys;
  }

  function MergeInto(base: Tree, ext: Tree): (r: Layered)
    requires base.Obj? && ext.Obj? && WellFormed(base) && WellFormed(ext)
    ensures r.Success? ==> r.value.Obj? && WellFormed(r.value)
  {
    var m := MergeObj(base, ext);
    assert m.Success? ==> WellFormed(m.value) by {
      if m.Success? {
        MergeKeepsWellFormed("", base, ext);
      }
    }
    match m
    case Success(t) => Success(t)
    case Failure(e) => Failure(Merging(e))
  }

  /** `merged['version'] = VERSION`, then the document on top. */
  function Stack(files: seq<Tree>, version: string, merged: Tree, link: Link): (r: Layered)
    requires merged.Obj? && WellFormed(merged) && link.doc.Obj? && WellFormed(link.doc)
    ensures r.Success? ==> r.value.Obj? && WellFormed(r.value)
  {
    var stamped := Stamp(merged, version);
    StampKeepsForm(merged, version);
    MergeInto(stamped, if IsBase(files, link.at) then stamped else link.doc)
  }

  /** The file called 'default' with the user's 'default' document of the kind merged into it. */
  function Base(files: seq<Tree>, docs: seq<Tree>, root: Tree): (r: Layered)
    requires Documents(files) && Documents(docs)
    ensures r.Success? ==> r.value.Obj? && WellFormed(r.value)
  {
    var config :- SelectConfig(docs, root);
    var at :- SelectByName(files, DEFAULT);
    if at.None? then Failure(NoDefault)
    else if config.None? then Success(files[at.value])
    else MergeInto(files[at.value], config.value)
  }

  /** What can be joined to a text. */
  predicate IsText(t: Tree) {
    t.Leaf? && t.scalar.StrV?
  }

  /** The parent `doc` names, as the recursion looks it up; a message joins the name and the parent's. */
  function Parent(files: seq<Tree>, doc: Tree): (r: Result<Link, LayerError>)
    requires HasAttr(doc, BASED_ON)
    ensures r.Success? && r.value.at.Some? ==> r.value.at.value < |files| && r.value.doc == files[r.value.at.value]
    ensures r.Success? ==> r.value.at.Some?
  {
    if !HasAttr(doc, NAME) then Failure(NoAttribute(NAME))
    else if !IsText(NameOf(doc)) then Failure(NotText(NAME))
    else if !IsText(doc.vals[BASED_ON]) then Failure(NotText(BASED_ON))
    else
      var p :- SelectByName(files, doc.vals[BASED_ON]);
      if p.None? then Failure(UnknownParent) else Success(Link(files[p.value], p))
  }

  /** A document's parent is the first file of the name it is based on; without one the parent is unknown. */
  lemma ParentIsNamed(files: seq<Tree>, doc: Tree)
    requires HasAttr(doc, BASED_ON)
    ensures var name := doc.vals[BASED_ON];
            match Parent(files, doc)
            case Success(link) =>
              exists i: nat :: i < |files| && link == Link(files[i], Some(i)) && NamedUpTo(files, name, i)
                && HasAttr(files[i], NAME) && NameOf(files[i]) == name
            case Failure(e) => e == UnknownParent ==> NamedUpTo(files, name, |files|)
  {
    hide SelectByName, NamedUpTo;
    SelectsFirst(files, doc.vals[BASED_ON]);
  }

  /**
   * The recursion of merge_parent, cut off after `fuel` parents: None when it has not come back
   * by then.
   */
  function MergeParent(files: seq<Tree>, docs: seq<Tree>, version: string, link: Link, fuel: nat): (r: Option<Layered>)
    requires Documents(files) && Documents(docs) && link.doc.Obj? && WellFormed(link.doc)
    ensures r.Some? && r.value.Success? ==> r.value.value.Obj? && WellFormed(r.value.value)
    decreases fuel
  {
    if HasAttr(link.doc, BASED_ON) then
      match Parent(files, link.doc)
      case Failure(e) => Some(Failure(e))
      case Success(parent) =>
        if fuel == 0 then None
        else
          match MergeParent(files, docs, version, parent, fuel - 1)
          case None => None
          case Some(Failure(e)) => Some(Failure(e))
          case Some(Success(merged)) => Some(Stack(files, version, merged, link))
    else
      match Base(files, docs, link.doc)
      case Failure(e) => Some(Failure(e))
      case Success(base) => Some(Stack(files, version, base, link))
  }

  // ---------- termination ----------

  /** The n-th document up the chain; None past its end or past a failed lookup. */
  function Ancestor(files: seq<Tree>, link: Link, n: nat): Option<Link> {
    if n == 0 then Some(link)
    else
      match Ancestor(files, link, n - 1)
      case None => None
      case Some(l) =>
        if !HasAttr(l.doc, BASED_ON) then None
        else
          match Parent(files, l.doc)
          case Failure(_) => None
          case Success(parent) => Some(parent)
  }

  lemma {:induction false} AncestorShift(files: seq<Tree>, link: Link, n: nat)
    requires HasAttr(link.doc, BASED_ON) && Parent(files, link.doc).Success?
    ensures Ancestor(files, link, n + 1) == Ancestor(files, Parent(files, link.doc).value, n)
  {
    if n == 0 {
      assert Ancestor(files, link, 0) == Some(link);
    } else {
      AncestorShift(files, link, n - 1);
    }
  }

  lemma {:induction false} AncestorsEnd(files: seq<Tree>, link: Link, m: nat, n: nat)
    requires m <= n && Ancestor(files, link, m).None?
    ensures Ancestor(files, link, n).None?
  {
    if m < n {
      AncestorsEnd(files, link, m, n - 1);
    }
  }

  /** The recursion is back after `fuel` parents exactly when the chain is no longer than that. */
  lemma {:induction false} ReturnsWhenChainEnds(files: seq<Tree>, docs: seq<Tree>, version: string, link: Link,
                                                fuel: nat)
    requires Documents(files) && Documents(docs) && link.doc.Obj? && WellFormed(link.doc)
    ensures MergeParent(files, docs, version, link, fuel).Some? <==> Ancestor(files, link, fuel + 1).None?
    decreases fuel
  {
    assert Ancestor(files, link, 0) == Some(link);
    if HasAttr(link.doc, BASED_ON) && Parent(files, link.doc).Success? {
      AncestorShift(files, link, fuel);
      if fuel != 0 {
        ReturnsWhenChainEnds(files, docs, version, Parent(files, link.doc).value, fuel - 1);
      }
    } else {
      assert Ancestor(files, link, 1).None?;
      AncestorsEnd(files, link, 1, fuel + 1);
    }
  }

  /** Once back, more room changes nothing. */
  lemma {:induction false} MoreRoomSameResult(files: seq<Tree>, docs: seq<Tree>, version: string, link: Link, fuel: nat,
                                              more: nat)
    requires Documents(files) && Documents(docs) && link.doc.Obj? && WellFormed(link.doc)
    requires fuel <= more && MergeParent(files, docs, version, link, fuel).Some?
    ensures MergeParent(files, docs, version, link, more) == MergeParent(files, docs, version, link, fuel)
    decreases fuel
  {
    if HasAttr(link.doc, BASED_ON) && Parent(files, link.doc).Success? && fuel != 0 {
      MoreRoomSameResult(files, docs, version, Parent(files, link.doc).value, fuel - 1, more - 1);
    }
  }

  /** Equal ancestors have equal ancestors. */
  lemma {:induction false} Repeats(files: seq<Tree>, link: Link, i: nat, j: nat, n: nat)
    requires Ancestor(files, link, i) == Ancestor(files, link, j)
    ensures Ancestor(files, link, i + n) == Ancestor(files, link, j + n)
  {
    if n != 0 {
      Repeats(files, link, i, j, n - 1);
    }
  }

  /** A chain that meets the same file twice never ends. */
  lemma {:induction false} LoopNeverEnds(files: seq<Tree>, link: Link, i: nat, j: nat, n: nat)
    requires i < j && Ancestor(files, link, j).Some? && Ancestor(files, link, i) == Ancestor(files, link, j)
    ensures Ancestor(files, link, n).Some?
    decreases n
  {
    if n <= j {
      if Ancestor(files, link, n).None? {
        AncestorsEnd(files, link, n, j);
      }
    } else {
      LoopNeverEnds(files, link, i, j, n - (j - i));
      Repeats(files, link, i, j, n - j);
    }
  }

  /** The chain of `link` meets the same file as i-th and as j-th parent. */
  ghost predicate Meets(files: seq<Tree>, link: Link, i: nat, j: nat) {
    && 1 <= i < j
    && Ancestor(files, link, j).Some?
    && Ancestor(files, link, i) == Ancestor(files, link, j)
  }

  /** Positions in the files of the first `n` parents. */
  ghost function Visited(files: seq<Tree>, link: Link, n: nat): set<nat>
    requires Ancestor(files, link, n).Some?
  {
    if n == 0 then {}
    else Visited(files, link, n - 1) + {Ancestor(files, link, n).value.at.value}
  }

  lemma {:induction false} VisitedBy(files: seq<Tree>, link: Link, n: nat, p: nat) returns (k: nat)
    requires Ancestor(files, link, n).Some? && p in Visited(files, link, n)
    ensures 1 <= k <= n && p < |files| && Ancestor(files, link, k) == Some(Link(files[p], Some(p)))
  {
    if Ancestor(files, link, n).value.at == Some(p) {
      k := n;
    } else {
      k := VisitedBy(files, link, n - 1, p);
    }
  }

  lemma {:induction false} RepeatOrCount(files: seq<Tree>, link: Link, n: nat)
    requires Ancestor(files, link, n).Some?
    ensures |Visited(files, link, n)| == n || exists i: nat, j: nat :: j <= n && Meets(files, link, i, j)
  {
    if n != 0 {
      RepeatOrCount(files, link, n - 1);
      var p := Ancestor(files, link, n).value.at.value;
      if p in Visited(files, link, n - 1) {
        var k := VisitedBy(files, link, n - 1, p);
        assert Meets(files, link, k, n);
      }
    }
  }

  lemma {:induction false} NumbersBelow(s: set<nat>, n: nat)
    requires forall p :: p in s ==> p < n
    ensures |s| <= n
  {
    if n == 0 {
      assert s == {};
    } else {
      NumbersBelow(s - {n - 1}, n - 1);
      assert s <= (s - {n - 1}) + {n - 1};
    }
  }

  lemma VisitedBelow(files: seq<Tree>, link: Link, n: nat)
    requires Ancestor(files, link, n).Some?
    ensures |Visited(files, link, n)| <= |files|
  {
    forall p | p in Visited(files, link, n) ensures p < |files| {
      var _ := VisitedBy(files, link, n, p);
    }
    NumbersBelow(Visited(files, link, n), |files|);
  }

  /** Whether some file is met twice within the first `n` parents. */
  ghost predicate Loops(files: seq<Tree>, link: Link, n: nat) {
    exists i: nat, j: nat :: j <= n && Meets(files, link, i, j)
  }

  lemma LongChainLoops(files: seq<Tree>, link: Link)
    requires Ancestor(files, link, |files| + 1).Some?
    ensures Loops(files, link, |files| + 1)
  {
    RepeatOrCount(files, link, |files| + 1);
    VisitedBelow(files, link, |files| + 1);
  }

  lemma LoopHasEveryAncestor(files: seq<Tree>, link: Link, m: nat, n: nat)
    requires Loops(files, link, m)
    ensures Ancestor(files, link, n).Some?
  {
    var i: nat, j: nat :| j <= m && Meets(files, link, i, j);
    LoopNeverEnds(files, link, i, j, n);
  }

  /**
   * merge_parent fails to come back exactly when the chain meets some file twice, and then it
   * does so within its first |files| + 1 parents; otherwise |files| parents are room enough.
   */
  lemma ReturnsExactlyOnAcyclicChains(files: seq<Tree>, docs: seq<Tree>, version: string, link: Link)
    requires Documents(files) && Documents(docs) && link.doc.Obj? && WellFormed(link.doc)
    ensures MergeParent(files, docs, version, link, |files|).None? <==> Loops(files, link, |files| + 1)
    ensures (forall fuel :: MergeParent(files, docs, version, link, fuel).None?) <==> Loops(files, link, |files| + 1)
  {
    hide MergeParent, Ancestor;
    var n := |files| + 1;
    ReturnsWhenChainEnds(files, docs, version, link, |files|);
    if Ancestor(files, link, n).Some? {
      LongChainLoops(files, link);
      forall fuel: nat ensures MergeParent(files, docs, version, link, fuel).None? {
        LoopHasEveryAncestor(files, link, n, fuel + 1);
        ReturnsWhenChainEnds(files, docs, version, link, fuel);
      }
    } else if Loops(files, link, n) {
      LoopHasEveryAncestor(files, link, n, n);
    }
  }
}
