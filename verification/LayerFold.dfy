/** What merge_parent computes: one left fold over the layers of the chain, the version key aside. */
module LayerFold {
  import opened Results
  import opened Trees
  import opened Merge
  import opened MergeFacts
  import opened MergeLaws
  import opened Absorption
  import opened Layering

  // ---------- the version key aside ----------

  function Without(ks: seq<string>, key: string): seq<string> {
    if ks == [] then []
    else
      var rest := Without(ks[..|ks| - 1], key);
      if ks[|ks| - 1] == key then rest else rest + [ks[|ks| - 1]]
  }

  /** The object without its version. */
  function Strip(t: Tree): (r: Tree)
    requires t.Obj?
    ensures r.Obj?
  {
    Obj(Without(t.keys, VERSION), t.vals - {VERSION})
  }

  lemma {:induction false} WithoutMembers(ks: seq<string>, key: string)
    ensures forall k :: k in Without(ks, key) <==> k in ks && k != key
    ensures Distinct(ks) ==> Distinct(Without(ks, key))
  {
    if ks != [] {
      var front := ks[..|ks| - 1];
      WithoutMembers(front, key);
      assert ks == front + [ks[|ks| - 1]];
      assert Distinct(ks) ==> ks[|ks| - 1] !in front;
    }
  }

  lemma {:induction false} WithoutAppend(a: seq<string>, b: seq<string>, key: string)
    ensures Without(a + b, key) == Without(a, key) + Without(b, key)
  {
    if b == [] {
      assert a + b == a;
    } else {
      assert (a + b)[..|a + b| - 1] == a + b[..|b| - 1];
      WithoutAppend(a, b[..|b| - 1], key);
    }
  }

  lemma {:induction false} NewKeysWithout(ks: seq<string>, have: map<string, Tree>, key: string)
    ensures NewKeys(Without(ks, key), have - {key}) == Without(NewKeys(ks, have), key)
  {
    if ks != [] {
      var front, k := ks[..|ks| - 1], ks[|ks| - 1];
      NewKeysWithout(front, have, key);
      if k != key {
        NewKeysSnoc(Without(front, key), k, have - {key});
      }
      if k !in have {
        WithoutAppend(NewKeys(front, have), [k], key);
        assert Without([k], key) == if k == key then [] else [k];
      }
    }
  }

  lemma StripKeepsForm(t: Tree)
    requires t.Obj? && WellFormed(t)
    ensures WellFormed(Strip(t))
  {
    WithoutMembers(t.keys, VERSION);
  }

  /** Stamping a version is invisible once the version is stripped. */
  lemma StripStamp(t: Tree, version: string)
    requires t.Obj? && WellFormed(t)
    ensures Strip(Stamp(t, version)) == Strip(t)
  {
    WithoutAppend(t.keys, [VERSION], VERSION);
    assert Without([VERSION], VERSION) == [];
    assert Without(t.keys, VERSION) + [] == Without(t.keys, VERSION);
    assert Strip(Stamp(t, version)).vals == Strip(t).vals;
  }

  lemma StripClash(a: Tree, b: Tree, k: string)
    requires a.Obj? && b.Obj? && WellFormed(b)
    ensures WellFormed(Strip(b))
    ensures Clash(Strip(a), Strip(b), k) <==> k != VERSION && Clash(a, b, k)
  {
    StripKeepsForm(b);
  }

  /** The merge and the removal of versions commute; only the versions themselves can clash besides. */
  lemma {:induction false} StripMerge(a: Tree, b: Tree)
    requires a.Obj? && b.Obj? && WellFormed(a) && WellFormed(b)
    ensures WellFormed(Strip(b))
    ensures MergeObj(a, b).Success? <==> MergeObj(Strip(a), Strip(b)).Success? && !Clash(a, b, VERSION)
    ensures MergeObj(a, b).Success? ==> MergeObj(Strip(a), Strip(b)) == Success(Strip(MergeObj(a, b).value))
  {
    StripKeepsForm(b);
    ObjCharacterised(a, b);
    ObjCharacterised(Strip(a), Strip(b));
    forall k ensures Clash(Strip(a), Strip(b), k) <==> k != VERSION && Clash(a, b, k) {
      StripClash(a, b, k);
    }
    if MergeObj(a, b).Success? {
      StrippedFields(a, b);
    }
  }

  lemma {:induction false} StrippedFields(a: Tree, b: Tree)
    requires a.Obj? && b.Obj? && WellFormed(b) && WellFormed(Strip(b))
    requires MergeObj(a, b).Success? && MergeObj(Strip(a), Strip(b)).Success?
    ensures MergeObj(Strip(a), Strip(b)).value == Strip(MergeObj(a, b).value)
  {
    ObjCharacterised(a, b);
    ObjCharacterised(Strip(a), Strip(b));
    var r, s := Strip(MergeObj(a, b).value), MergeObj(Strip(a), Strip(b)).value;
    WithoutAppend(a.keys, NewKeys(b.keys, a.vals), VERSION);
    NewKeysWithout(b.keys, a.vals, VERSION);
    forall k | k in r.vals ensures r.vals[k] == s.vals[k] {
      assert s.vals[k] == FieldOf(Strip(a), Strip(b), k) == FieldOf(a, b, k);
    }
    SameObject(r, s);
  }

  // ---------- the chain, then the fold ----------

  /** The chain of documents, root first; the lookups of merge_parent and nothing else. */
  function Descent(files: seq<Tree>, link: Link, fuel: nat): (r: Option<Result<seq<Link>, LayerError>>)
    ensures r.Some? && r.value.Success? ==> r.value.value != []
    decreases fuel
  {
    if HasAttr(link.doc, BASED_ON) then
      match Parent(files, link.doc)
      case Failure(e) => Some(Failure(e))
      case Success(parent) =>
        if fuel == 0 then None
        else
          match Descent(files, parent, fuel - 1)
          case None => None
          case Some(Failure(e)) => Some(Failure(e))
          case Some(Success(chain)) => Some(Success(chain + [link]))
    else Some(Success([link]))
  }

  ghost predicate Links(chain: seq<Link>) {
    forall i :: 0 <= i < |chain| ==> chain[i].doc.Obj? && WellFormed(chain[i].doc)
  }

  ghost function StackAll(files: seq<Tree>, version: string, base: Tree, chain: seq<Link>): (r: Layered)
    requires base.Obj? && WellFormed(base) && Links(chain)
    ensures r.Success? ==> r.value.Obj? && WellFormed(r.value)
  {
    if chain == [] then Success(base)
    else
      var merged :- StackAll(files, version, base, chain[..|chain| - 1]);
      Stack(files, version, merged, chain[|chain| - 1])
  }

  lemma {:induction false} DescentLinks(files: seq<Tree>, link: Link, fuel: nat)
    requires Documents(files) && link.doc.Obj? && WellFormed(link.doc)
    ensures Descent(files, link, fuel).Some? && Descent(files, link, fuel).value.Success? ==>
              Links(Descent(files, link, fuel).value.value)
    decreases fuel
  {
    if HasAttr(link.doc, BASED_ON) && Parent(files, link.doc).Success? && fuel != 0 {
      DescentLinks(files, Parent(files, link.doc).value, fuel - 1);
    }
  }

  /** merge_parent is the descent of the chain followed by one stacking per document. */
  lemma {:induction false} MergeParentUnrolled(files: seq<Tree>, docs: seq<Tree>, version: string, link: Link,
                                               fuel: nat)
    requires Documents(files) && Documents(docs) && link.doc.Obj? && WellFormed(link.doc)
    requires MergeParent(files, docs, version, link, fuel).Some?
    ensures Descent(files, link, fuel).Some?
    ensures var chain := Descent(files, link, fuel).value;
            var r := MergeParent(files, docs, version, link, fuel).value;
            if chain.Failure? then r == Failure(chain.error)
            else
              && Links(chain.value)
              && (var base := Base(files, docs, chain.value[0].doc);
                  r == if base.Failure? then Failure(base.error) else StackAll(files, version, base.value, chain.value))
    decreases fuel
  {
    hide Base, Stack, Parent, WellFormed;
    DescentLinks(files, link, fuel);
    if HasAttr(link.doc, BASED_ON) {
      if Parent(files, link.doc).Success? {
        var parent := Parent(files, link.doc).value;
        MergeParentUnrolled(files, docs, version, parent, fuel - 1);
        var chain := Descent(files, parent, fuel - 1).value;
        if chain.Success? {
          assert (chain.value + [link])[..|chain.value|] == chain.value;
        }
      }
    } else {
      var base := Base(files, docs, link.doc);
      if base.Success? {
        assert [link][..0] == [];
        assert StackAll(files, version, base.value, [link][..0]) == Success(base.value);
      }
    }
  }

  /** The left fold of the merge over layers, versions removed. */
  ghost function MergeAll(base: Tree, layers: seq<Tree>): (r: Merged)
    requires base.Obj? && forall i :: 0 <= i < |layers| ==> layers[i].Obj? && WellFormed(layers[i])
    ensures r.Success? ==> r.value.Obj?
  {
    if layers == [] then Success(base)
    else
      var merged :- MergeAll(base, layers[..|layers| - 1]);
      MergeObj(merged, layers[|layers| - 1])
  }

  ghost function Layers(chain: seq<Link>): (r: seq<Tree>)
    requires Links(chain)
    ensures |r| == |chain|
    ensures forall i :: 0 <= i < |r| ==> r[i] == Strip(chain[i].doc)
    ensures forall i :: 0 <= i < |r| ==> r[i].Obj? && WellFormed(r[i])
  {
    forall i | 0 <= i < |chain| ensures WellFormed(Strip(chain[i].doc)) { StripKeepsForm(chain[i].doc); }
    seq(|chain|, i requires 0 <= i < |chain| => Strip(chain[i].doc))
  }

  /** The documents of the chain but the file everything is merged into. */
  function Others(files: seq<Tree>, chain: seq<Link>): seq<Link> {
    if chain == [] then []
    else
      var last := chain[|chain| - 1];
      Others(files, chain[..|chain| - 1]) + if IsBase(files, last.at) then [] else [last]
  }

  /** Where the chain passes through that file, everything merged by then is plain. */
  ghost predicate PlainAtBase(files: seq<Tree>, base: Tree, chain: seq<Link>) {
    forall k :: 0 <= k < |chain| && IsBase(files, chain[k].at) ==>
      Plain(base) && forall i :: 0 <= i < k ==> Plain(chain[i].doc)
  }

  lemma {:induction false} OthersLinks(files: seq<Tree>, chain: seq<Link>)
    requires Links(chain)
    ensures Links(Others(files, chain))
  {
    if chain != [] {
      OthersLinks(files, chain[..|chain| - 1]);
    }
  }

  /** A version that can replace the stamped one. */
  predicate StringVersion(doc: Tree) {
    HasAttr(doc, VERSION) ==> doc.vals[VERSION].Leaf? && doc.vals[VERSION].scalar.StrV?
  }

  function VersionOf(t: Tree): Option<Tree> {
    if HasAttr(t, VERSION) then Some(t.vals[VERSION]) else None
  }

  /** The version a document ends up with. */
  function OwnVersion(doc: Tree, version: string): Tree {
    if HasAttr(doc, VERSION) then doc.vals[VERSION] else Leaf(StrV(version))
  }

  /** One stacking step is one merge, the version aside; the document's own version wins. */
  lemma {:induction false} StackIsMerge(files: seq<Tree>, version: string, merged: Tree, link: Link)
    requires merged.Obj? && WellFormed(merged) && link.doc.Obj? && WellFormed(link.doc)
    requires !IsBase(files, link.at)
    ensures WellFormed(Strip(link.doc))
    ensures var r := Stack(files, version, merged, link);
            var s := MergeObj(Strip(merged), Strip(link.doc));
            && (r.Success? <==> s.Success? && StringVersion(link.doc))
            && (r.Success? ==>
                s == Success(Strip(r.value)) && VersionOf(r.value) == Some(OwnVersion(link.doc, version)))
  {
    hide Strip, WellFormed, Stamp;
    var stamped := Stamp(merged, version);
    StampKeepsForm(merged, version);
    StripStamp(merged, version);
    StripMerge(stamped, link.doc);
    VersionWins(merged, version, link.doc);
  }

  /** A stamped version gives way to the document's own, which must be a string. */
  lemma VersionWins(merged: Tree, version: string, doc: Tree)
    requires merged.Obj? && doc.Obj? && WellFormed(doc)
    ensures Clash(Stamp(merged, version), doc, VERSION) <==> !StringVersion(doc)
    ensures var r := MergeObj(Stamp(merged, version), doc);
            r.Success? ==> VersionOf(r.value) == Some(OwnVersion(doc, version))
  {
    var stamped := Stamp(merged, version);
    ObjCharacterised(stamped, doc);
    var r := MergeObj(stamped, doc);
    if r.Success? {
      assert r.value.vals[VERSION] == FieldOf(stamped, doc, VERSION);
    }
  }

  ghost predicate StringVersions(chain: seq<Link>) {
    forall i :: 0 <= i < |chain| ==> StringVersion(chain[i].doc)
  }

  lemma VersionsSplit(chain: seq<Link>)
    requires chain != []
    ensures StringVersions(chain) <==> StringVersions(chain[..|chain| - 1]) && StringVersion(chain[|chain| - 1].doc)
  {
    assert chain == chain[..|chain| - 1] + [chain[|chain| - 1]];
  }

  lemma StampStaysPlain(t: Tree, version: string)
    requires t.Obj? && Plain(t)
    ensures Plain(Stamp(t, version))
  {
    StampKeepsForm(t, version);
  }

  /** Plain layers over a plain base stay plain. */
  lemma {:induction false} StackAllPlain(files: seq<Tree>, version: string, base: Tree, chain: seq<Link>)
    requires base.Obj? && Plain(base) && Links(chain) && forall i :: 0 <= i < |chain| ==> Plain(chain[i].doc)
    requires StackAll(files, version, base, chain).Success?
    ensures Plain(StackAll(files, version, base, chain).value)
  {
    hide Plain, Stamp;
    PlainForm(base);
    if chain != [] {
      var front, last := chain[..|chain| - 1], chain[|chain| - 1];
      StackAllPlain(files, version, base, front);
      var merged := StackAll(files, version, base, front).value;
      StampStaysPlain(merged, version);
      StampKeepsForm(merged, version);
      MergeKeepsPlain("", Stamp(merged, version), if IsBase(files, last.at) then Stamp(merged, version) else last.doc);
    }
  }

  /** Stacking a chain is the fold over its documents, the file it is stacked on left out. */
  lemma {:induction false} StackAllIsFold(files: seq<Tree>, version: string, base: Tree, chain: seq<Link>)
    requires base.Obj? && WellFormed(base) && Links(chain) && PlainAtBase(files, base, chain)
    ensures var rest := Others(files, chain);
            Links(rest) &&
            var r := StackAll(files, version, base, chain);
            var s := MergeAll(Strip(base), Layers(rest));
            && (r.Success? <==> s.Success? && StringVersions(rest))
            && (r.Success? ==> s == Success(Strip(r.value)))
  {
    hide Strip, Stack, StringVersion, StringVersions, WellFormed, Plain;
    OthersLinks(files, chain);
    if chain == [] {
      NoVersions();
    } else {
      var front, last, rest := chain[..|chain| - 1], chain[|chain| - 1], Others(files, chain);
      StackAllIsFold(files, version, base, front);
      var m := StackAll(files, version, base, front);
      if IsBase(files, last.at) {
        assert rest == Others(files, front);
        if m.Success? {
          StackAllPlain(files, version, base, front);
          BasedOnDefaultAddsNothing(files, version, m.value, last);
          PlainForm(m.value);
          StripStamp(m.value, version);
        }
      } else {
        assert rest == Others(files, front) + [last];
        VersionsSplit(rest);
        assert rest[..|rest| - 1] == Others(files, front);
        assert Layers(rest)[..|rest| - 1] == Layers(Others(files, front));
        assert Layers(rest)[|rest| - 1] == Strip(last.doc);
        if m.Success? {
          StackIsMerge(files, version, m.value, last);
        }
      }
    }
  }

  lemma PlainForm(t: Tree)
    requires Plain(t)
    ensures WellFormed(t)
  {
  }

  lemma NoVersions()
    ensures StringVersions([])
  {
  }

  lemma FrontPlainAtBase(files: seq<Tree>, base: Tree, chain: seq<Link>)
    requires chain != [] && Links(chain) && PlainAtBase(files, base, chain)
    ensures PlainAtBase(files, base, chain[..|chain| - 1]) && Links(chain[..|chain| - 1])
  {
  }

  lemma {:induction false} DescentEnds(files: seq<Tree>, link: Link, fuel: nat)
    requires Descent(files, link, fuel).Some? && Descent(files, link, fuel).value.Success?
    ensures var chain := Descent(files, link, fuel).value.value; chain[|chain| - 1] == link
  {
  }

  /**
   * merge_parent computes the left fold of the merge over the default document and the chain from
   * the root ancestor down to the document, the version key aside. A chain that passes through the
   * file everything is merged into merges that object with itself, which counts for nothing as long
   * as what is merged by then is plain. It succeeds exactly when the fold does and no document of the
   * chain has a version that is no string; the version of the result is the document's own, else the program's.
   */
  lemma MergeParentIsFold(files: seq<Tree>, docs: seq<Tree>, version: string, doc: Tree, fuel: nat)
    requires Documents(files) && Documents(docs) && doc.Obj? && WellFormed(doc)
    requires var link := Link(doc, None);
             && MergeParent(files, docs, version, link, fuel).Some?
             && Descent(files, link, fuel).Some? && Descent(files, link, fuel).value.Success?
             && var chain := Descent(files, link, fuel).value.value;
                var base := Base(files, docs, chain[0].doc);
                base.Success? ==> PlainAtBase(files, base.value, chain)
    ensures var chain := Descent(files, Link(doc, None), fuel).value.value;
            var r := MergeParent(files, docs, version, Link(doc, None), fuel).value;
            var base, rest := Base(files, docs, chain[0].doc), Others(files, chain);
            Links(rest) &&
            if base.Failure? then r == Failure(base.error)
            else
              var fold := MergeAll(Strip(base.value), Layers(rest));
              && (r.Success? <==> fold.Success? && StringVersions(rest))
              && (r.Success? ==>
                  fold == Success(Strip(r.value)) && VersionOf(r.value) == Some(OwnVersion(doc, version)))
  {
    hide MergeParent, Base, Strip, StringVersions, PlainAtBase, WellFormed, MergeAll, Others, IsBase;
    var link := Link(doc, None);
    MergeParentUnrolled(files, docs, version, link, fuel);
    DescentEnds(files, link, fuel);
    var chain := Descent(files, link, fuel).value.value;
    OthersLinks(files, chain);
    var base := Base(files, docs, chain[0].doc);
    if base.Success? {
      StackAllIsFold(files, version, base.value, chain);
      FrontPlainAtBase(files, base.value, chain);
      var m := StackAll(files, version, base.value, chain[..|chain| - 1]);
      InputIsNoBase(files, doc);
      if m.Success? {
        StackIsMerge(files, version, m.value, link);
      }
    }
  }

  lemma InputIsNoBase(files: seq<Tree>, doc: Tree)
    ensures !IsBase(files, Link(doc, None).at)
  {
  }

  /** The first layer: the file 'default' with the user's 'default' document folded in. */
  lemma BaseIsFold(files: seq<Tree>, docs: seq<Tree>, root: Tree)
    requires Documents(files) && Documents(docs)
    requires Base(files, docs, root).Success?
    ensures var at := SelectByName(files, DEFAULT).value;
            var config := SelectConfig(docs, root).value;
            && at.Some? && files[at.value].Obj?
            && (config.Some? ==> config.value.Obj? && WellFormed(Strip(config.value)))
            && MergeAll(Strip(files[at.value]), if config.Some? then [Strip(config.value)] else [])
                 == Success(Strip(Base(files, docs, root).value))
  {
    hide Strip, WellFormed;
    var at := SelectByName(files, DEFAULT).value;
    var config := SelectConfig(docs, root).value;
    if config.Some? {
      var d, c := files[at.value], config.value;
      StripMerge(d, c);
      assert [Strip(c)][..0] == [];
      assert MergeAll(Strip(d), [Strip(c)][..0]) == Success(Strip(d));
    }
  }

  /** A chain that passes through the file 'default' leaves a plain document as it is. */
  lemma BasedOnDefaultAddsNothing(files: seq<Tree>, version: string, merged: Tree, link: Link)
    requires merged.Obj? && Plain(merged) && link.doc.Obj? && WellFormed(link.doc) && IsBase(files, link.at)
    ensures Stack(files, version, merged, link) == Success(Stamp(merged, version))
  {
    StampKeepsForm(merged, version);
    SelfMerge("", Stamp(merged, version));
  }

  /**
   * A user document named 'default' is merged twice, as the configuration of its kind and as the
   * document itself, and comes out as if merged once.
   */
  lemma DefaultDocMergedOnce(files: seq<Tree>, docs: seq<Tree>, version: string, doc: Tree, fuel: nat)
    requires Documents(files) && Documents(docs) && doc.Obj? && WellFormed(doc)
    requires !HasAttr(doc, BASED_ON) && SelectConfig(docs, doc) == Success(Some(doc)) && StringVersion(doc)
    requires var at := SelectByName(files, DEFAULT);
             at.Success? && at.value.Some? && Absorption.Layered(files[at.value.value], doc)
    requires MergeObj(files[SelectByName(files, DEFAULT).value.value], doc).Success?
    ensures var r := MergeParent(files, docs, version, Link(doc, None), fuel);
            && r.Some? && r.value.Success?
            && Strip(r.value.value) == Strip(MergeObj(files[SelectByName(files, DEFAULT).value.value], doc).value)
  {
    hide Strip, WellFormed, Absorption.Layered, StringVersion;
    var d := files[SelectByName(files, DEFAULT).value.value];
    var once := MergeObj(d, doc).value;
    MergeAbsorbs(d, doc);
    assert Base(files, docs, doc) == Success(once);
    StripMerge(once, doc);
    StackIsMerge(files, version, once, Link(doc, None));
  }

  /** Plain layers may be merged with one another first. */
  lemma {:induction false} ChainCollapses(base: Tree, layers: seq<Tree>)
    requires layers != [] && base.Obj? && Plain(base)
    requires forall i :: 0 <= i < |layers| ==> layers[i].Obj? && WellFormed(layers[i]) && Plain(layers[i])
    ensures var all := MergeAll(base, layers);
            var chain := MergeAll(layers[0], layers[1..]);
            && (chain.Success? ==> Plain(chain.value))
            && Agree(all, if chain.Success? then MergeObj(base, chain.value) else chain)
  {
    if |layers| == 1 {
      assert layers[..0] == [];
      assert MergeAll(base, layers[..0]) == Success(base);
    } else {
      var front, last := layers[..|layers| - 1], layers[|layers| - 1];
      ChainCollapses(base, front);
      assert layers[1..][..|layers| - 2] == front[1..];
      var chain := MergeAll(layers[0], front[1..]);
      if chain.Success? {
        MergeIsAssociative(base, chain.value, last);
        if MergeObj(chain.value, last).Success? {
          MergeKeepsPlain("", chain.value, last);
        }
      }
    }
  }
}
