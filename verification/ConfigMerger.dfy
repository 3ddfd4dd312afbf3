/** Configurations and machines that the input does not define, made from the files of their kind. */
module ConfigMerger {
  import opened Results
  import opened Trees
  import opened Merge
  import opened MergeFacts
  import opened Layering
  import opened LayerFold

  datatype ConfigError = Layer(error: LayerError) | NotInFiles

  /** A document's kind alone, by which the input is searched. */
  function OfKind(kind: string): Tree {
    Obj([KIND], map[KIND := Leaf(StrV(kind))])
  }

  /** The default document with the user's and then the selected one merged into it. */
  function OverDefaults(files: seq<Tree>, docs: seq<Tree>, kind: string, spec: Option<nat>)
    : (r: Result<Tree, ConfigError>)
    requires Documents(files) && Documents(docs) && (spec.Some? ==> spec.value < |files|)
    ensures r.Success? ==> r.value.Obj? && WellFormed(r.value)
  {
    match Base(files, docs, OfKind(kind))
    case Failure(e) => Failure(Layer(e))
    case Success(base) =>
      if spec.None? then Failure(NotInFiles)
      else
        match MergeInto(base, files[spec.value])
        case Failure(e) => Failure(Layer(e))
        case Success(t) => Success(t)
  }

  /** `merge_with_defaults`; without a file of the name 'default' it gives nothing. */
  function WithDefaults(files: seq<Tree>, docs: seq<Tree>, version: string, kind: string, selector: string)
    : Result<Option<Tree>, ConfigError>
    requires Documents(files) && Documents(docs)
  {
    match SelectByName(files, Leaf(StrV(selector)))
    case Failure(e) => Failure(Layer(e))
    case Success(spec) =>
      if selector == "default" then Success(match spec case None => None case Some(i) => Some(files[i]))
      else
        var merged :- OverDefaults(files, docs, kind, spec);
        Success(Some(Stamp(merged, version)))
  }

  /** A position found behind the first `n` documents. */
  function Behind(r: Result<Option<nat>, LayerError>, n: nat): Result<Option<nat>, LayerError> {
    if r.Success? && r.value.Some? then Success(Some(r.value.value + n)) else r
  }

  lemma SelectStep(docs: seq<Tree>, name: Tree, i: nat)
    requires i < |docs|
    ensures SelectByName(docs[i..], name)
         == if !HasAttr(docs[i], NAME) then Failure(NoAttribute(NAME))
            else if NameOf(docs[i]) == name then Success(Some(0))
            else Behind(SelectByName(docs[i + 1..], name), 1)
  {
    assert docs[i..][1..] == docs[i + 1..];
  }

  lemma SelectNone(name: Tree)
    ensures SelectByName([], name) == Success(None)
  {
  }

  method SelectFirst(docs: seq<Tree>, name: Tree) returns (r: Result<Option<nat>, LayerError>)
    ensures r == SelectByName(docs, name)
  {
    hide SelectByName, HasAttr;
    assert docs[0..] == docs;
    for i := 0 to |docs|
      invariant SelectByName(docs, name) == Behind(SelectByName(docs[i..], name), i)
    {
      SelectStep(docs, name, i);
      if !HasAttr(docs[i], NAME) {
        return Failure(NoAttribute(NAME));
      }
      if NameOf(docs[i]) == name {
        return Success(Some(i));
      }
    }
    assert docs[|docs|..] == [];
    SelectNone(name);
    r := Success(None);
  }

  lemma ConfigStep(docs: seq<Tree>, doc: Tree, i: nat)
    requires i < |docs|
    ensures ConfigAt(docs[i..], doc)
         == if !HasAttr(docs[i], NAME) then Failure(NoAttribute(NAME))
            else if NameOf(docs[i]) == DEFAULT && (!HasAttr(docs[i], KIND) || !HasAttr(doc, KIND)) then
              Failure(NoAttribute(KIND))
            else if NameOf(docs[i]) == DEFAULT && docs[i].vals[KIND] == doc.vals[KIND] then Success(Some(0))
            else Behind(ConfigAt(docs[i + 1..], doc), 1)
  {
    assert docs[i..][1..] == docs[i + 1..];
  }

  method SelectDefault(docs: seq<Tree>, kind: string) returns (r: Result<Option<nat>, LayerError>)
    ensures r == ConfigAt(docs, OfKind(kind))
  {
    hide ConfigAt;
    assert docs[0..] == docs;
    for i := 0 to |docs|
      invariant ConfigAt(docs, OfKind(kind)) == Behind(ConfigAt(docs[i..], OfKind(kind)), i)
    {
      ConfigStep(docs, OfKind(kind), i);
      if !HasAttr(docs[i], NAME) {
        return Failure(NoAttribute(NAME));
      }
      if NameOf(docs[i]) == DEFAULT {
        if !HasAttr(docs[i], KIND) {
          return Failure(NoAttribute(KIND));
        }
        if docs[i].vals[KIND] == Leaf(StrV(kind)) {
          return Success(Some(i));
        }
      }
    }
    assert docs[|docs|..] == [];
    NoConfig(OfKind(kind));
    r := Success(None);
  }

  lemma NoConfig(doc: Tree)
    ensures ConfigAt([], doc) == Success(None)
  {
  }

  /** The loaded default document is updated step by step. */
  method MergeWithDefaults(files: seq<Tree>, docs: seq<Tree>, version: string, kind: string, selector: string)
    returns (r: Result<Option<Tree>, ConfigError>)
    requires Documents(files) && Documents(docs)
    ensures r == WithDefaults(files, docs, version, kind, selector)
  {
    hide SelectByName, ConfigAt, MergeObj;
    var spec := SelectFirst(files, Leaf(StrV(selector)));
    if spec.Failure? {
      return Failure(Layer(spec.error));
    }
    if selector == "default" {
      return Success(match spec.value case None => None case Some(i) => Some(files[i]));
    }
    var config := SelectDefault(docs, kind);
    if config.Failure? {
      return Failure(Layer(config.error));
    }
    var at := SelectFirst(files, DEFAULT);
    if at.Failure? {
      return Failure(Layer(at.error));
    }
    if at.value.None? {
      return Failure(Layer(NoDefault));
    }
    var doc := files[at.value.value];
    if config.value.Some? {
      var merged := MergeInto(doc, docs[config.value.value]);
      if merged.Failure? {
        return Failure(Layer(merged.error));
      }
      doc := merged.value;
    }
    if spec.value.None? {
      return Failure(NotInFiles);
    }
    var merged := MergeInto(doc, files[spec.value.value]);
    if merged.Failure? {
      return Failure(Layer(merged.error));
    }
    doc := Stamp(merged.value, version);
    r := Success(Some(doc));
  }

  /** The document made for a selector bears the selector's name. */
  lemma MadeBearsName(files: seq<Tree>, docs: seq<Tree>, version: string, kind: string, selector: string)
    requires Documents(files) && Documents(docs)
    requires var r := WithDefaults(files, docs, version, kind, selector); r.Success? && r.value.Some?
    ensures var t := WithDefaults(files, docs, version, kind, selector).value.value;
            HasAttr(t, NAME) && NameOf(t) == Leaf(StrV(selector))
  {
    hide Base, ConfigAt;
    if selector != "default" {
      var base := Base(files, docs, OfKind(kind)).value;
      var spec := files[SelectByName(files, Leaf(StrV(selector))).value.value];
      MergedName(base, spec);
    }
  }

  /** A document made for another selector than 'default' has the program's version, whatever the files say. */
  lemma MadeBearsVersion(files: seq<Tree>, docs: seq<Tree>, version: string, kind: string, selector: string)
    requires Documents(files) && Documents(docs) && selector != "default"
    requires WithDefaults(files, docs, version, kind, selector).Success?
    ensures var r := WithDefaults(files, docs, version, kind, selector).value;
            r.Some? && VersionOf(r.value) == Some(Leaf(StrV(version)))
  {
    hide Base, SelectByName;
  }

  /** For the selector 'default' it is the file of that name as it is, or nothing without one. */
  lemma MadeForDefault(files: seq<Tree>, docs: seq<Tree>, version: string, kind: string)
    requires Documents(files) && Documents(docs) && WithDefaults(files, docs, version, kind, "default").Success?
    ensures match WithDefaults(files, docs, version, kind, "default").value
            case Some(t) => exists i: nat :: i < |files| && files[i] == t && NamedUpTo(files, DEFAULT, i)
                                && IsDefault(t)
            case None => NamedUpTo(files, DEFAULT, |files|)
  {
    SelectsFirst(files, DEFAULT);
  }

  lemma MergedName(base: Tree, ext: Tree)
    requires base.Obj? && ext.Obj? && WellFormed(base) && WellFormed(ext) && MergeObj(base, ext).Success?
    requires HasAttr(ext, NAME) && NameOf(ext).Leaf?
    ensures HasAttr(MergeObj(base, ext).value, NAME) && NameOf(MergeObj(base, ext).value) == NameOf(ext)
  {
    ObjCharacterised(base, ext);
    var r := MergeObj(base, ext).value;
    assert r.vals[NAME] == FieldOf(base, ext, NAME);
  }

  /**
   * A machine or configuration made from the files is, its version aside, what layering the selected
   * file as an input document of its kind would give.
   */
  lemma MadeAsLayered(files: seq<Tree>, docs: seq<Tree>, version: string, kind: string, selector: string, i: nat,
                      fuel: nat)
    requires Documents(files) && Documents(docs) && selector != "default" && i < |files|
    requires SelectByName(files, Leaf(StrV(selector))) == Success(Some(i))
    requires HasAttr(files[i], KIND) && files[i].vals[KIND] == Leaf(StrV(kind)) && !HasAttr(files[i], BASED_ON)
    requires StringVersion(files[i])
    requires Base(files, docs, OfKind(kind)).Success? ==> StringVersion(Base(files, docs, OfKind(kind)).value)
    ensures var made := WithDefaults(files, docs, version, kind, selector);
            var layered := MergeParent(files, docs, version, Link(files[i], None), fuel);
            && layered.Some?
            && (made.Success? <==> layered.value.Success?)
            && (made.Success? ==> made.value.Some? && made.value.value.Obj? && layered.value.value.Obj?
                                  && Strip(made.value.value) == Strip(layered.value.value))
  {
    hide Strip, WellFormed, MergeObj, Stamp, ConfigAt, StringVersion;
    SameConfig(docs, kind, files[i]);
    var base := Base(files, docs, files[i]);
    assert base == Base(files, docs, OfKind(kind));
    if base.Success? {
      StackIsMerge(files, version, base.value, Link(files[i], None));
      StringVersionsMeet(base.value, files[i]);
      StripMerge(base.value, files[i]);
      if MergeObj(base.value, files[i]).Success? {
        MergedForm(base.value, files[i]);
        StampKeepsForm(MergeObj(base.value, files[i]).value, version);
        StripStamp(MergeObj(base.value, files[i]).value, version);
      }
    }
  }

  lemma {:induction false} SameConfig(docs: seq<Tree>, kind: string, doc: Tree)
    requires HasAttr(doc, KIND) && doc.vals[KIND] == Leaf(StrV(kind))
    ensures ConfigAt(docs, doc) == ConfigAt(docs, OfKind(kind))
  {
    if docs != [] {
      SameConfig(docs[1..], kind, doc);
    }
  }

  lemma StringVersionsMeet(a: Tree, b: Tree)
    requires a.Obj? && b.Obj? && WellFormed(b) && StringVersion(a) && StringVersion(b)
    ensures !Clash(a, b, VERSION)
  {
  }

  lemma MergedForm(a: Tree, b: Tree)
    requires a.Obj? && b.Obj? && WellFormed(a) && WellFormed(b) && MergeObj(a, b).Success?
    ensures MergeObj(a, b).value.Obj? && WellFormed(MergeObj(a, b).value)
  {
    var _ := MergeInto(a, b);
  }
}
