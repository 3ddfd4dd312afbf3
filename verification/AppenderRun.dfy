/** The configuration step as it runs: documents are objects, shared with the input, and get their version in place. */
module AppenderRun {
  import opened Results
  import opened ConfigurationAppender

  class Document {
    const config: Config
    var version: string

    constructor (config: Config)
      ensures this.config == config
    {
      this.config, version := config, "";
    }
  }

  function ConfigsOf(docs: seq<Document>): (r: seq<Config>)
    ensures |r| == |docs| && forall i :: 0 <= i < |docs| ==> r[i] == docs[i].config
  {
    seq(|docs|, i requires 0 <= i < |docs| => docs[i].config)
  }

  /** An output object for every entry: the input's own object, or one of its own. */
  ghost predicate Objects(input: seq<Document>, out: seq<Entry>, docs: seq<Document>) {
    && |docs| == |out|
    && forall k :: 0 <= k < |out| ==>
         match out[k]
         case Given(i) => i < |input| && docs[k] == input[i]
         case Made(c) => docs[k].config == c && docs[k] !in input
  }

  ghost predicate Versioned(docs: seq<Document>, version: string)
    reads docs
  {
    forall k :: 0 <= k < |docs| ==> docs[k].version == version
  }

  method SelectFirst(docs: seq<Document>, kind: string) returns (r: Option<nat>)
    ensures r == FirstOfKind(ConfigsOf(docs), kind)
  {
    for i := 0 to |docs|
      invariant forall j :: 0 <= j < i ==> docs[j].config.kind != kind
    {
      if docs[i].config.kind == kind {
        return Some(i);
      }
    }
    r := None;
  }

  method SelectNamed(docs: seq<Document>, kind: string, name: string) returns (r: Option<nat>)
    ensures r == FirstNamed(ConfigsOf(docs), kind, name)
  {
    for i := 0 to |docs|
      invariant forall j :: 0 <= j < i ==> !Is(docs[j].config, kind, name)
    {
      if Is(docs[i].config, kind, name) {
        return Some(i);
      }
    }
    r := None;
  }

  lemma OutputSearched(input: seq<Document>, out: seq<Entry>, docs: seq<Document>, kind: string, name: string)
    requires Objects(input, out, docs)
    ensures Has(ConfigsOf(input), out, kind, name) <==> FirstNamed(ConfigsOf(docs), kind, name).Some?
  {
    forall k | 0 <= k < |out|
      ensures (out[k].Given? ==> out[k].at < |input|) && ConfigOf(ConfigsOf(input), out[k]) == docs[k].config
    {
    }
    var at := FirstNamed(ConfigsOf(docs), kind, name);
    if at.Some? {
      assert Is(ConfigOf(ConfigsOf(input), out[at.value]), kind, name);
    }
  }

  class Appender {
    const input: seq<Document>
    const version: string
    var docs: seq<Document>

    constructor (input: seq<Document>, version: string)
      ensures this.input == input && this.version == version && docs == []
    {
      this.input, this.version, docs := input, version, [];
    }

    /** The documents stand for the entries and have the version. */
    ghost predicate Holds(out: seq<Entry>)
      reads this, docs
    {
      Objects(input, out, docs) && Versioned(docs, version)
    }

    /** `append_config` */
    method AppendConfig(doc: Document, ghost out: seq<Entry>, ghost e: Entry)
      requires Holds(out)
      requires match e case Given(i) => i < |input| && doc == input[i] case Made(c) => doc.config == c && doc !in input
      modifies this, doc
      ensures Holds(out + [e]) && docs == old(docs) + [doc]
    {
      doc.version := version;
      docs := docs + [doc];
    }

    method AppendRequired(src: Source, kind: string, ghost out: seq<Entry>)
      requires Holds(out)
      modifies this, input
      ensures Holds(out + [RequiredEntry(src, ConfigsOf(input), kind)])
      ensures old(docs) <= docs && forall d | d in docs[|old(docs)|..] :: d in input || fresh(d)
      ensures forall d | d in input && d !in docs :: d.version == old(d.version)
    {
      hide FirstOfKind, Objects;
      var at := SelectFirst(input, kind);
      if at.Some? {
        AppendConfig(input[at.value], out, Given(at.value));
      } else {
        var doc := new Document(src.required(kind));
        AppendConfig(doc, out, Made(doc.config));
      }
    }

    /** One mapped feature of a component. */
    method AppendFeature(src: Source, feature: string, selector: string, ghost out: seq<Entry>)
      returns (r: Outcome<AppendError>)
      requires Holds(out)
      modifies this, input
      ensures match AddFeature(src, ConfigsOf(input), out, feature, selector)
              case Success(more) => r.Pass? && Holds(more)
              case Failure(e) => r == Fail(e)
      ensures old(docs) <= docs && forall d | d in docs[|old(docs)|..] :: d in input || fresh(d)
      ensures forall d | d in input && d !in docs :: d.version == old(d.version)
    {
      hide FirstNamed, Objects, Has;
      var kind := PREFIX + feature;
      var at := SelectNamed(input, kind, selector);
      if at.Some? {
        AppendConfig(input[at.value], out, Given(at.value));
        return Pass;
      }
      var known := SelectNamed(docs, kind, selector);
      OutputSearched(input, out, docs, kind, selector);
      if known.None? {
        var made := src.make(kind, selector);
        if made.None? {
          return Fail(NotMade(kind, selector));
        }
        var doc := new Document(made.value);
        AppendConfig(doc, out, Made(doc.config));
      }
      r := Pass;
    }

    method AppendFeatures(src: Source, features: seq<string>, selector: string, ghost out: seq<Entry>)
      returns (r: Outcome<AppendError>)
      requires Holds(out)
      modifies this, input
      ensures match AddFeatures(src, ConfigsOf(input), out, features, selector, |features|)
              case Success(more) => r.Pass? && Holds(more)
              case Failure(e) => r == Fail(e)
      ensures old(docs) <= docs && forall d | d in docs[|old(docs)|..] :: d in input || fresh(d)
      ensures forall d | d in input && d !in docs :: d.version == old(d.version)
    {
      hide AddFeature, Objects;
      ghost var configs := ConfigsOf(input);
      for j := 0 to |features|
        invariant AddFeatures(src, configs, out, features, selector, j).Success?
        invariant Holds(AddFeatures(src, configs, out, features, selector, j).value)
        invariant old(docs) <= docs && forall d | d in docs[|old(docs)|..] :: d in input || fresh(d)
        invariant forall d | d in input && d !in docs :: d.version == old(d.version)
      {
        ghost var before := docs;
        r := AppendFeature(src, features[j], selector, AddFeatures(src, configs, out, features, selector, j).value);
        assert docs[|old(docs)|..] == before[|old(docs)|..] + docs[|before|..];
        if r.Fail? {
          FeaturesStayFailed(src, configs, out, features, selector, j + 1, |features|);
          return;
        }
      }
      r := Pass;
    }

    /**
     * The run: an output object for every entry, all with the version; the input's documents are the input's
     * own objects.
     */
    method Run(src: Source, cs: seq<Component>) returns (r: Outcome<AppendError>)
      requires Honest(src)
      modifies this, input
      ensures match Append(src, ConfigsOf(input), cs)
              case Success(out) => r.Pass? && Objects(input, out, docs) && Versioned(docs, version)
              case Failure(e) => r == Fail(e)
      ensures forall d | d in docs :: d in input || fresh(d)
      ensures forall d | d in input && d !in docs :: d.version == old(d.version)
    {
      hide AddFeatures, Objects, RequiredEntry, FirstOfKind, Versioned;
      ghost var configs := ConfigsOf(input);
      docs := [];
      NoObjects(input, version);
      AppendAllRequired(src);
      for i := 0 to |cs|
        invariant AppendFirst(src, configs, cs, i).Success?
        invariant Holds(AppendFirst(src, configs, cs, i).value)
        invariant Required(src, configs) <= AppendFirst(src, configs, cs, i).value
        invariant forall d | d in docs :: d in input || fresh(d)
        invariant forall d | d in input && d !in docs :: d.version == old(d.version)
      {
        ghost var out, before := AppendFirst(src, configs, cs, i).value, docs;
        if cs[i].count >= 1 {
          var at := SelectFirst(docs, MAPPING);
          MappingFirst(src, input, out, docs);
          var mapping := docs[at.value].config.mapping;
          if cs[i].key !in mapping {
            AppendStaysFailed(src, configs, cs, i + 1, |cs|);
            return Fail(NotMapped(cs[i].key));
          }
          r := AppendFeatures(src, mapping[cs[i].key], cs[i].selector, out);
          assert docs == before + docs[|before|..];
          if r.Fail? {
            AppendStaysFailed(src, configs, cs, i + 1, |cs|);
            return;
          }
          FeaturesExtend(src, configs, out, mapping[cs[i].key], cs[i].selector, |mapping[cs[i].key]|);
        }
      }
      r := Pass;
    }

    /** The loop over the required kinds. */
    method AppendAllRequired(src: Source)
      requires docs == [] && Holds([])
      modifies this, input
      ensures Holds(Required(src, ConfigsOf(input)))
      ensures forall d | d in docs :: d in input || fresh(d)
      ensures forall d | d in input && d !in docs :: d.version == old(d.version)
    {
      hide Objects, RequiredEntry, Versioned;
      ghost var configs := ConfigsOf(input);
      var kinds := [MAPPING, SHARED, CLUSTER];
      for k := 0 to 3
        invariant Holds(Required(src, configs)[..k])
        invariant forall d | d in docs :: d in input || fresh(d)
        invariant forall d | d in input && d !in docs :: d.version == old(d.version)
      {
        ghost var before := docs;
        AppendRequired(src, kinds[k], Required(src, configs)[..k]);
        assert docs == before + docs[|before|..];
        assert Required(src, configs)[..k + 1] == Required(src, configs)[..k] + [RequiredEntry(src, configs, kinds[k])];
      }
      assert Required(src, configs)[..3] == Required(src, configs);
    }
  }

  lemma NoObjects(input: seq<Document>, version: string)
    ensures Objects(input, [], []) && Versioned([], version)
  {
  }

  /** The first feature mapping of the output is the required one. */
  lemma MappingFirst(src: Source, input: seq<Document>, out: seq<Entry>, docs: seq<Document>)
    requires Honest(src) && Objects(input, out, docs) && Required(src, ConfigsOf(input)) <= out
    ensures FirstOfKind(ConfigsOf(docs), MAPPING) == Some(0) && docs[0].config.mapping == Mapping(src, ConfigsOf(input))
  {
    RequiredRight(src, ConfigsOf(input), MAPPING);
    assert out[0] == Required(src, ConfigsOf(input))[0];
    assert ConfigsOf(docs)[0] == ConfigOf(ConfigsOf(input), out[0]);
  }

  lemma {:induction false} FeaturesExtend(src: Source, input: seq<Config>, out: seq<Entry>, features: seq<string>,
                                          selector: string, n: nat)
    requires n <= |features| && AddFeatures(src, input, out, features, selector, n).Success?
    ensures out <= AddFeatures(src, input, out, features, selector, n).value
  {
    if n != 0 {
      FeaturesExtend(src, input, out, features, selector, n - 1);
    }
  }

  lemma {:induction false} FeaturesStayFailed(src: Source, input: seq<Config>, out: seq<Entry>, features: seq<string>,
                                              selector: string, i: nat, n: nat)
    requires i <= n <= |features| && AddFeatures(src, input, out, features, selector, i).Failure?
    ensures AddFeatures(src, input, out, features, selector, n) == AddFeatures(src, input, out, features, selector, i)
  {
    if i < n {
      FeaturesStayFailed(src, input, out, features, selector, i, n - 1);
    }
  }

  lemma {:induction false} AppendStaysFailed(src: Source, input: seq<Config>, cs: seq<Component>, i: nat, n: nat)
    requires i <= n <= |cs| && AppendFirst(src, input, cs, i).Failure?
    ensures AppendFirst(src, input, cs, n) == AppendFirst(src, input, cs, i)
  {
    if i < n {
      AppendStaysFailed(src, input, cs, i, n - 1);
    }
  }
}
