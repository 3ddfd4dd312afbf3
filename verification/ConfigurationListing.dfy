/** The configuration documents of a cluster in their order: what comes out, where, and what is left out. */
module ConfigurationListing {
  import opened Results
  import opened ConfigurationAppender

  /** A document that a mapped feature of a component needs. */
  datatype Need = Need(kind: string, selector: string)

  function FeatureNeeds(features: seq<string>, selector: string): (r: seq<Need>)
    ensures |r| == |features| && forall j :: 0 <= j < |features| ==> r[j] == Need(PREFIX + features[j], selector)
  {
    seq(|features|, j requires 0 <= j < |features| => Need(PREFIX + features[j], selector))
  }

  /** What the enabled and mapped components need, in the order of components and features. */
  function Needs(src: Source, input: seq<Config>, cs: seq<Component>): seq<Need> {
    if cs == [] then []
    else
      var c := cs[|cs| - 1];
      Needs(src, input, cs[..|cs| - 1])
      + if c.count >= 1 && c.key in Mapping(src, input) then FeatureNeeds(Mapping(src, input)[c.key], c.selector)
          else []
  }

  /** The entry is the document needed: the input's first one, or one made. */
  predicate Meets(src: Source, input: seq<Config>, e: Entry, need: Need) {
    match e
    case Given(i) => FirstNamed(input, need.kind, need.selector) == Some(i)
    case Made(c) => FirstNamed(input, need.kind, need.selector).None? && src.make(need.kind, need.selector) == Some(c)
  }

  /** The `p`-th need is met by an entry of its own: the input has the document, or nothing before has. */
  predicate Adds(src: Source, input: seq<Config>, needs: seq<Need>, p: nat)
    requires p < |needs|
  {
    || FirstNamed(input, needs[p].kind, needs[p].selector).Some?
    || (needs[p] !in needs[..p] && !Has(input, Required(src, input), needs[p].kind, needs[p].selector))
  }

  /** The entries are one for each need that adds one, in order. */
  ghost predicate Listed(src: Source, input: seq<Config>, entries: seq<Entry>, needs: seq<Need>, at: seq<nat>) {
    && |entries| == |at|
    && (forall k :: 0 <= k < |at| ==> at[k] < |needs| && Meets(src, input, entries[k], needs[at[k]]))
    && (forall k, l :: 0 <= k < l < |at| ==> at[k] < at[l])
    && (forall p :: 0 <= p < |needs| ==> (p in at <==> Adds(src, input, needs, p)))
  }

  /** The output has the documents needed and the required ones, and no others. */
  ghost predicate Covers(src: Source, input: seq<Config>, out: seq<Entry>, needs: seq<Need>) {
    forall kind, name ::
      Has(input, out, kind, name) <==> Has(input, Required(src, input), kind, name) || Need(kind, name) in needs
  }

  lemma EntryAdded(input: seq<Config>, out: seq<Entry>, e: Entry, kind: string, name: string)
    requires e.Given? ==> e.at < |input|
    ensures Has(input, out + [e], kind, name) <==> Has(input, out, kind, name) || Is(ConfigOf(input, e), kind, name)
  {
    if Is(ConfigOf(input, e), kind, name) {
      assert (out + [e])[|out|] == e;
    }
    if Has(input, out, kind, name) {
      var i :| 0 <= i < |out| && (out[i].Given? ==> out[i].at < |input|) && Is(ConfigOf(input, out[i]), kind, name);
      assert (out + [e])[i] == out[i];
    }
  }

  lemma FeatureCovers(src: Source, input: seq<Config>, out: seq<Entry>, needs: seq<Need>, feature: string,
                      selector: string)
    requires Honest(src) && Covers(src, input, out, needs) && AddFeature(src, input, out, feature, selector).Success?
    ensures Covers(src, input, AddFeature(src, input, out, feature, selector).value,
                   needs + [Need(PREFIX + feature, selector)])
  {
    hide Has, Required;
    var need, r := Need(PREFIX + feature, selector), AddFeature(src, input, out, feature, selector).value;
    forall kind, name
      ensures Has(input, r, kind, name)
         <==> Has(input, Required(src, input), kind, name) || Need(kind, name) in needs + [need]
    {
      if r != out {
        EntryAdded(input, out, r[|out|], kind, name);
      }
    }
  }

  lemma NeedJoins(src: Source, input: seq<Config>, needs: seq<Need>, need: Need)
    ensures forall p :: 0 <= p < |needs| ==> (Adds(src, input, needs + [need], p) <==> Adds(src, input, needs, p))
    ensures Adds(src, input, needs + [need], |needs|) <==>
              || FirstNamed(input, need.kind, need.selector).Some?
              || (need !in needs && !Has(input, Required(src, input), need.kind, need.selector))
  {
    hide Has, Required, FirstNamed;
    assert (needs + [need])[..|needs|] == needs;
    forall p | 0 <= p < |needs| ensures (needs + [need])[..p] == needs[..p] && (needs + [need])[p] == needs[p] {
    }
  }

  lemma EntryJoins(src: Source, input: seq<Config>, entries: seq<Entry>, needs: seq<Need>, at: seq<nat>, need: Need,
                   e: Entry)
    requires Listed(src, input, entries, needs, at) && Meets(src, input, e, need)
    requires Adds(src, input, needs + [need], |needs|)
    ensures Listed(src, input, entries + [e], needs + [need], at + [|needs|])
  {
    hide Meets, Adds;
    NeedJoins(src, input, needs, need);
  }

  lemma NothingJoins(src: Source, input: seq<Config>, entries: seq<Entry>, needs: seq<Need>, at: seq<nat>, need: Need)
    requires Listed(src, input, entries, needs, at) && !Adds(src, input, needs + [need], |needs|)
    ensures Listed(src, input, entries, needs + [need], at)
  {
    hide Meets, Adds;
    NeedJoins(src, input, needs, need);
  }

  lemma FeatureListed(src: Source, input: seq<Config>, out: seq<Entry>, needs: seq<Need>, at: seq<nat>, feature: string,
                      selector: string) returns (at': seq<nat>)
    requires |out| >= 3 && Listed(src, input, out[3..], needs, at) && Covers(src, input, out, needs)
    requires AddFeature(src, input, out, feature, selector).Success?
    ensures var r := AddFeature(src, input, out, feature, selector).value;
            |r| >= 3 && Listed(src, input, r[3..], needs + [Need(PREFIX + feature, selector)], at')
  {
    hide Has, Required, Listed, FirstNamed, Adds;
    var need, r := Need(PREFIX + feature, selector), AddFeature(src, input, out, feature, selector).value;
    NeedJoins(src, input, needs, need);
    if r == out {
      at' := at;
      NothingJoins(src, input, out[3..], needs, at, need);
    } else {
      at' := at + [|needs|];
      assert r[3..] == out[3..] + [r[|out|]];
      EntryJoins(src, input, out[3..], needs, at, need, r[|out|]);
    }
  }

  lemma {:induction false} FeaturesListed(src: Source, input: seq<Config>, out: seq<Entry>, needs: seq<Need>,
                                          at: seq<nat>, features: seq<string>, selector: string, n: nat)
    returns (at': seq<nat>)
    requires Honest(src) && n <= |features| && |out| >= 3 && Listed(src, input, out[3..], needs, at)
        && Covers(src, input, out, needs)
    requires AddFeatures(src, input, out, features, selector, n).Success?
    ensures var r, all := AddFeatures(src, input, out, features, selector, n).value,
                          needs + FeatureNeeds(features, selector)[..n];
            |r| >= 3 && Listed(src, input, r[3..], all, at') && Covers(src, input, r, all)
  {
    hide Listed, Covers, AddFeature;
    if n == 0 {
      at' := at;
      assert needs + FeatureNeeds(features, selector)[..0] == needs;
    } else {
      at' := FeaturesListed(src, input, out, needs, at, features, selector, n - 1);
      var before := AddFeatures(src, input, out, features, selector, n - 1).value;
      var all := needs + FeatureNeeds(features, selector)[..n - 1];
      assert needs + FeatureNeeds(features, selector)[..n] == all + [Need(PREFIX + features[n - 1], selector)];
      at' := FeatureListed(src, input, before, all, at', features[n - 1], selector);
      FeatureCovers(src, input, before, all, features[n - 1], selector);
    }
  }

  lemma RequiredListed(src: Source, input: seq<Config>)
    ensures Listed(src, input, Required(src, input)[3..], [], []) && Covers(src, input, Required(src, input), [])
  {
  }

  lemma {:induction false} FirstListed(src: Source, input: seq<Config>, cs: seq<Component>, n: nat)
    returns (at: seq<nat>)
    requires Honest(src) && n <= |cs| && AppendFirst(src, input, cs, n).Success?
    ensures var out := AppendFirst(src, input, cs, n).value;
            && |out| >= 3 && Listed(src, input, out[3..], Needs(src, input, cs[..n]), at)
            && Covers(src, input, out, Needs(src, input, cs[..n]))
  {
    hide Listed, Covers, AddFeatures, Mapping, Required;
    if n == 0 {
      at := [];
      ThreeRequired(src, input);
      RequiredListed(src, input);
    } else {
      at := FirstListed(src, input, cs, n - 1);
      assert cs[..n][..n - 1] == cs[..n - 1];
      var out, c := AppendFirst(src, input, cs, n - 1).value, cs[n - 1];
      var needs := Needs(src, input, cs[..n - 1]);
      if c.count >= 1 {
        var features := Mapping(src, input)[c.key];
        at := FeaturesListed(src, input, out, needs, at, features, c.selector, |features|);
        assert FeatureNeeds(features, c.selector)[..|features|] == FeatureNeeds(features, c.selector);
      } else {
        assert Needs(src, input, cs[..n]) == needs;
      }
    }
  }

  /**
   * The whole output: behind the three required documents stands, in the order of components and features, an entry
   * for every need the input has a document for, every time, and one for the first of those nothing else meets; there
   * is nothing else.
   */
  lemma OutputListed(src: Source, input: seq<Config>, cs: seq<Component>) returns (at: seq<nat>)
    requires Honest(src) && Append(src, input, cs).Success?
    ensures var out := Append(src, input, cs).value;
            |out| >= 3 && Listed(src, input, out[3..], Needs(src, input, cs), at)
  {
    at := FirstListed(src, input, cs, |cs|);
    assert cs[..|cs|] == cs;
  }

  /** A required document is the first of its kind in the input, or the default one if there is none. */
  predicate RequiredIs(src: Source, input: seq<Config>, e: Entry, kind: string) {
    match e
    case Given(i) => i < |input| && input[i].kind == kind && forall j :: 0 <= j < i ==> input[j].kind != kind
    case Made(c) => c == src.required(kind) && forall j :: 0 <= j < |input| ==> input[j].kind != kind
  }

  lemma RequiredFirst(src: Source, input: seq<Config>, cs: seq<Component>)
    requires Honest(src) && Append(src, input, cs).Success?
    ensures var out := Append(src, input, cs).value;
            && |out| >= 3
            && RequiredIs(src, input, out[0], MAPPING) && RequiredIs(src, input, out[1], SHARED)
            && RequiredIs(src, input, out[2], CLUSTER)
  {
    hide Shaped;
    AppendShaped(src, input, cs, |cs|);
    var out := Append(src, input, cs).value;
    StartsRequired(src, input, out);
    assert out[0] == Required(src, input)[0] && out[1] == Required(src, input)[1] && out[2] == Required(src, input)[2];
  }

  lemma StartsRequired(src: Source, input: seq<Config>, out: seq<Entry>)
    requires Shaped(src, input, out)
    ensures Required(src, input) <= out
  {
  }
}
