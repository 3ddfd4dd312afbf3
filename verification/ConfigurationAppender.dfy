/** Which configuration documents come out for the enabled components of a cluster. */
module ConfigurationAppender {
  import opened Results

  /** What a document is selected by; `mapping` is that of a feature mapping. */
  datatype Config = Config(kind: string, name: string, mapping: map<string, seq<string>>)

  datatype Component = Component(key: string, count: int, selector: string)

  const MAPPING := "configuration/feature-mapping"
  const SHARED := "configuration/shared-config"
  const CLUSTER := "lambdastack-cluster"
  const PREFIX := "configuration/"

  /**
   * `required` gives the default document of a kind, `make` what merge_with_defaults makes for a kind and a
   * selector.
   */
  datatype Source = Source(required: string -> Config, make: (string, string) -> Option<Config>)

  datatype AppendError = NotMapped(key: string) | NotMade(kind: string, selector: string)

  /** A document of the output: one of the input, by position, or one made for the output. */
  datatype Entry = Given(at: nat) | Made(config: Config)

  ghost predicate Fits(input: seq<Config>, out: seq<Entry>) {
    forall i :: 0 <= i < |out| && out[i].Given? ==> out[i].at < |input|
  }

  function ConfigOf(input: seq<Config>, e: Entry): Config
    requires e.Given? ==> e.at < |input|
  {
    match e
    case Given(i) => input[i]
    case Made(c) => c
  }

  function FirstOfKind(input: seq<Config>, kind: string): (r: Option<nat>)
    ensures r.Some? ==> r.value < |input| && input[r.value].kind == kind && forall j :: 0 <= j < r.value ==>
        input[j].kind != kind
    ensures r.None? ==> forall j :: 0 <= j < |input| ==> input[j].kind != kind
  {
    if input == [] then None
    else if input[0].kind == kind then Some(0)
    else match FirstOfKind(input[1..], kind) case None => None case Some(i) => Some(i + 1)
  }

  predicate Is(c: Config, kind: string, name: string) {
    c.kind == kind && c.name == name
  }

  function FirstNamed(input: seq<Config>, kind: string, name: string): (r: Option<nat>)
    ensures r.Some? ==> r.value < |input| && Is(input[r.value], kind, name) && forall j :: 0 <= j < r.value ==>
        !Is(input[j], kind, name)
    ensures r.None? ==> forall j :: 0 <= j < |input| ==> !Is(input[j], kind, name)
  {
    if input == [] then None
    else if Is(input[0], kind, name) then Some(0)
    else match FirstNamed(input[1..], kind, name) case None => None case Some(i) => Some(i + 1)
  }

  /** Whether the output has a document of a kind and a name. */
  predicate Has(input: seq<Config>, out: seq<Entry>, kind: string, name: string) {
    exists i :: 0 <= i < |out| && (out[i].Given? ==> out[i].at < |input|) && Is(ConfigOf(input, out[i]), kind, name)
  }

  function RequiredEntry(src: Source, input: seq<Config>, kind: string): Entry {
    match FirstOfKind(input, kind)
    case Some(i) => Given(i)
    case None => Made(src.required(kind))
  }

  function Required(src: Source, input: seq<Config>): seq<Entry> {
    [RequiredEntry(src, input, MAPPING), RequiredEntry(src, input, SHARED), RequiredEntry(src, input, CLUSTER)]
  }

  /** The document a mapped feature of a component adds, if any. */
  function AddFeature(src: Source, input: seq<Config>, out: seq<Entry>, feature: string, selector: string)
    : Result<seq<Entry>, AppendError>
  {
    var kind := PREFIX + feature;
    match FirstNamed(input, kind, selector)
    case Some(i) => Success(out + [Given(i)])
    case None =>
      if Has(input, out, kind, selector) then Success(out)
      else match src.make(kind, selector) case None => Failure(NotMade(kind, selector))
          case Some(c) => Success(out + [Made(c)])
  }

  function AddFeatures(src: Source, input: seq<Config>, out: seq<Entry>, features: seq<string>, selector: string,
                       n: nat): Result<seq<Entry>, AppendError>
    requires n <= |features|
  {
    if n == 0 then Success(out)
    else
      var done :- AddFeatures(src, input, out, features, selector, n - 1);
      AddFeature(src, input, done, features[n - 1], selector)
  }

  /** The feature mapping in force: the first of the output. */
  function Mapping(src: Source, input: seq<Config>): map<string, seq<string>> {
    ConfigOf(input, RequiredEntry(src, input, MAPPING)).mapping
  }

  function AddComponent(src: Source, input: seq<Config>, out: seq<Entry>, c: Component): Result<seq<Entry>, AppendError>
  {
    if c.count < 1 then Success(out)
    else if c.key !in Mapping(src, input) then Failure(NotMapped(c.key))
    else
      var features := Mapping(src, input)[c.key];
      AddFeatures(src, input, out, features, c.selector, |features|)
  }

  function AppendFirst(src: Source, input: seq<Config>, cs: seq<Component>, n: nat): Result<seq<Entry>, AppendError>
    requires n <= |cs|
  {
    if n == 0 then Success(Required(src, input))
    else
      var out :- AppendFirst(src, input, cs, n - 1);
      AddComponent(src, input, out, cs[n - 1])
  }

  function Append(src: Source, input: seq<Config>, cs: seq<Component>): Result<seq<Entry>, AppendError> {
    AppendFirst(src, input, cs, |cs|)
  }

  // ---------- what is relied on ----------

  /** The default files give documents of the kind, and the name, they are asked for. */
  ghost predicate Honest(src: Source) {
    && (forall kind :: src.required(kind).kind == kind)
    && (forall kind, name :: src.make(kind, name).Some? ==> Is(src.make(kind, name).value, kind, name))
  }

  // ---------- every document is the right one ----------

  /** A document of the output is the first input document of its kind and name, or made because there is none. */
  ghost predicate Right(input: seq<Config>, e: Entry) {
    match e
    case Given(i) => i < |input| && FirstNamed(input, input[i].kind, input[i].name) == Some(i)
    case Made(c) => FirstNamed(input, c.kind, c.name).None?
  }

  /** No two made documents share kind and name. */
  ghost predicate MadeOnce(out: seq<Entry>) {
    forall i, j :: 0 <= i < j < |out| && out[i].Made? && out[j].Made? ==>
      !Is(out[j].config, out[i].config.kind, out[i].config.name)
  }

  /** The required documents come first, the others have configuration kinds. */
  ghost predicate Shaped(src: Source, input: seq<Config>, out: seq<Entry>) {
    && Required(src, input) <= out
    && (forall i :: 0 <= i < |out| ==> Right(input, out[i]))
    && MadeOnce(out)
    && (forall i :: 3 <= i < |out| ==> PREFIX <= ConfigOf(input, out[i]).kind)
    && (forall i :: 3 <= i < |out| && out[i].Made? ==>
        src.make(out[i].config.kind, out[i].config.name) == Some(out[i].config))
  }

  lemma FirstIs(input: seq<Config>, kind: string, name: string, i: nat)
    requires i < |input| && Is(input[i], kind, name) && forall j :: 0 <= j < i ==> !Is(input[j], kind, name)
    ensures FirstNamed(input, kind, name) == Some(i)
  {
  }

  lemma RequiredRight(src: Source, input: seq<Config>, kind: string)
    requires Honest(src)
    ensures Right(input, RequiredEntry(src, input, kind))
        && ConfigOf(input, RequiredEntry(src, input, kind)).kind == kind
  {
    var at := FirstOfKind(input, kind);
    if at.Some? {
      FirstIs(input, kind, input[at.value].name, at.value);
    }
  }

  lemma KindsDiffer()
    ensures MAPPING != SHARED && MAPPING != CLUSTER && SHARED != CLUSTER && !(PREFIX <= CLUSTER)
  {
    assert MAPPING[14] != SHARED[14];
    assert CLUSTER[0] != PREFIX[0];
  }

  lemma RequiredShaped(src: Source, input: seq<Config>)
    requires Honest(src)
    ensures Shaped(src, input, Required(src, input))
  {
    hide RequiredEntry, Right;
    KindsDiffer();
    RequiredRight(src, input, MAPPING);
    RequiredRight(src, input, SHARED);
    RequiredRight(src, input, CLUSTER);
    forall i | 0 <= i < 3 ensures Right(input, Required(src, input)[i]) {
    }
  }

  lemma FeatureShaped(src: Source, input: seq<Config>, out: seq<Entry>, feature: string, selector: string)
    requires Honest(src) && Shaped(src, input, out) && AddFeature(src, input, out, feature, selector).Success?
    ensures var r := AddFeature(src, input, out, feature, selector).value;
            && Shaped(src, input, r) && out <= r && Has(input, r, PREFIX + feature, selector)
            && (r == out || (|r| == |out| + 1 && Is(ConfigOf(input, r[|out|]), PREFIX + feature, selector)))
  {
    var kind := PREFIX + feature;
    var r := AddFeature(src, input, out, feature, selector).value;
    var at := FirstNamed(input, kind, selector);
    if r != out {
      assert Is(ConfigOf(input, r[|out|]), kind, selector);
      if at.None? {
        var c := src.make(kind, selector).value;
        assert Is(c, kind, selector);
        forall i | 0 <= i < |out| && out[i].Made? ensures !Is(c, out[i].config.kind, out[i].config.name) {
          assert !Is(ConfigOf(input, out[i]), kind, selector);
        }
      }
    }
  }

  /** Whether an entry is there for a mapped feature of an enabled component among the first `n`. */
  predicate ForFeature(src: Source, input: seq<Config>, cs: seq<Component>, n: nat, kind: string) {
    exists i, j :: 0 <= i < n && i < |cs| && cs[i].count >= 1 && cs[i].key in Mapping(src, input)
                   && 0 <= j < |Mapping(src, input)[cs[i].key]| && kind == PREFIX + Mapping(src, input)[cs[i].key][j]
  }

  lemma {:induction false} FeaturesShaped(src: Source, input: seq<Config>, out: seq<Entry>, features: seq<string>,
                                          selector: string, n: nat)
    requires Honest(src) && Shaped(src, input, out) && n <= |features|
    requires AddFeatures(src, input, out, features, selector, n).Success?
    ensures var r := AddFeatures(src, input, out, features, selector, n).value;
            && Shaped(src, input, r) && out <= r
            && (forall j :: 0 <= j < n ==> Has(input, r, PREFIX + features[j], selector))
            && (forall i :: |out| <= i < |r| ==>
                exists j :: 0 <= j < n && ConfigOf(input, r[i]).kind == PREFIX + features[j])
  {
    hide Shaped, AddFeature, Has;
    if n != 0 {
      FeaturesShaped(src, input, out, features, selector, n - 1);
      var before := AddFeatures(src, input, out, features, selector, n - 1).value;
      var r := AddFeatures(src, input, out, features, selector, n).value;
      FeatureShaped(src, input, before, features[n - 1], selector);
      ShapedFits(src, input, r);
      forall j | 0 <= j < n ensures Has(input, r, PREFIX + features[j], selector) {
        if j < n - 1 {
          HasStays(input, before, r, PREFIX + features[j], selector);
        }
      }
    }
  }

  lemma ShapedFits(src: Source, input: seq<Config>, out: seq<Entry>)
    requires Shaped(src, input, out)
    ensures forall i :: 0 <= i < |out| && out[i].Given? ==> out[i].at < |input|
  {
    forall i | 0 <= i < |out| && out[i].Given? ensures out[i].at < |input| {
      assert Right(input, out[i]);
    }
  }

  lemma HasStays(input: seq<Config>, out: seq<Entry>, out': seq<Entry>, kind: string, name: string)
    requires out <= out' && Has(input, out, kind, name)
    ensures Has(input, out', kind, name)
  {
    var i :| 0 <= i < |out| && (out[i].Given? ==> out[i].at < |input|) && Is(ConfigOf(input, out[i]), kind, name);
    assert out'[i] == out[i];
  }

  /**
   * The listing after the first `n` components: every entry right, every mapped feature covered, and nothing
   * else added.
   */
  lemma {:induction false} AppendShaped(src: Source, input: seq<Config>, cs: seq<Component>, n: nat)
    requires Honest(src) && n <= |cs| && AppendFirst(src, input, cs, n).Success?
    ensures var out := AppendFirst(src, input, cs, n).value;
            && Shaped(src, input, out)
            && (forall i :: 0 <= i < n && cs[i].count >= 1 ==>
                  && cs[i].key in Mapping(src, input)
                  && forall j :: 0 <= j < |Mapping(src, input)[cs[i].key]| ==>
                       Has(input, out, PREFIX + Mapping(src, input)[cs[i].key][j], cs[i].selector))
            && (forall k :: 3 <= k < |out| ==>
                (out[k].Given? ==> out[k].at < |input|) && ForFeature(src, input, cs, n, ConfigOf(input, out[k]).kind))
  {
    hide Shaped, Has, Mapping, AddFeatures, Required;
    if n == 0 {
      RequiredShaped(src, input);
      ThreeRequired(src, input);
    } else {
      AppendShaped(src, input, cs, n - 1);
      var before, out := AppendFirst(src, input, cs, n - 1).value, AppendFirst(src, input, cs, n).value;
      var c := cs[n - 1];
      if c.count >= 1 {
        var features := Mapping(src, input)[c.key];
        FeaturesShaped(src, input, before, features, c.selector, |features|);
        ShapedFits(src, input, out);
        forall i, j | 0 <= i < n - 1 && cs[i].count >= 1 && 0 <= j < |Mapping(src, input)[cs[i].key]|
          ensures Has(input, out, PREFIX + Mapping(src, input)[cs[i].key][j], cs[i].selector)
        {
          HasStays(input, before, out, PREFIX + Mapping(src, input)[cs[i].key][j], cs[i].selector);
        }
        forall k | 3 <= k < |out| ensures ForFeature(src, input, cs, n, ConfigOf(input, out[k]).kind) {
          if k < |before| {
            assert out[k] == before[k];
            ForFeatureStays(src, input, cs, n - 1, ConfigOf(input, before[k]).kind);
          } else {
            var j :| 0 <= j < |features| && ConfigOf(input, out[k]).kind == PREFIX + features[j];
          }
        }
      } else {
        forall k | 3 <= k < |out| ensures ForFeature(src, input, cs, n, ConfigOf(input, out[k]).kind) {
          ForFeatureStays(src, input, cs, n - 1, ConfigOf(input, before[k]).kind);
        }
      }
    }
  }

  lemma ThreeRequired(src: Source, input: seq<Config>)
    ensures |Required(src, input)| == 3
  {
  }

  lemma ForFeatureStays(src: Source, input: seq<Config>, cs: seq<Component>, n: nat, kind: string)
    requires ForFeature(src, input, cs, n, kind)
    ensures ForFeature(src, input, cs, n + 1, kind)
  {
    hide Mapping;
  }

  // ---------- the main results ----------

  /**
   * Coverage: every mapped feature of an enabled component has a document, the input's own first one if the
   * input has it.
   */
  lemma EveryFeatureCovered(src: Source, input: seq<Config>, cs: seq<Component>, i: nat, j: nat)
    requires Honest(src) && Append(src, input, cs).Success? && i < |cs| && cs[i].count >= 1
    requires cs[i].key in Mapping(src, input) ==> j < |Mapping(src, input)[cs[i].key]|
    ensures cs[i].key in Mapping(src, input)
    ensures var out, kind := Append(src, input, cs).value, PREFIX + Mapping(src, input)[cs[i].key][j];
            && Has(input, out, kind, cs[i].selector)
            && (FirstNamed(input, kind, cs[i].selector).Some? ==>
                Given(FirstNamed(input, kind, cs[i].selector).value) in out)
  {
    hide Shaped, Mapping, FirstNamed;
    AppendShaped(src, input, cs, |cs|);
    var out, kind := Append(src, input, cs).value, PREFIX + Mapping(src, input)[cs[i].key][j];
    var k :| 0 <= k < |out| && (out[k].Given? ==> out[k].at < |input|)
        && Is(ConfigOf(input, out[k]), kind, cs[i].selector);
    ShapedRight(src, input, out, k);
  }

  lemma ShapedRight(src: Source, input: seq<Config>, out: seq<Entry>, k: nat)
    requires Shaped(src, input, out) && k < |out|
    ensures Right(input, out[k])
    ensures var c := ConfigOf(input, out[k]);
            match FirstNamed(input, c.kind, c.name) case Some(i) => out[k] == Given(i) case None => out[k].Made?
  {
  }

  /** Every document of the output is the first input document of its kind and name, or made, and then only once. */
  lemma OutputRight(src: Source, input: seq<Config>, cs: seq<Component>)
    requires Honest(src) && Append(src, input, cs).Success?
    ensures var out := Append(src, input, cs).value;
            MadeOnce(out) && forall k :: 0 <= k < |out| ==> Right(input, out[k])
  {
    AppendShaped(src, input, cs, |cs|);
  }

  /** One cluster document comes out, and one feature mapping unless a mapped feature has that very name. */
  lemma RequiredOnce(src: Source, input: seq<Config>, cs: seq<Component>)
    requires Honest(src) && Append(src, input, cs).Success?
    ensures var out := Append(src, input, cs).value;
            && Fits(input, out) && |out| >= 3
            && (forall k :: 0 <= k < |out| ==> (ConfigOf(input, out[k]).kind == CLUSTER <==> k == 2))
            && ConfigOf(input, out[0]).kind == MAPPING
            && (!ForFeature(src, input, cs, |cs|, MAPPING) ==>
                  forall k :: 0 <= k < |out| ==> (ConfigOf(input, out[k]).kind == MAPPING <==> k == 0))
  {
    hide ForFeature, RequiredEntry;
    AppendShaped(src, input, cs, |cs|);
    var out := Append(src, input, cs).value;
    ShapedFits(src, input, out);
    KindsDiffer();
    RequiredRight(src, input, MAPPING);
    RequiredRight(src, input, SHARED);
    RequiredRight(src, input, CLUSTER);
    assert out[0] == Required(src, input)[0] && out[1] == Required(src, input)[1] && out[2] == Required(src, input)[2];
  }

  /** Somewhere a document of the kind and the name can come from. */
  predicate Available(src: Source, input: seq<Config>, kind: string, name: string) {
    FirstNamed(input, kind, name).Some? || Has(input, Required(src, input), kind, name) || src.make(kind, name).Some?
  }

  lemma FeatureSucceeds(src: Source, input: seq<Config>, out: seq<Entry>, feature: string, selector: string)
    requires Honest(src) && Shaped(src, input, out)
    ensures AddFeature(src, input, out, feature, selector).Success?
        <==> Available(src, input, PREFIX + feature, selector)
  {
    hide RequiredEntry;
    var kind := PREFIX + feature;
    if Has(input, out, kind, selector) {
      var k :| 0 <= k < |out| && (out[k].Given? ==> out[k].at < |input|) && Is(ConfigOf(input, out[k]), kind, selector);
      ShapedRight(src, input, out, k);
      if k < 3 {
        assert out[k] == Required(src, input)[k];
      }
    }
    if Has(input, Required(src, input), kind, selector) {
      HasStays(input, Required(src, input), out, kind, selector);
    }
  }

  lemma {:induction false} FeaturesSucceed(src: Source, input: seq<Config>, out: seq<Entry>, features: seq<string>,
                                           selector: string, n: nat)
    requires Honest(src) && Shaped(src, input, out) && n <= |features|
    ensures AddFeatures(src, input, out, features, selector, n).Success?
       <==> forall j :: 0 <= j < n ==> Available(src, input, PREFIX + features[j], selector)
  {
    hide Shaped, AddFeature, Available;
    if n != 0 {
      FeaturesSucceed(src, input, out, features, selector, n - 1);
      if AddFeatures(src, input, out, features, selector, n - 1).Success? {
        FeaturesShaped(src, input, out, features, selector, n - 1);
        FeatureSucceeds(src, input, AddFeatures(src, input, out, features, selector, n - 1).value, features[n - 1],
                        selector);
      }
    }
  }

  /** An enabled component is mapped, and what it maps to can be had. */
  predicate Served(src: Source, input: seq<Config>, c: Component) {
    c.count >= 1 ==>
      && c.key in Mapping(src, input)
      && forall j :: 0 <= j < |Mapping(src, input)[c.key]| ==>
           Available(src, input, PREFIX + Mapping(src, input)[c.key][j], c.selector)
  }

  /** The step succeeds exactly when every enabled component is served. */
  lemma {:induction false} AppendSucceeds(src: Source, input: seq<Config>, cs: seq<Component>, n: nat)
    requires Honest(src) && n <= |cs|
    ensures AppendFirst(src, input, cs, n).Success? <==> forall i :: 0 <= i < n ==> Served(src, input, cs[i])
  {
    hide Shaped, Mapping, AddFeatures, Available;
    if n != 0 {
      AppendSucceeds(src, input, cs, n - 1);
      if AppendFirst(src, input, cs, n - 1).Success? {
        AppendShaped(src, input, cs, n - 1);
        var out, c := AppendFirst(src, input, cs, n - 1).value, cs[n - 1];
        if c.count >= 1 && c.key in Mapping(src, input) {
          FeaturesSucceed(src, input, out, Mapping(src, input)[c.key], c.selector, |Mapping(src, input)[c.key]|);
        }
      }
    }
  }
}
