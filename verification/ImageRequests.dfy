/** What image every machine of a build asks for, and what it gets, stated on the input alone. */
module ImageRequests {
  import opened Results
  import opened OsImages

  // ---------- requests ----------

  /** A document of the image `own` asks for `requested`: its own image, or the cluster's where that is set. */
  predicate Requests(cluster: ClusterImage, own: string, requested: string) {
    && !cluster.Unsupported?
    && (cluster.Default? ==> requested == own)
    && (cluster.Image? ==> requested == cluster.image)
  }

  lemma AskedExactly(cluster: ClusterImage, own: string, requested: string)
    ensures Asked(cluster, own) == Success(requested) <==> Requests(cluster, own, requested)
  {
  }

  ghost predicate SameNames(vms: seq<VmDoc>, seen: seq<VmDoc>) {
    |vms| == |seen| && forall i :: 0 <= i < |vms| ==> vms[i].name == seen[i].name
  }

  ghost predicate MadeRequests(src: Source, vms: seq<VmDoc>, name: string, requested: string, seen: seq<VmDoc>) {
    && SameNames(vms, seen) && src.defaults(name, seen).Some?
    && Requests(src.cluster, src.defaults(name, seen).value, requested)
  }

  /** The request of a machine's document in the input, or of the one made from the files at some use of it. */
  ghost predicate MachineRequests(src: Source, vms: seq<VmDoc>, name: string, requested: string) {
    match FirstNamed(vms, name)
    case Some(i) => Requests(src.cluster, vms[i].image, requested)
    case None => exists seen :: MadeRequests(src, vms, name, requested, seen)
  }

  /** A machine has the image preserved for its request. */
  ghost predicate AsRequested(src: Source, vms: seq<VmDoc>, manifest: Option<seq<VmDoc>>, d: VmDoc) {
    exists requested ::
      MachineRequests(src, vms, d.name, requested) && Preserve(d.name, requested, manifest) == Success(d.image)
  }

  lemma RuleIsRequest(src: Source, vms: seq<VmDoc>, manifest: Option<seq<VmDoc>>, d: VmDoc)
    requires ByRule(src, vms, manifest, d)
    ensures AsRequested(src, vms, manifest, d)
  {
    hide Preserve, Asked;
    var asked :| Asks(src, vms, manifest, d.name, asked) && Preserve(d.name, asked, manifest) == Success(d.image);
    match FirstNamed(vms, d.name) {
      case Some(i) => AskedExactly(src.cluster, vms[i].image, asked);
      case None =>
        var seen :| MadeFrom(src, vms, manifest, d.name, asked, seen);
        AskedExactly(src.cluster, src.defaults(d.name, seen).value, asked);
        assert MadeRequests(src, vms, d.name, asked, seen);
    }
    assert MachineRequests(src, vms, d.name, asked);
  }

  /**
   * Every machine built asks for the cluster's image where that is set and for its document's otherwise, and gets
   * what is preserved for that.
   */
  lemma BuiltAsRequested(src: Source, vms: seq<VmDoc>, cs: seq<Component>, manifest: Option<seq<VmDoc>>, k: nat)
    requires Build(src, vms, cs, manifest).Success? && k < |Build(src, vms, cs, manifest).value.docs|
    ensures AsRequested(src, vms, manifest, Build(src, vms, cs, manifest).value.docs[k])
  {
    hide BuildFirst, AsRequested;
    BuiltByRule(src, vms, cs, manifest, |cs|);
    RuleIsRequest(src, vms, manifest, Build(src, vms, cs, manifest).value.docs[k]);
  }

  /** One use of a machine, the first or a later one. */
  lemma SelectedAsRequested(src: Source, vms: seq<VmDoc>, name: string, manifest: Option<seq<VmDoc>>)
    requires Select(src, vms, name, manifest).Success?
    ensures AsRequested(src, vms, manifest, VmDoc(name, Select(src, vms, name, manifest).value.0))
  {
    hide Select, AsRequested, ByRule;
    SelectByRule(src, vms, vms, name, manifest);
    RuleIsRequest(src, vms, manifest, VmDoc(name, Select(src, vms, name, manifest).value.0));
  }

  /** What the manifest makes of a request, case by case. */
  lemma PreserveExactly(name: string, requested: string, manifest: Option<seq<VmDoc>>)
    ensures manifest.None? ==> Preserve(name, requested, manifest) == Success(requested)
    ensures manifest == Some([]) ==> Preserve(name, requested, manifest) == Failure(NoManifestMachine)
    ensures manifest.Some? && manifest.value != [] ==>
              var ms, own, r := manifest.value, FirstNamed(manifest.value, name), Preserve(name, requested, manifest);
              if own.None? || requested == ms[0].image then r == Success(ms[0].image)
              else r == Success(ms[own.value].image)
  {
  }

  /**
   * A cluster-wide image is every machine's, as far as the manifest allows; in a first apply it is the image
   * of all.
   */
  lemma ClusterImageApplied(src: Source, vms: seq<VmDoc>, cs: seq<Component>, manifest: Option<seq<VmDoc>>, k: nat)
    requires Build(src, vms, cs, manifest).Success? && k < |Build(src, vms, cs, manifest).value.docs|
    requires src.cluster.Image?
    ensures var d := Build(src, vms, cs, manifest).value.docs[k];
            && Preserve(d.name, src.cluster.image, manifest) == Success(d.image)
            && (manifest.None? ==> d.image == src.cluster.image)
  {
    hide BuildFirst, Preserve;
    BuiltAsRequested(src, vms, cs, manifest, k);
    PreserveExactly(Build(src, vms, cs, manifest).value.docs[k].name, src.cluster.image, manifest);
  }

  // ---------- the input's documents ----------

  lemma UsedOnce(vms: seq<VmDoc>, cs: seq<Component>, n: nat, i: nat)
    requires 0 < n <= |cs|
    ensures Used(vms, cs, n, i)
        <==> Used(vms, cs, n - 1, i) || (cs[n - 1].count >= 1 && FirstNamed(vms, cs[n - 1].machine) == Some(i))
  {
  }

  lemma {:induction false} UsedSettle(src: Source, vms: seq<VmDoc>, cs: seq<Component>, manifest: Option<seq<VmDoc>>,
                                      n: nat)
    requires n <= |cs| && BuildFirst(src, vms, cs, manifest, n).Success?
    ensures var r := BuildFirst(src, vms, cs, manifest, n).value.vms;
            |r| == |vms| && forall i :: 0 <= i < |vms| ==>
                if Used(vms, cs, n, i) then Settled(src, vms[i], r[i].image, manifest) else r[i] == vms[i]
  {
    hide Preserve, Settled, Used;
    if n != 0 {
      UsedSettle(src, vms, cs, manifest, n - 1);
      BuiltAsAsked(src, vms, cs, manifest, n - 1);
      var b, c := BuildFirst(src, vms, cs, manifest, n - 1).value, cs[n - 1];
      forall i: nat
        ensures Used(vms, cs, n, i)
            <==> Used(vms, cs, n - 1, i) || (c.count >= 1 && FirstNamed(vms, c.machine) == Some(i))
      {
        UsedOnce(vms, cs, n, i);
      }
      if c.count >= 1 {
        SameFirst(vms, b.vms, c.machine);
        SelectTouched(src, vms, b.vms, c.machine, manifest);
      }
    } else {
      forall i: nat ensures !Used(vms, cs, 0, i) {
        NotUsed(vms, cs, i);
      }
    }
  }

  lemma NotUsed(vms: seq<VmDoc>, cs: seq<Component>, i: nat)
    ensures !Used(vms, cs, 0, i)
  {
  }

  /** A machine document of the input that a component uses ends with the image preserved for its request. */
  lemma UsedAsRequested(src: Source, vms: seq<VmDoc>, cs: seq<Component>, manifest: Option<seq<VmDoc>>, i: nat)
    requires Build(src, vms, cs, manifest).Success? && i < |vms|
    ensures var r := Build(src, vms, cs, manifest).value.vms;
            && |r| == |vms|
            && if Used(vms, cs, |cs|, i)
               then exists requested :: Requests(src.cluster, vms[i].image, requested)
                      && Preserve(vms[i].name, requested, manifest) == Success(r[i].image)
               else r[i] == vms[i]
  {
    hide BuildFirst, Preserve, Used;
    UsedSettle(src, vms, cs, manifest, |cs|);
    if Used(vms, cs, |cs|, i) {
      AskedExactly(src.cluster, vms[i].image, Asked(src.cluster, vms[i].image).value);
    }
  }

  // ---------- exactly when a build succeeds ----------

  /** An enabled component's machine can be had and its image be set. */
  predicate CanBeHad(src: Source, vms: seq<VmDoc>, manifest: Option<seq<VmDoc>>, c: Component) {
    c.count >= 1 ==>
      && (FirstNamed(vms, c.machine).Some? || src.defaults(c.machine, vms).Some?)
      && !src.cluster.Unsupported? && manifest != Some([])
  }

  lemma SelectSucceeds(src: Source, vms: seq<VmDoc>, seen: seq<VmDoc>, manifest: Option<seq<VmDoc>>, c: Component)
    requires DefaultsFixed(src) && SameNames(vms, seen) && c.count >= 1
    ensures Select(src, seen, c.machine, manifest).Success? <==> CanBeHad(src, vms, manifest, c)
    ensures Select(src, seen, c.machine, manifest).Success? ==>
              SameNames(vms, Select(src, seen, c.machine, manifest).value.1)
  {
    SameFirst(vms, seen, c.machine);
    assert src.defaults(c.machine, seen) == src.defaults(c.machine, vms);
  }

  /**
   * When the files do not depend on the input's other documents, a build succeeds exactly when every enabled
   * component's machine is in the input or the files, the cluster's image is one the provider has, and the manifest,
   * if there is one, has a machine.
   */
  lemma {:induction false} BuildsExactly(src: Source, vms: seq<VmDoc>, cs: seq<Component>, manifest: Option<seq<VmDoc>>,
                                         n: nat)
    requires n <= |cs| && DefaultsFixed(src)
    ensures BuildFirst(src, vms, cs, manifest, n).Success?
       <==> forall i :: 0 <= i < n ==> CanBeHad(src, vms, manifest, cs[i])
    ensures BuildFirst(src, vms, cs, manifest, n).Success? ==>
              SameNames(vms, BuildFirst(src, vms, cs, manifest, n).value.vms)
  {
    hide Select, DefaultsFixed;
    if n != 0 {
      BuildsExactly(src, vms, cs, manifest, n - 1);
      var before := BuildFirst(src, vms, cs, manifest, n - 1);
      if before.Success? && cs[n - 1].count >= 1 {
        SelectSucceeds(src, vms, before.value.vms, manifest, cs[n - 1]);
      }
    }
  }

  /** With an image the provider does not have, every build that needs a machine fails. */
  lemma {:induction false} UnsupportedFails(src: Source, vms: seq<VmDoc>, cs: seq<Component>,
                                            manifest: Option<seq<VmDoc>>, n: nat)
    requires n <= |cs| && src.cluster.Unsupported? && exists i :: 0 <= i < n && cs[i].count >= 1
    ensures BuildFirst(src, vms, cs, manifest, n).Failure?
  {
    if n != 0 && cs[n - 1].count < 1 {
      UnsupportedFails(src, vms, cs, manifest, n - 1);
    }
  }

  // ---------- how many documents ----------

  /** The machine documents the provider's run makes: one for a component on AWS, one for each machine on Azure. */
  function Made(provider: Provider, cs: seq<Component>): seq<string> {
    if cs == [] then []
    else
      var c := cs[|cs| - 1];
      Made(provider, cs[..|cs| - 1])
      + if c.count < 1 then [] else if provider.Aws? then [c.machine] else seq(c.count, _ => c.machine)
  }

  /** The built documents are those, in order, with their names. */
  lemma {:induction false} BuiltNames(src: Source, vms: seq<VmDoc>, cs: seq<Component>, manifest: Option<seq<VmDoc>>,
                                      n: nat)
    requires n <= |cs| && BuildFirst(src, vms, cs, manifest, n).Success?
    ensures var docs := BuildFirst(src, vms, cs, manifest, n).value.docs;
            |docs| == |Made(src.provider, cs[..n])|
            && forall k :: 0 <= k < |docs| ==> docs[k].name == Made(src.provider, cs[..n])[k]
  {
    hide Select;
    if n != 0 {
      BuiltNames(src, vms, cs, manifest, n - 1);
      assert cs[..n][..n - 1] == cs[..n - 1];
    }
  }

  /** The machines of a cluster in one provider document: as many documents as enabled components. */
  function EnabledCount(cs: seq<Component>): nat {
    if cs == [] then 0 else EnabledCount(cs[..|cs| - 1]) + if cs[|cs| - 1].count < 1 then 0 else 1
  }

  function MachineCount(cs: seq<Component>): nat {
    if cs == [] then 0
    else MachineCount(cs[..|cs| - 1]) + if cs[|cs| - 1].count < 1 then 0 else cs[|cs| - 1].count
  }

  lemma {:induction false} DocumentsMade(provider: Provider, cs: seq<Component>)
    ensures |Made(provider, cs)| == if provider.Aws? then EnabledCount(cs) else MachineCount(cs)
  {
    if cs != [] {
      DocumentsMade(provider, cs[..|cs| - 1]);
    }
  }
}
