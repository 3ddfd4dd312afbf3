/** Which operating system image a machine gets when a cluster is applied again. */
module OsImages {
  import opened Results

  /** A virtual machine document. */
  datatype VmDoc = VmDoc(name: string, image: string)

  datatype Component = Component(key: string, count: int, machine: string)

  /** The cluster-wide image: not set, set to an image, or set to one the provider does not have. */
  datatype ClusterImage = Default | Image(image: string) | Unsupported

  datatype Provider = Aws | Azure

  /**
   * `defaults` gives the image of a machine that the input does not define, made from the provider's
   * files and the input's documents; none if there is no such machine.
   */
  datatype Source = Source(provider: Provider, cluster: ClusterImage, defaults: (string, seq<VmDoc>) -> Option<string>)

  datatype ImageError = NoMachine(name: string) | ImageUnsupported | NoManifestMachine

  function FirstNamed(vms: seq<VmDoc>, name: string): (r: Option<nat>)
    ensures r.Some? ==> r.value < |vms| && vms[r.value].name == name && forall j :: 0 <= j < r.value ==>
        vms[j].name != name
    ensures r.None? ==> forall j :: 0 <= j < |vms| ==> vms[j].name != name
  {
    if vms == [] then None
    else if vms[0].name == name then Some(0)
    else match FirstNamed(vms[1..], name) case None => None case Some(i) => Some(i + 1)
  }

  /** The image a machine gets when it asks for one, given the documents of the manifest, if there is one. */
  function Preserve(name: string, requested: string, manifest: Option<seq<VmDoc>>): Result<string, ImageError> {
    match manifest
    case None => Success(requested)
    case Some(ms) =>
      var own := FirstNamed(ms, name);
      if own.Some? && requested == ms[own.value].image then Success(requested)
      else if ms == [] then Failure(NoManifestMachine)
      else if requested == ms[0].image then Success(requested)
      else Success(if own.Some? then ms[own.value].image else ms[0].image)
  }

  /** The image asked for by a document. */
  function Asked(cluster: ClusterImage, image: string): Result<string, ImageError> {
    match cluster
    case Default => Success(image)
    case Image(i) => Success(i)
    case Unsupported => Failure(ImageUnsupported)
  }

  /** The image of a machine's document before preservation. */
  function Base(src: Source, vms: seq<VmDoc>, name: string): Result<string, ImageError> {
    var at := FirstNamed(vms, name);
    if at.Some? then Success(vms[at.value].image)
    else match src.defaults(name, vms) case None => Failure(NoMachine(name)) case Some(i) => Success(i)
  }

  /** `get_virtual_machine`: the image, and the input documents, one of which may have been updated. */
  function Select(src: Source, vms: seq<VmDoc>, name: string, manifest: Option<seq<VmDoc>>)
    : Result<(string, seq<VmDoc>), ImageError>
  {
    var base :- Base(src, vms, name);
    var asked :- Asked(src.cluster, base);
    var image :- Preserve(name, asked, manifest);
    var at := FirstNamed(vms, name);
    Success((image, if at.Some? then vms[at.value := VmDoc(name, image)] else vms))
  }

  /** AWS makes one document for a component, Azure one for each of its machines. */
  function Copies(src: Source, c: Component): nat
    requires c.count >= 1
  {
    if src.provider.Aws? then 1 else c.count
  }

  function Repeat(d: VmDoc, n: nat): (r: seq<VmDoc>)
    ensures |r| == n && forall i :: 0 <= i < n ==> r[i] == d
  {
    seq(n, i requires 0 <= i < n => d)
  }

  /** The machine documents built for the first `n` components, and the input documents by then. */
  datatype Built = Built(docs: seq<VmDoc>, vms: seq<VmDoc>)

  function BuildFirst(src: Source, vms: seq<VmDoc>, cs: seq<Component>, manifest: Option<seq<VmDoc>>, n: nat)
    : Result<Built, ImageError>
    requires n <= |cs|
  {
    if n == 0 then Success(Built([], vms))
    else
      var b :- BuildFirst(src, vms, cs, manifest, n - 1);
      var c := cs[n - 1];
      if c.count < 1 then Success(b)
      else
        var (image, vms') :- Select(src, b.vms, c.machine, manifest);
        Success(Built(b.docs + Repeat(VmDoc(c.machine, image), Copies(src, c)), vms'))
  }

  function Build(src: Source, vms: seq<VmDoc>, cs: seq<Component>, manifest: Option<seq<VmDoc>>)
    : Result<Built, ImageError>
  {
    BuildFirst(src, vms, cs, manifest, |cs|)
  }

  // ---------- images are kept ----------

  function Images(vms: seq<VmDoc>): set<string> {
    set i | 0 <= i < |vms| :: vms[i].image
  }

  /** With machines in the manifest, a machine gets an image of the manifest whatever it asks for. */
  lemma PreservedIsKnown(name: string, requested: string, ms: seq<VmDoc>)
    requires ms != []
    ensures Preserve(name, requested, Some(ms)).Success? && Preserve(name, requested, Some(ms)).value in Images(ms)
  {
    var own := FirstNamed(ms, name);
    assert ms[0].image in Images(ms);
    if own.Some? {
      assert ms[own.value].image in Images(ms);
    }
  }

  /**
   * A machine of the manifest keeps its image exactly unless it asks for a different one that the first
   * machine has.
   */
  lemma KeepsOwnExactly(name: string, requested: string, ms: seq<VmDoc>)
    requires FirstNamed(ms, name).Some?
    ensures var own := ms[FirstNamed(ms, name).value].image;
            && (Preserve(name, requested, Some(ms)) == Success(own)
                <==> (requested == ms[0].image ==> ms[0].image == own))
            && (Preserve(name, requested, Some(ms)) != Success(own) ==>
                Preserve(name, requested, Some(ms)) == Success(ms[0].image))
  {
  }

  /** Asking for the preserved image again changes nothing. */
  lemma PreserveTwice(name: string, requested: string, manifest: Option<seq<VmDoc>>)
    requires Preserve(name, requested, manifest).Success?
    ensures Preserve(name, Preserve(name, requested, manifest).value, manifest) == Preserve(name, requested, manifest)
  {
  }

  lemma {:induction false} BuiltImages(src: Source, vms: seq<VmDoc>, cs: seq<Component>, ms: seq<VmDoc>, n: nat)
    requires n <= |cs| && BuildFirst(src, vms, cs, Some(ms), n).Success?
    ensures Images(BuildFirst(src, vms, cs, Some(ms), n).value.docs) <= Images(ms)
  {
    hide Preserve;
    if n != 0 {
      BuiltImages(src, vms, cs, ms, n - 1);
      var b, b' := BuildFirst(src, vms, cs, Some(ms), n - 1).value, BuildFirst(src, vms, cs, Some(ms), n).value;
      var c := cs[n - 1];
      if c.count >= 1 {
        var s := Select(src, b.vms, c.machine, Some(ms)).value;
        SelectedIsKnown(src, b.vms, c.machine, ms);
        forall i | 0 <= i < |b'.docs| ensures b'.docs[i].image in Images(ms) {
          if i < |b.docs| {
            assert b'.docs[i] == b.docs[i];
            assert b.docs[i].image in Images(b.docs);
          }
        }
      }
    }
  }

  lemma SelectedIsKnown(src: Source, vms: seq<VmDoc>, name: string, ms: seq<VmDoc>)
    requires Select(src, vms, name, Some(ms)).Success?
    ensures ms != [] && Select(src, vms, name, Some(ms)).value.0 in Images(ms)
  {
    var asked := Asked(src.cluster, Base(src, vms, name).value).value;
    if ms != [] {
      PreservedIsKnown(name, asked, ms);
    }
  }

  /** A manifest without machines stops every apply that needs one. */
  lemma {:induction false} NoMachinesNoBuild(src: Source, vms: seq<VmDoc>, cs: seq<Component>, n: nat)
    requires n <= |cs| && exists i :: 0 <= i < n && cs[i].count >= 1
    ensures BuildFirst(src, vms, cs, Some([]), n).Failure?
  {
    if n != 0 && cs[n - 1].count < 1 {
      NoMachinesNoBuild(src, vms, cs, n - 1);
    }
  }

  // ---------- one document used by several components ----------

  /** The input documents after some uses: each as given, or with the image preserved for what it asked. */
  ghost predicate Touched(src: Source, vms: seq<VmDoc>, vms': seq<VmDoc>, manifest: Option<seq<VmDoc>>) {
    && |vms| == |vms'|
    && forall i :: 0 <= i < |vms| ==>
         vms'[i].name == vms[i].name && (vms'[i] == vms[i] || Settled(src, vms[i], vms'[i].image, manifest))
  }

  /** The image a document gets when it is used. */
  predicate Settled(src: Source, d: VmDoc, image: string, manifest: Option<seq<VmDoc>>) {
    Asked(src.cluster, d.image).Success?
        && Preserve(d.name, Asked(src.cluster, d.image).value, manifest) == Success(image)
  }

  lemma {:induction false} SameFirst(vms: seq<VmDoc>, vms': seq<VmDoc>, name: string)
    requires |vms| == |vms'| && forall i :: 0 <= i < |vms| ==> vms'[i].name == vms[i].name
    ensures FirstNamed(vms, name) == FirstNamed(vms', name)
  {
    if vms != [] {
      SameFirst(vms[1..], vms'[1..], name);
    }
  }

  /** Using a document again settles it where its first use did. */
  lemma SelectTouched(src: Source, vms: seq<VmDoc>, vms': seq<VmDoc>, name: string, manifest: Option<seq<VmDoc>>)
    requires Touched(src, vms, vms', manifest) && Select(src, vms', name, manifest).Success?
    ensures Touched(src, vms, Select(src, vms', name, manifest).value.1, manifest)
    ensures var at := FirstNamed(vms, name); at.Some? ==>
        Settled(src, vms[at.value], Select(src, vms', name, manifest).value.0, manifest)
  {
    hide Preserve;
    SameFirst(vms, vms', name);
    var at := FirstNamed(vms, name);
    if at.Some? {
      var d, d' := vms[at.value], vms'[at.value];
      if d' != d {
        PreserveTwice(name, Asked(src.cluster, d.image).value, manifest);
      }
    }
  }

  /**
   * Every document built for a machine of the input has the image preserved for what the input asked, however
   * often it is used.
   */
  lemma {:induction false} BuiltAsAsked(src: Source, vms: seq<VmDoc>, cs: seq<Component>, manifest: Option<seq<VmDoc>>,
                                        n: nat)
    requires n <= |cs| && BuildFirst(src, vms, cs, manifest, n).Success?
    ensures var b := BuildFirst(src, vms, cs, manifest, n).value;
            && Touched(src, vms, b.vms, manifest)
            && forall k :: 0 <= k < |b.docs| ==>
                 var at := FirstNamed(vms, b.docs[k].name);
                 at.Some? ==> Settled(src, vms[at.value], b.docs[k].image, manifest)
  {
    hide Preserve, Settled, Select;
    if n != 0 {
      BuiltAsAsked(src, vms, cs, manifest, n - 1);
      var b, c := BuildFirst(src, vms, cs, manifest, n - 1).value, cs[n - 1];
      if c.count >= 1 {
        SelectTouched(src, vms, b.vms, c.machine, manifest);
      }
    }
  }

  // ---------- what every machine asks for ----------

  /**
   * What a machine may ask for: the image of its document in the input or, if the input does not define
   * it, of the one made from the files and from the input's documents as they stand at some use.
   */
  ghost predicate Asks(src: Source, vms: seq<VmDoc>, manifest: Option<seq<VmDoc>>, name: string, asked: string) {
    match FirstNamed(vms, name)
    case Some(i) => Asked(src.cluster, vms[i].image) == Success(asked)
    case None => exists seen :: MadeFrom(src, vms, manifest, name, asked, seen)
  }

  ghost predicate MadeFrom(src: Source, vms: seq<VmDoc>, manifest: Option<seq<VmDoc>>, name: string, asked: string,
                           seen: seq<VmDoc>)
  {
    && Touched(src, vms, seen, manifest) && src.defaults(name, seen).Some?
    && Asked(src.cluster, src.defaults(name, seen).value) == Success(asked)
  }

  /** A machine has the image preserved for what it asks. */
  ghost predicate ByRule(src: Source, vms: seq<VmDoc>, manifest: Option<seq<VmDoc>>, d: VmDoc) {
    exists asked :: Asks(src, vms, manifest, d.name, asked) && Preserve(d.name, asked, manifest) == Success(d.image)
  }

  lemma SelectByRule(src: Source, vms: seq<VmDoc>, vms': seq<VmDoc>, name: string, manifest: Option<seq<VmDoc>>)
    requires Touched(src, vms, vms', manifest) && Select(src, vms', name, manifest).Success?
    ensures ByRule(src, vms, manifest, VmDoc(name, Select(src, vms', name, manifest).value.0))
  {
    hide Preserve;
    SameFirst(vms, vms', name);
    var image := Select(src, vms', name, manifest).value.0;
    var at := FirstNamed(vms, name);
    if at.Some? {
      SelectTouched(src, vms, vms', name, manifest);
      var asked := Asked(src.cluster, vms[at.value].image).value;
      assert Asks(src, vms, manifest, name, asked);
    } else {
      var asked := Asked(src.cluster, src.defaults(name, vms').value).value;
      assert MadeFrom(src, vms, manifest, name, asked, vms');
      assert Asks(src, vms, manifest, name, asked);
    }
  }

  /** Every machine built, of the input or of the files, has the image preserved for what it asks. */
  lemma {:induction false} BuiltByRule(src: Source, vms: seq<VmDoc>, cs: seq<Component>, manifest: Option<seq<VmDoc>>,
                                       n: nat)
    requires n <= |cs| && BuildFirst(src, vms, cs, manifest, n).Success?
    ensures var b := BuildFirst(src, vms, cs, manifest, n).value;
            forall k :: 0 <= k < |b.docs| ==> ByRule(src, vms, manifest, b.docs[k])
  {
    hide Preserve, Select, ByRule;
    if n != 0 {
      BuiltByRule(src, vms, cs, manifest, n - 1);
      BuiltAsAsked(src, vms, cs, manifest, n - 1);
      var b, c := BuildFirst(src, vms, cs, manifest, n - 1).value, cs[n - 1];
      if c.count >= 1 {
        SelectByRule(src, vms, b.vms, c.machine, manifest);
      }
    }
  }

  /** The files give the same machine whatever the input's other documents say. */
  ghost predicate DefaultsFixed(src: Source) {
    forall name, v, v' :: src.defaults(name, v) == src.defaults(name, v')
  }

  // ---------- what a build does to the input's documents ----------

  /** A component among the first `n` uses the `i`-th input document. */
  predicate Used(vms: seq<VmDoc>, cs: seq<Component>, n: nat, i: nat) {
    exists c :: 0 <= c < n && c < |cs| && cs[c].count >= 1 && FirstNamed(vms, cs[c].machine) == Some(i)
  }

  /** Used documents end with an image of the manifest, the others as they were. */
  lemma {:induction false} BuiltInput(src: Source, vms: seq<VmDoc>, cs: seq<Component>, ms: seq<VmDoc>, n: nat)
    requires n <= |cs| && BuildFirst(src, vms, cs, Some(ms), n).Success?
    ensures var r := BuildFirst(src, vms, cs, Some(ms), n).value.vms;
            && |r| == |vms|
            && forall i :: 0 <= i < |vms| ==>
                 r[i].name == vms[i].name && if Used(vms, cs, n, i) then r[i].image in Images(ms) else r[i] == vms[i]
  {
    hide Preserve;
    if n != 0 {
      BuiltInput(src, vms, cs, ms, n - 1);
      var b, c := BuildFirst(src, vms, cs, Some(ms), n - 1).value, cs[n - 1];
      forall i | 0 <= i < |vms|
        ensures Used(vms, cs, n, i)
            <==> Used(vms, cs, n - 1, i) || (c.count >= 1 && FirstNamed(vms, c.machine) == Some(i))
      {
      }
      if c.count >= 1 {
        SameFirst(vms, b.vms, c.machine);
        SelectedIsKnown(src, b.vms, c.machine, ms);
      }
    }
  }
}
