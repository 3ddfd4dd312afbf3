/** Properties of whole sequences of applies. */
module ApplyRuns {
  import opened Results
  import opened Naming
  import opened Inventory
  import opened OsImages
  import opened ImageRequests
  import opened ApplyEngine

  /** The apply completed, or was turned down before it wrote anything. */
  predicate Clean(out: Outcome<ApplyError>) {
    out.Pass? || out.error.MasterDownscale? || out.error.PostgresScaled? || out.error.BuildFailed?
  }

  /** The files before and after each of a sequence of applies, none of which was interrupted. */
  ghost predicate Run(files: seq<Files>, inputs: seq<Input>) {
    && |files| == |inputs| + 1
    && forall i :: 0 <= i < |inputs| ==>
         Step(files[i], inputs[i]).0 == files[i + 1] && Clean(Step(files[i], inputs[i]).1)
  }

  /** The manifest an uninterrupted apply leaves: what was built, or what was there. */
  lemma ManifestAfter(s: Files, input: Input)
    requires Clean(Step(s, input).1)
    ensures var s' := Step(s, input).0;
            s' == s || (Build(input.source, input.vms, input.components, s.manifest).Success?
                        && s'.manifest == Some(Build(input.source, input.vms, input.components, s.manifest).value.docs))
  {
    hide Build, InventoryOf, MasterShrinks, PostgresChanges, OneFamily;
  }

  // ---------- images ----------

  lemma ImagesStep(s: Files, input: Input)
    requires Clean(Step(s, input).1) && s.manifest.Some?
    ensures var s' := Step(s, input).0;
            s'.manifest.Some? && Images(s'.manifest.value) <= Images(s.manifest.value)
  {
    hide Step, BuildFirst, Images;
    ManifestAfter(s, input);
    if Step(s, input).0 == s {
    } else {
      BuiltImages(input.source, input.vms, input.components, s.manifest.value, |input.components|);
    }
  }

  /** Once there is a manifest, the images in it never grow. */
  lemma {:induction false} ImagesNeverGrow(files: seq<Files>, inputs: seq<Input>, i: nat, j: nat)
    requires Run(files, inputs) && i <= j < |files| && files[i].manifest.Some?
    ensures files[j].manifest.Some? && Images(files[j].manifest.value) <= Images(files[i].manifest.value)
    decreases j
  {
    hide Step, Images, Clean;
    if i < j {
      ImagesNeverGrow(files, inputs, i, j - 1);
      ImagesStep(files[j - 1], inputs[j - 1]);
    }
  }

  /** A cluster with one image keeps it, whatever later inputs ask for. */
  lemma SingleImageStays(files: seq<Files>, inputs: seq<Input>, i: nat, j: nat, image: string, k: nat)
    requires Run(files, inputs) && i <= j < |files| && files[i].manifest.Some?
        && Images(files[i].manifest.value) == {image}
    requires files[j].manifest.Some? && k < |files[j].manifest.value|
    ensures files[j].manifest.value[k].image == image
  {
    hide Step, Run;
    ImagesNeverGrow(files, inputs, i, j);
    assert files[j].manifest.value[k].image in Images(files[j].manifest.value);
  }

  /**
   * The image of a machine that asks for `asked`: its own, unless it asks for the first machine's and that is
   * another.
   */
  predicate Keeps(ms: seq<VmDoc>, d: VmDoc, asked: string) {
    var own := FirstNamed(ms, d.name);
    own.Some? ==>
      && (d.image == ms[own.value].image <==> (asked == ms[0].image ==> ms[0].image == ms[own.value].image))
      && (d.image != ms[own.value].image ==> d.image == ms[0].image)
  }

  lemma BuiltInStep(s: Files, input: Input)
    requires Step(s, input).1.Pass?
    ensures Build(input.source, input.vms, input.components, s.manifest).Success?
    ensures Step(s, input).0.manifest == Some(Build(input.source, input.vms, input.components, s.manifest).value.docs)
  {
    hide Build, InventoryOf, MasterShrinks, PostgresChanges, OneFamily;
  }

  /**
   * In a completed apply every machine of the manifest, of the input or of the provider's files, keeps its
   * image exactly unless the image it asks for is the first machine's and not its own.
   */
  lemma MachineKeepsImage(s: Files, input: Input, k: nat)
    requires s.manifest.Some? && Step(s, input).1.Pass? && k < |Step(s, input).0.manifest.value|
    ensures var d := Step(s, input).0.manifest.value[k];
            exists requested :: MachineRequests(input.source, input.vms, d.name, requested)
                && Keeps(s.manifest.value, d, requested)
  {
    hide Build, Step, Preserve, MachineRequests;
    BuiltInStep(s, input);
    BuiltAsRequested(input.source, input.vms, input.components, s.manifest, k);
    var d := Step(s, input).0.manifest.value[k];
    var requested :| MachineRequests(input.source, input.vms, d.name, requested)
        && Preserve(d.name, requested, s.manifest) == Success(d.image);
    KeepsByRule(s.manifest.value, d, requested);
  }

  lemma KeepsByRule(ms: seq<VmDoc>, d: VmDoc, asked: string)
    requires Preserve(d.name, asked, Some(ms)) == Success(d.image)
    ensures Keeps(ms, d, asked)
  {
  }

  /** The same with what the machine asks for spelt out, when the files do not depend on the input's other documents. */
  lemma MachineKeepsImageExactly(s: Files, input: Input, k: nat)
    requires s.manifest.Some? && Step(s, input).1.Pass? && k < |Step(s, input).0.manifest.value|
        && DefaultsFixed(input.source)
    ensures var d, base := Step(s, input).0.manifest.value[k],
        Base(input.source, input.vms, Step(s, input).0.manifest.value[k].name);
            && base.Success?
            && exists requested ::
                 Requests(input.source.cluster, base.value, requested) && Keeps(s.manifest.value, d, requested)
  {
    hide Step, BuildFirst, Keeps;
    BuiltInStep(s, input);
    MachineKeepsImage(s, input, k);
    var d := Step(s, input).0.manifest.value[k];
    var requested :| MachineRequests(input.source, input.vms, d.name, requested)
        && Keeps(s.manifest.value, d, requested);
    RequestOnce(input.source, input.vms, d.name, requested);
  }

  /** When the files do not depend on other documents, the request is that of the machine's own document. */
  lemma RequestOnce(src: Source, vms: seq<VmDoc>, name: string, requested: string)
    requires DefaultsFixed(src) && MachineRequests(src, vms, name, requested)
    ensures Base(src, vms, name).Success? && Requests(src.cluster, Base(src, vms, name).value, requested)
  {
    if FirstNamed(vms, name).None? {
      var seen :| MadeRequests(src, vms, name, requested, seen);
      assert src.defaults(name, seen) == src.defaults(name, vms);
    }
  }

  /** In a first apply of a cluster with an image of its own every machine gets that image. */
  lemma FirstApplyImage(s: Files, input: Input, k: nat)
    requires s.manifest.None? && Step(s, input).1.Pass? && k < |Step(s, input).0.manifest.value|
        && input.source.cluster.Image?
    ensures Step(s, input).0.manifest.value[k].image == input.source.cluster.image
  {
    hide Step, Build;
    BuiltInStep(s, input);
    ClusterImageApplied(input.source, input.vms, input.components, None, k);
  }

  /** The image of a machine of the manifest. */
  function ImageOf(s: Files, name: string): Option<string> {
    if s.manifest.None? then None
    else match FirstNamed(s.manifest.value, name) case None => None case Some(i) => Some(s.manifest.value[i].image)
  }

  /** The image of the first machine of the manifest. */
  function FirstImage(s: Files): Option<string> {
    if s.manifest.None? || s.manifest.value == [] then None else Some(s.manifest.value[0].image)
  }

  lemma OwnOrFirst(s: Files, input: Input, name: string)
    requires Clean(Step(s, input).1) && ImageOf(s, name).Some? && ImageOf(Step(s, input).0, name).Some?
    ensures var s' := Step(s, input).0;
            ImageOf(s', name) == ImageOf(s, name) || ImageOf(s', name) == FirstImage(s)
  {
    hide Step, MachineRequests;
    ManifestAfter(s, input);
    var s' := Step(s, input).0;
    if s' != s {
      var at := FirstNamed(s'.manifest.value, name).value;
      PassWhenChanged(s, input);
      MachineKeepsImage(s, input, at);
    }
  }

  lemma PassWhenChanged(s: Files, input: Input)
    requires Clean(Step(s, input).1) && Step(s, input).0 != s
    ensures Step(s, input).1.Pass?
  {
    hide Build, InventoryOf, MasterShrinks, PostgresChanges, OneFamily;
  }

  /** While a machine stays in the cluster its image is the one it had, or one the first machine had in between. */
  lemma {:induction false} OwnOrFirstOverRuns(files: seq<Files>, inputs: seq<Input>, i: nat, j: nat, name: string)
    requires Run(files, inputs) && i <= j < |files|
    requires forall t :: i <= t <= j ==> ImageOf(files[t], name).Some?
    ensures ImageOf(files[j], name) == ImageOf(files[i], name)
         || exists t :: i <= t < j && ImageOf(files[j], name) == FirstImage(files[t])
    decreases j
  {
    hide Step, Clean;
    if i < j {
      OwnOrFirstOverRuns(files, inputs, i, j - 1, name);
      OwnOrFirst(files[j - 1], inputs[j - 1], name);
    }
  }

  /** After an apply that left no machines, every apply that needs one is turned down. */
  lemma NoMachinesNoApply(s: Files, input: Input)
    requires s.manifest == Some([]) && exists i :: 0 <= i < |input.components| && input.components[i].count >= 1
    ensures Step(s, input).1.Fail? && Step(s, input).0 == s
  {
    hide InventoryOf, MasterShrinks, PostgresChanges, OneFamily;
    NoMachinesNoBuild(input.source, input.vms, input.components, |input.components|);
  }

  /** Two machines of one system, of which only one is used. */
  function Interrupted(): Input {
    Input(Source(Aws, Default, (n, v) => None), [VmDoc("spare", "new"), VmDoc("vm", "old")],
          [OsImages.Component("c", 1, "vm")], i => i, None, k => [], false)
  }

  /** An interrupted apply leaves unused documents of the input in the manifest, so the images can grow. */
  lemma InterruptedGrows()
    ensures var s := Files(Some([VmDoc("vm", "old")]), None);
            var (s', out) := Step(s, Interrupted());
            && out == Fail(ConfigurationFailed) && s'.manifest.Some?
            && "new" in Images(s'.manifest.value) && "new" !in Images(s.manifest.value)
  {
    var s, input := Files(Some([VmDoc("vm", "old")]), None), Interrupted();
    var vms, cs, src := input.vms, input.components, input.source;
    assert FirstNamed(vms[1..], "vm") == Some(0);
    assert FirstNamed(vms, "vm") == Some(1);
    assert FirstNamed(s.manifest.value, "vm") == Some(0);
    assert vms[1 := VmDoc("vm", "old")] == vms;
    assert Select(src, vms, "vm", s.manifest) == Success(("old", vms));
    assert BuildFirst(src, vms, cs, s.manifest, 0) == Success(Built([], vms));
    assert BuildFirst(src, vms, cs, s.manifest, 1) == Success(Built([] + Repeat(VmDoc("vm", "old"), 1), vms));
    var s' := Step(s, input).0;
    assert s'.manifest.value[0].image == "new";
  }

  /** Every machine document of the input that no component uses has an image of the manifest. */
  predicate NoStray(ms: seq<VmDoc>, input: Input) {
    forall i :: 0 <= i < |input.vms| && !Used(input.vms, input.components, |input.components|, i) ==>
        input.vms[i].image in Images(ms)
  }

  predicate Interrupts(out: Outcome<ApplyError>) {
    out == Fail(MixedSystems) || out == Fail(ConfigurationFailed)
  }

  lemma EarlySave(s: Files, input: Input)
    requires Interrupts(Step(s, input).1)
    ensures var b := Build(input.source, input.vms, input.components, s.manifest);
            b.Success? && Step(s, input).0.manifest == Some(b.value.vms + b.value.docs)
  {
    hide Build, InventoryOf, MasterShrinks, PostgresChanges, OneFamily;
  }

  lemma ImagesAppend(a: seq<VmDoc>, b: seq<VmDoc>)
    ensures Images(a + b) == Images(a) + Images(b)
  {
    forall x | x in Images(a) + Images(b) ensures x in Images(a + b) {
      if x in Images(a) {
        var i :| 0 <= i < |a| && a[i].image == x;
        assert (a + b)[i].image == x;
      } else {
        var i :| 0 <= i < |b| && b[i].image == x;
        assert (a + b)[|a| + i].image == x;
      }
    }
  }

  /**
   * An apply interrupted after the early save keeps to the images of the manifest exactly when every machine
   * document of the input that no component uses has one of them.
   */
  lemma InterruptedExactly(s: Files, input: Input)
    requires s.manifest.Some? && Interrupts(Step(s, input).1)
    ensures var s' := Step(s, input).0;
            && s'.manifest.Some?
            && (Images(s'.manifest.value) <= Images(s.manifest.value) <==> NoStray(s.manifest.value, input))
  {
    hide Step, BuildFirst, Used, Images;
    var ms, n := s.manifest.value, |input.components|;
    EarlySave(s, input);
    var b := Build(input.source, input.vms, input.components, s.manifest).value;
    ImagesAppend(b.vms, b.docs);
    BuiltImages(input.source, input.vms, input.components, ms, n);
    BuiltInput(input.source, input.vms, input.components, ms, n);
    ImagesBelow(b.vms, ms);
    if NoStray(ms, input) {
      forall i | 0 <= i < |b.vms| ensures b.vms[i].image in Images(ms) {
      }
    }
    if Images(b.vms) <= Images(ms) {
      forall i | 0 <= i < |input.vms| && !Used(input.vms, input.components, n, i)
        ensures input.vms[i].image in Images(ms)
      {
        assert b.vms[i] == input.vms[i];
      }
    }
  }

  lemma ImagesBelow(vms: seq<VmDoc>, ms: seq<VmDoc>)
    ensures Images(vms) <= Images(ms) <==> forall i :: 0 <= i < |vms| ==> vms[i].image in Images(ms)
  {
    if Images(vms) <= Images(ms) {
      forall i | 0 <= i < |vms| ensures vms[i].image in Images(ms) {
        assert vms[i].image in Images(vms);
      }
    }
  }

  lemma LateSave(s: Files, input: Input)
    requires !Clean(Step(s, input).1) && !Interrupts(Step(s, input).1)
    ensures var b := Build(input.source, input.vms, input.components, s.manifest);
            b.Success? && Step(s, input).0.manifest == Some(b.value.docs)
  {
    hide Build, InventoryOf, MasterShrinks, PostgresChanges, OneFamily;
  }

  /** Whatever the outcome of an apply, without stray documents no image is new. */
  lemma AnyStep(s: Files, input: Input)
    requires s.manifest.Some? && NoStray(s.manifest.value, input)
    ensures var s' := Step(s, input).0;
            s'.manifest.Some? && Images(s'.manifest.value) <= Images(s.manifest.value)
  {
    hide Step, BuildFirst, Images, NoStray;
    if Clean(Step(s, input).1) {
      ImagesStep(s, input);
    } else if Interrupts(Step(s, input).1) {
      InterruptedExactly(s, input);
    } else {
      LateSave(s, input);
      BuiltImages(input.source, input.vms, input.components, s.manifest.value, |input.components|);
    }
  }

  /** Over any applies at all, interrupted ones included, the images never grow if no input has stray documents. */
  lemma {:induction false} ImagesNeverGrowInterrupted(files: seq<Files>, inputs: seq<Input>, i: nat, j: nat)
    requires |files| == |inputs| + 1 && forall t :: 0 <= t < |inputs| ==> Step(files[t], inputs[t]).0 == files[t + 1]
    requires i <= j < |files| && files[i].manifest.Some?
    requires forall t :: i <= t < j && files[t].manifest.Some? ==> NoStray(files[t].manifest.value, inputs[t])
    ensures files[j].manifest.Some? && Images(files[j].manifest.value) <= Images(files[i].manifest.value)
    decreases j
  {
    hide Step, Images, NoStray;
    if i < j {
      ImagesNeverGrowInterrupted(files, inputs, i, j - 1);
      AnyStep(files[j - 1], inputs[j - 1]);
    }
  }
}
