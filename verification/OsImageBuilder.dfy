/**
 * The image selection as it runs: machine documents of the input are updated in place and shared between
 * components.
 */
module OsImageBuilder {
  import opened Results
  import opened OsImages
  import opened ImageRequests

  class MachineDocument {
    const name: string
    var image: string

    constructor (name: string, image: string)
      ensures this.name == name && this.image == image
    {
      this.name, this.image := name, image;
    }
  }

  function ViewOf(d: MachineDocument): VmDoc
    reads d
  {
    VmDoc(d.name, d.image)
  }

  function View(docs: seq<MachineDocument>): (r: seq<VmDoc>)
    reads docs
    ensures |r| == |docs| && forall i :: 0 <= i < |docs| ==> r[i] == ViewOf(docs[i])
  {
    seq(|docs|, i requires 0 <= i < |docs| reads docs => ViewOf(docs[i]))
  }

  /** No document is listed twice. */
  ghost predicate Separate(docs: seq<MachineDocument>) {
    forall i, j :: 0 <= i < j < |docs| ==> docs[i] != docs[j]
  }

  lemma {:induction false} FirstNamedAt(vms: seq<VmDoc>, name: string, i: nat)
    requires i < |vms| && vms[i].name == name && forall j :: 0 <= j < i ==> vms[j].name != name
    ensures FirstNamed(vms, name) == Some(i)
  {
    if i != 0 {
      FirstNamedAt(vms[1..], name, i - 1);
    }
  }

  lemma {:induction false} NoneNamed(vms: seq<VmDoc>, name: string)
    requires forall j :: 0 <= j < |vms| ==> vms[j].name != name
    ensures FirstNamed(vms, name) == None
  {
    if vms != [] {
      NoneNamed(vms[1..], name);
    }
  }

  /** `select_first` by name over documents. */
  method SelectFirst(docs: seq<MachineDocument>, name: string) returns (r: Option<nat>)
    ensures r == FirstNamed(View(docs), name)
  {
    for i := 0 to |docs|
      invariant forall j :: 0 <= j < i ==> View(docs)[j].name != name
    {
      if docs[i].name == name {
        FirstNamedAt(View(docs), name, i);
        return Some(i);
      }
    }
    NoneNamed(View(docs), name);
    r := None;
  }

  /** The last part of `get_virtual_machine`: the image the document keeps. */
  method KeepImage(doc: MachineDocument, manifest: Option<seq<VmDoc>>) returns (r: Outcome<ImageError>)
    modifies doc
    ensures match Preserve(doc.name, old(doc.image), manifest)
            case Success(image) => r.Pass? && doc.image == image
            case Failure(e) => r == Fail(e)
  {
    match manifest {
      case None =>
      case Some(ms) =>
        var own := FirstNamed(ms, doc.name);
        if own.Some? && doc.image == ms[own.value].image {
          return Pass;
        }
        if ms == [] {
          return Fail(NoManifestMachine);
        }
        if doc.image == ms[0].image {
          return Pass;
        }
        doc.image := if own.Some? then ms[own.value].image else ms[0].image;
    }
    r := Pass;
  }

  /** What one document's update does to the view. */
  lemma OneChanged(docs: seq<MachineDocument>, before: seq<VmDoc>, at: nat)
    requires Separate(docs) && |before| == |docs| && at < |docs|
    requires forall i :: 0 <= i < |docs| && i != at ==> before[i] == ViewOf(docs[i])
    ensures View(docs) == before[at := ViewOf(docs[at])]
  {
  }

  method GetVirtualMachine(src: Source, docs: seq<MachineDocument>, name: string, manifest: Option<seq<VmDoc>>)
    returns (r: Result<MachineDocument, ImageError>)
    requires Separate(docs)
    modifies docs
    ensures match Select(src, old(View(docs)), name, manifest)
            case Success((image, vms)) => r.Success? && ViewOf(r.value) == VmDoc(name, image) && View(docs) == vms
            case Failure(e) => r == Failure(e)
    ensures r.Success? ==> AsRequested(src, old(View(docs)), manifest, ViewOf(r.value))
  {
    hide Preserve, AsRequested;
    ghost var before := View(docs);
    if Select(src, before, name, manifest).Success? {
      SelectedAsRequested(src, before, name, manifest);
    }
    var at := SelectFirst(docs, name);
    var doc: MachineDocument;
    if at.Some? {
      doc := docs[at.value];
    } else {
      var image := src.defaults(name, View(docs));
      if image.None? {
        return Failure(NoMachine(name));
      }
      doc := new MachineDocument(name, image.value);
    }
    match src.cluster {
      case Default =>
      case Image(i) => doc.image := i;
      case Unsupported => return Failure(ImageUnsupported);
    }
    var out := KeepImage(doc, manifest);
    if out.Fail? {
      return Failure(out.error);
    }
    if at.Some? {
      OneChanged(docs, before, at.value);
    } else {
      assert View(docs) == before;
    }
    r := Success(doc);
  }

  lemma {:induction false} BuildStaysFailed(src: Source, vms: seq<VmDoc>, cs: seq<Component>,
                                            manifest: Option<seq<VmDoc>>, i: nat, n: nat)
    requires i <= n <= |cs| && BuildFirst(src, vms, cs, manifest, i).Failure?
    ensures BuildFirst(src, vms, cs, manifest, n) == Failure(BuildFirst(src, vms, cs, manifest, i).error)
  {
    if i < n {
      BuildStaysFailed(src, vms, cs, manifest, i, n - 1);
    }
  }

  /** The loop over the components, as far as machine documents go. */
  method Run(src: Source, docs: seq<MachineDocument>, cs: seq<Component>, manifest: Option<seq<VmDoc>>)
    returns (r: Result<seq<VmDoc>, ImageError>)
    requires Separate(docs)
    modifies docs
    ensures match Build(src, old(View(docs)), cs, manifest)
            case Success(b) => r == Success(b.docs) && View(docs) == b.vms
            case Failure(e) => r == Failure(e)
    ensures r.Success? ==> forall k :: 0 <= k < |r.value| ==> AsRequested(src, old(View(docs)), manifest, r.value[k])
  {
    hide Select, AsRequested;
    ghost var vms := View(docs);
    var infrastructure: seq<VmDoc> := [];
    for i := 0 to |cs|
      invariant BuildFirst(src, vms, cs, manifest, i) == Success(Built(infrastructure, View(docs)))
    {
      var c := cs[i];
      if c.count < 1 {
        continue;
      }
      var doc := GetVirtualMachine(src, docs, c.machine, manifest);
      if doc.Failure? {
        BuildStaysFailed(src, vms, cs, manifest, i + 1, |cs|);
        return Failure(doc.error);
      }
      infrastructure := infrastructure + Repeat(VmDoc(doc.value.name, doc.value.image), Copies(src, c));
    }
    r := Success(infrastructure);
    forall k | 0 <= k < |infrastructure| ensures AsRequested(src, vms, manifest, infrastructure[k]) {
      BuiltAsRequested(src, vms, cs, manifest, k);
    }
  }
}
