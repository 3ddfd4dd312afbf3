/** The machines of a finished AWS plan: as many and on the subnets and groups that every component asks for. */
module AwsMachines {
  import opened Results
  import opened Naming
  import opened AwsPlan
  import opened AwsLaws
  import opened AwsReferences
  import opened AwsFileSystem
  import opened AwsNfs

  // ---------- launch configurations, in order ----------

  function LaunchesIn(docs: seq<Doc>): (r: seq<Doc>)
    ensures forall i :: 0 <= i < |r| ==> r[i].LaunchConfig?
  {
    if docs == [] then []
    else LaunchesIn(docs[..|docs| - 1]) + if docs[|docs| - 1].LaunchConfig? then [docs[|docs| - 1]] else []
  }

  lemma {:induction false} LaunchesAppend(a: seq<Doc>, b: seq<Doc>)
    ensures LaunchesIn(a + b) == LaunchesIn(a) + LaunchesIn(b)
  {
    if b == [] {
      assert a + b == a;
    } else {
      assert (a + b)[..|a + b| - 1] == a + b[..|b| - 1];
      LaunchesAppend(a, b[..|b| - 1]);
    }
  }

  lemma {:induction false} NoLaunchesIn(docs: seq<Doc>)
    requires forall i :: 0 <= i < |docs| ==> !docs[i].LaunchConfig?
    ensures LaunchesIn(docs) == []
  {
    if docs != [] {
      NoLaunchesIn(docs[..|docs| - 1]);
    }
  }

  lemma {:induction false} SameMachines(docs: seq<Doc>, docs': seq<Doc>)
    requires SameButRules(docs, docs')
    ensures LaunchesIn(docs) == LaunchesIn(docs') && AsgsIn(docs) == AsgsIn(docs')
  {
    if docs != [] {
      var n := |docs| - 1;
      assert SameButItsRules(docs[n], docs'[n]);
      SameMachines(docs[..n], docs'[..n]);
    }
  }

  // ---------- what a component gets ----------

  /** A security group of a CIDR has the name. */
  predicate GroupFor(docs: seq<Doc>, name: string, cidr: string) {
    exists x :: 0 <= x < |docs| && docs[x].SecurityGroup? && docs[x].name == name && docs[x].cidr == cidr
  }

  /** The launch configuration of a component names the group of each of its address pools. */
  predicate LaunchFor(m: Model, docs: seq<Doc>, d: Doc, c: Component) {
    && d.LaunchConfig? && d.size == c.vm.size && d.keyName == m.keyName && |d.groupNames| == |c.subnets|
    && forall j :: 0 <= j < |c.subnets| ==> GroupFor(docs, d.groupNames[j], c.subnets[j].addressPool)
  }

  /** The two documents of a component. */
  predicate PairFor(m: Model, docs: seq<Doc>, asg: Doc, launch: Doc, c: Component) {
    && AsgFor(docs, asg, c) && LaunchFor(m, docs, launch, c)
    && asg.name == AsgName(m, c.key) && launch.name == LaunchConfigName(m, c.key) && asg.launchConfig == launch.name
  }

  /** The machine documents are, in order, one pair for each of `cs`. */
  ghost predicate MachinesListed(m: Model, docs: seq<Doc>, cs: seq<Component>) {
    && |AsgsIn(docs)| == |LaunchesIn(docs)| == |cs|
    && forall k :: 0 <= k < |cs| ==> PairFor(m, docs, AsgsIn(docs)[k], LaunchesIn(docs)[k], cs[k])
  }

  lemma StillGroup(docs: seq<Doc>, docs': seq<Doc>, name: string, cidr: string)
    requires Extends(docs, docs') && GroupFor(docs, name, cidr)
    ensures GroupFor(docs', name, cidr)
  {
    var x :| 0 <= x < |docs| && docs[x].SecurityGroup? && docs[x].name == name && docs[x].cidr == cidr;
    ExtendsEach(docs, docs', x);
  }

  lemma StillPair(m: Model, docs: seq<Doc>, docs': seq<Doc>, asg: Doc, launch: Doc, c: Component)
    requires Extends(docs, docs') && PairFor(m, docs, asg, launch, c)
    ensures PairFor(m, docs', asg, launch, c)
  {
    hide AsgFor, AsgName, LaunchConfigName;
    StillAsgFor(docs, docs', asg, c);
    forall j | 0 <= j < |c.subnets| ensures GroupFor(docs', launch.groupNames[j], c.subnets[j].addressPool) {
      StillGroup(docs, docs', launch.groupNames[j], c.subnets[j].addressPool);
    }
  }

  lemma {:induction false} WalkAddsNoLaunch(m: Model, key: string, docs: seq<Doc>, defs: seq<SubnetDef>, n: nat)
    requires n <= |defs|
    ensures var w := WalkSubnets(m, key, docs, defs, n);
            |docs| <= |w.docs| && forall i :: |docs| <= i < |w.docs| ==> !w.docs[i].LaunchConfig?
  {
    hide SubnetName, GroupName, AssociationName, RouteTableName;
    if n != 0 {
      WalkAddsNoLaunch(m, key, docs, defs, n - 1);
    }
  }

  /** The group of every pool of the component, when its launch configuration is made. */
  lemma ComponentGroups(m: Model, n: nat, k: nat)
    requires 0 < n <= |m.components| && m.components[n - 1].count >= 1 && k < |m.components[n - 1].subnets|
    ensures var c := m.components[n - 1];
            var w := WalkSubnets(m, c.key, Components(m, n - 1).docs, c.subnets, |c.subnets|);
            var docs := OfferAll(w.docs, c.subnets, c.vm.rules, |c.subnets|);
            GroupFor(docs, GroupNameAt(docs, c.subnets[k].addressPool), c.subnets[k].addressPool)
  {
    hide WalkSubnets, OfferAll, Components;
    GroupCreated(m, n, k);
  }

  lemma ComponentPair(m: Model, n: nat)
    requires 0 < n <= |m.components| && m.components[n - 1].count >= 1
    ensures var docs, r := Components(m, n - 1).docs, Components(m, n).docs;
            && |r| >= |docs| + 2 && Extends(docs, r)
            && PairFor(m, r, r[|r| - 2], r[|r| - 1], m.components[n - 1])
            && forall i :: |docs| <= i < |r| - 2 ==> !r[i].Asg? && !r[i].LaunchConfig?
  {
    hide WalkSubnets, OfferAll, MountTargets, AsgName, LaunchConfigName, Extends, AsgFor, GroupNameAt;
    var p, c, r := Components(m, n - 1), m.components[n - 1], Components(m, n).docs;
    ComponentAsg(m, p, c);
    var w := WalkSubnets(m, c.key, p.docs, c.subnets, |c.subnets|);
    var docs := OfferAll(w.docs, c.subnets, c.vm.rules, |c.subnets|);
    PairExtends(docs, r);
    forall j | 0 <= j < |c.subnets|
      ensures GroupFor(r, GroupNameAt(docs, c.subnets[j].addressPool), c.subnets[j].addressPool)
    {
      ComponentGroups(m, n, j);
      StillGroup(docs, r, GroupNameAt(docs, c.subnets[j].addressPool), c.subnets[j].addressPool);
    }
    WalkAddsNoLaunch(m, c.key, p.docs, c.subnets, |c.subnets|);
    OfferKeepsOthers(w.docs, c.subnets, c.vm.rules, |c.subnets|);
    ExtendsLength(p.docs, r);
  }

  lemma PairListed(docs: seq<Doc>, r: seq<Doc>)
    requires |r| >= |docs| + 2 && Extends(docs, r) && r[|r| - 2].Asg? && r[|r| - 1].LaunchConfig?
    requires forall i :: |docs| <= i < |r| - 2 ==> !r[i].Asg? && !r[i].LaunchConfig?
    ensures AsgsIn(r) == AsgsIn(docs) + [r[|r| - 2]] && LaunchesIn(r) == LaunchesIn(docs) + [r[|r| - 1]]
  {
    hide AsgsIn, LaunchesIn;
    var n := |docs|;
    var rest := r[n..];
    assert r == r[..n] + rest;
    AsgsAppend(r[..n], rest);
    LaunchesAppend(r[..n], rest);
    SameMachines(docs, r[..n]);
    PairLast(rest);
  }

  lemma PairLast(rest: seq<Doc>)
    requires |rest| >= 2 && rest[|rest| - 2].Asg? && rest[|rest| - 1].LaunchConfig?
    requires forall i :: 0 <= i < |rest| - 2 ==> !rest[i].Asg? && !rest[i].LaunchConfig?
    ensures AsgsIn(rest) == [rest[|rest| - 2]] && LaunchesIn(rest) == [rest[|rest| - 1]]
  {
    hide AsgsIn, LaunchesIn;
    var mid, tail := rest[..|rest| - 2], [rest[|rest| - 2], rest[|rest| - 1]];
    assert rest == mid + tail;
    AsgsAppend(mid, tail);
    LaunchesAppend(mid, tail);
    NoAsgsIn(mid);
    NoLaunchesIn(mid);
    TailListed(rest[|rest| - 2], rest[|rest| - 1]);
  }

  lemma TailListed(asg: Doc, launch: Doc)
    requires asg.Asg? && launch.LaunchConfig?
    ensures AsgsIn([asg, launch]) == [asg] && LaunchesIn([asg, launch]) == [launch]
  {
    assert [asg, launch][..1] == [asg] && [asg][..0] == [];
    assert AsgsIn([]) == [] && AsgsIn([asg]) == [asg] && LaunchesIn([]) == [] && LaunchesIn([asg]) == [];
  }

  /** After any number of components the machine documents are those of the enabled ones, in order. */
  lemma {:induction false} PlanMachines(m: Model, n: nat)
    requires n <= |m.components|
    ensures MachinesListed(m, Components(m, n).docs, EnabledOf(m, n))
  {
    hide AddComponent, PairFor, Extends, AsgsIn, LaunchesIn;
    if n == 0 {
      NoAsgsIn(Header(m));
      NoLaunchesIn(Header(m));
    } else {
      PlanMachines(m, n - 1);
      var p, c, cs := Components(m, n - 1), m.components[n - 1], EnabledOf(m, n - 1);
      var r := Components(m, n).docs;
      if c.count >= 1 {
        ComponentPair(m, n);
        PairKinds(m, r, r[|r| - 2], r[|r| - 1], c);
        PairListed(p.docs, r);
        forall k | 0 <= k < |cs| ensures PairFor(m, r, AsgsIn(r)[k], LaunchesIn(r)[k], cs[k]) {
          StillPair(m, p.docs, r, AsgsIn(p.docs)[k], LaunchesIn(p.docs)[k], cs[k]);
        }
      } else {
        Disabled(m, p, c);
        assert EnabledOf(m, n) == cs;
      }
    }
  }

  lemma PairKinds(m: Model, docs: seq<Doc>, asg: Doc, launch: Doc, c: Component)
    requires PairFor(m, docs, asg, launch, c)
    ensures asg.Asg? && launch.LaunchConfig?
  {
  }

  // ---------- the finished plan ----------

  /** The file system document, which is the last one if there is any. */
  function FileSystemOf(docs: seq<Doc>): (r: Option<Doc>)
    ensures r.Some? ==> r.value.Efs? && r.value in docs
  {
    if docs != [] && docs[|docs| - 1].Efs? then Some(docs[|docs| - 1]) else None
  }

  /** The finished plan has the documents made for the components, and behind them the file system's, if any. */
  lemma BuiltExtends(m: Model)
    requires Build(m).Success?
    ensures var p, r := Components(m, |m.components|), Build(m).value;
            && Extends(p.docs, r)
            && r[|p.docs|..] == if Mounts(m, |m.components|)
                                then [Efs(ResourceName(m.prefix, m.cluster, "efs", None), p.targets)] else []
  {
    hide Components, NfsRules, Mounts, Raises, ResourceName;
    var n := |m.components|;
    var p, r := Components(m, n), Build(m).value;
    MountedExactly(m, n);
    PlanKeepsHeader(m, n);
    assert |p.docs| >= 6 && p.docs[2].VpcGroup?;
    assert forall i :: 0 <= i < |p.docs| ==> SameButItsRules(p.docs[i], r[..|p.docs|][i]);
  }

  /**
   * In the finished plan every enabled component has, in order, a document of as many machines as it asks for, on a
   * subnet of each of its address pools in that subnet's zone, and a launch configuration of its size that names the
   * group of each pool; and every name a document refers to is in the plan.
   */
  lemma BuiltMachines(m: Model)
    requires Build(m).Success?
    ensures MachinesListed(m, Build(m).value, EnabledOf(m, |m.components|))
    ensures Closed(Build(m).value)
  {
    hide Components, Build, PairFor, AsgsIn, LaunchesIn, EnabledOf, Extends, Closed, Resolves;
    var n := |m.components|;
    var p, r, cs := Components(m, n), Build(m).value, EnabledOf(m, n);
    PlanMachines(m, n);
    BuiltExtends(m);
    SplitListed(p.docs, r);
    forall k | 0 <= k < |cs| ensures PairFor(m, r, AsgsIn(r)[k], LaunchesIn(r)[k], cs[k]) {
      StillPair(m, p.docs, r, AsgsIn(p.docs)[k], LaunchesIn(p.docs)[k], cs[k]);
    }
    PlanClosed(m, n);
    PlanTargetsGood(m, n);
    FileSystemResolves(m, p, r);
    StaysClosed(p.docs, r);
  }

  /** The finished plan starts with the header, and the machines use its key pair. */
  lemma BuiltHeader(m: Model, k: nat)
    requires Build(m).Success? && k < |LaunchesIn(Build(m).value)|
    ensures Extends(Header(m), Build(m).value)
    ensures var r := Build(m).value;
            && r[0] == PublicKey(m.userName, m.keyName) && LaunchesIn(r)[k].keyName == r[0].keyName
            && r[1].Vpc? && r[2].VpcGroup? && r[3].ResourceGroup?
            && r[4].InternetGateway? && r[5].RouteTable? && r[5].gateway == r[4].name
  {
    hide Components, Build, AsgFor, AsgsIn, LaunchesIn, EnabledOf, Closed, ResourceName, Extends;
    var n := |m.components|;
    var r, cs := Build(m).value, EnabledOf(m, n);
    BuiltMachines(m);
    assert PairFor(m, r, AsgsIn(r)[k], LaunchesIn(r)[k], cs[k]);
    BuiltExtends(m);
    PlanExtendsHeader(m, n);
    ExtendsTransitive(Header(m), Components(m, n).docs, r);
    forall i | 0 <= i < 6 ensures i < |r| && SameButItsRules(Header(m)[i], r[i]) {
      ExtendsLength(Header(m), r);
      ExtendsEach(Header(m), r, i);
    }
  }

  lemma {:induction false} PlanExtendsHeader(m: Model, n: nat)
    requires n <= |m.components|
    ensures Extends(Header(m), Components(m, n).docs)
  {
    hide AddComponent, Header, Extends;
    if n == 0 {
      PairExtends(Header(m), Header(m));
    } else {
      PlanExtendsHeader(m, n - 1);
      var p, c := Components(m, n - 1), m.components[n - 1];
      if c.count >= 1 {
        ComponentAsg(m, p, c);
        ExtendsTransitive(Header(m), p.docs, Components(m, n).docs);
      } else {
        Disabled(m, p, c);
      }
    }
  }

  /** The subnets, groups and associations of the finished plan are one of each per first use of an address pool. */
  lemma BuiltShaped(m: Model)
    requires Build(m).Success?
    ensures Shaped(m, Build(m).value, Creations(m, |m.components|))
  {
    hide Components, Build, Creations, SubnetsIn, GroupsIn, AssociationsIn, ResourceName, Shaped;
    var n := |m.components|;
    var p, r := Components(m, n), Build(m).value;
    PlanShaped(m, n);
    BuiltExtends(m);
    var head, tail := r[..|p.docs|], r[|p.docs|..];
    assert r == head + tail;
    SameButRulesIn(p.docs, head);
    InAppend(head, tail);
    NoneListed(tail);
    SameShape(m, p.docs, r, Creations(m, n));
  }

  /** The documents are those of a plan for the enabled components, and every name they refer to is among them. */
  ghost predicate AsPlanned(m: Model, docs: seq<Doc>) {
    && MachinesListed(m, docs, EnabledOf(m, |m.components|))
    && Shaped(m, docs, Creations(m, |m.components|))
    && Closed(docs)
  }

  lemma BuiltAsPlanned(m: Model)
    requires Build(m).Success?
    ensures AsPlanned(m, Build(m).value)
  {
    hide Build, MachinesListed, Shaped, Closed, EnabledOf, Creations;
    BuiltMachines(m);
    BuiltShaped(m);
  }

  lemma SplitListed(docs: seq<Doc>, r: seq<Doc>)
    requires Extends(docs, r) && forall i :: |docs| <= i < |r| ==> r[i].Efs?
    ensures AsgsIn(r) == AsgsIn(docs) && LaunchesIn(r) == LaunchesIn(docs)
  {
    hide AsgsIn, LaunchesIn;
    var n := |docs|;
    assert r == r[..n] + r[n..];
    AsgsAppend(r[..n], r[n..]);
    LaunchesAppend(r[..n], r[n..]);
    NoAsgsIn(r[n..]);
    NoLaunchesIn(r[n..]);
    SameMachines(docs, r[..n]);
  }

  lemma FileSystemResolves(m: Model, p: Plan, r: seq<Doc>)
    requires Extends(p.docs, r) && GoodTargets(p.docs, p.targets)
    requires forall i :: |p.docs| <= i < |r| ==> r[i].Efs? && r[i].targets == p.targets
    ensures forall i :: |p.docs| <= i < |r| ==> Resolves(r, r[i])
    ensures GoodTargets(r, p.targets)
  {
    hide Extends;
    forall i | 0 <= i < |p.targets|
      ensures HasSubnet(r, p.targets[i].subnetName)
      ensures ZonedSubnet(r, p.targets[i].subnetName, p.targets[i].zone)
    {
      StillZoned(p.docs, r, p.targets[i].subnetName, p.targets[i].zone);
    }
  }

  /** Document names of two enabled components are equal exactly when their keys are, up to case and dashes. */
  lemma MachineNamesDistinct(m: Model, k: nat, l: nat)
    requires Build(m).Success? && k < l < |EnabledOf(m, |m.components|)|
    ensures var r, cs := Build(m).value, EnabledOf(m, |m.components|);
            && |AsgsIn(r)| == |LaunchesIn(r)| == |cs|
            && (AsgsIn(r)[k].name == AsgsIn(r)[l].name <==> Norm(cs[k].key) == Norm(cs[l].key))
            && (LaunchesIn(r)[k].name == LaunchesIn(r)[l].name <==> Norm(cs[k].key) == Norm(cs[l].key))
  {
    hide Build, Norm, ResourceName, AsgFor, LaunchFor;
    var r, cs := Build(m).value, EnabledOf(m, |m.components|);
    BuiltMachines(m);
    assert PairFor(m, r, AsgsIn(r)[k], LaunchesIn(r)[k], cs[k]) && PairFor(m, r, AsgsIn(r)[l], LaunchesIn(r)[l], cs[l]);
    IndexedNamesInjective(m.prefix, m.cluster, "asg", cs[k].key, 0, cs[l].key, 0);
    ComponentNamesInjective(m.prefix, m.cluster, "launch-config", cs[k].key, cs[l].key);
  }

  // ---------- the file system's mount targets ----------

  /** A component's machines mount the file system in the zone. */
  predicate MountsIn(docs: seq<Doc>, zone: string) {
    exists i :: 0 <= i < |docs| && docs[i].Asg? && docs[i].mountEfs && zone in docs[i].zones
  }

  predicate TargetIn(targets: seq<Target>, zone: string) {
    exists i :: 0 <= i < |targets| && targets[i].zone == zone
  }

  lemma {:induction false} TargetsCover(targets: seq<Target>, subnets: seq<Doc>, n: nat, zone: string)
    requires n <= |subnets| && forall i :: 0 <= i < |subnets| ==> subnets[i].Subnet?
    ensures TargetIn(MountTargets(targets, subnets, n), zone)
        <==> TargetIn(targets, zone) || exists i :: 0 <= i < n && subnets[i].zone == zone
  {
    if n != 0 {
      TargetsCover(targets, subnets, n - 1, zone);
      var done, r, s := MountTargets(targets, subnets, n - 1), MountTargets(targets, subnets, n), subnets[n - 1];
      if r != done {
        assert r[|done|].zone == s.zone && r[..|done|] == done;
        if i :| 0 <= i < |done| && done[i].zone == zone {
          assert r[i].zone == zone;
        }
      }
    }
  }

  /** There is a mount target for exactly the zones in which machines mount the file system. */
  lemma {:induction false} TargetsExactly(m: Model, n: nat, zone: string)
    requires n <= |m.components|
    ensures TargetIn(Components(m, n).targets, zone) <==> MountsIn(Components(m, n).docs, zone)
  {
    hide AddComponent, Extends;
    if n == 0 {
      assert forall d :: d in Header(m) ==> !d.Asg?;
    } else {
      TargetsExactly(m, n - 1, zone);
      var p, c := Components(m, n - 1), m.components[n - 1];
      if c.count >= 1 {
        ComponentAsg(m, p, c);
        TargetsStep(m, p, c, zone);
        MountsFurther(p.docs, Components(m, n).docs, zone);
      } else {
        Disabled(m, p, c);
      }
    }
  }

  lemma MountsFurther(docs: seq<Doc>, r: seq<Doc>, zone: string)
    requires |r| >= |docs| + 2 && Extends(docs, r) && r[|r| - 2].Asg?
    requires forall i :: |docs| <= i < |r| && i != |r| - 2 ==> !r[i].Asg?
    ensures MountsIn(r, zone)
        <==> MountsIn(docs, zone) || (r[|r| - 2].mountEfs && zone in r[|r| - 2].zones)
  {
    hide Extends;
    forall i | 0 <= i < |docs| ensures SameButItsRules(docs[i], r[i]) {
      ExtendsEach(docs, r, i);
    }
  }

  lemma TargetsStep(m: Model, p: Plan, c: Component, zone: string)
    requires c.count >= 1
    ensures var r := AddComponent(m, p, c);
            && |r.docs| >= 2 && r.docs[|r.docs| - 2].Asg?
            && (TargetIn(r.targets, zone) <==>
                  TargetIn(p.targets, zone) || (r.docs[|r.docs| - 2].mountEfs && zone in r.docs[|r.docs| - 2].zones))
  {
    hide WalkSubnets, OfferAll, MountTargets, AsgName, LaunchConfigName, TargetIn, GroupNames;
    var w := WalkSubnets(m, c.key, p.docs, c.subnets, |c.subnets|);
    TargetsCover(p.targets, w.subnets, |w.subnets|, zone);
    var zones := ZonesOf(w.subnets);
    assert (exists i :: 0 <= i < |w.subnets| && w.subnets[i].zone == zone) <==> zone in zones by {
      if i :| 0 <= i < |w.subnets| && w.subnets[i].zone == zone {
        assert zones[i] == zone;
      }
    }
  }

  /**
   * The finished plan has a file system document exactly when some machines mount it; it has one mount target for
   * each zone in which they do and for no other, on a subnet of the plan in that zone.
   */
  lemma BuiltFileSystem(m: Model, zone: string)
    requires Build(m).Success?
    ensures var r := Build(m).value;
            && (FileSystemOf(r).Some? <==> exists i :: 0 <= i < |r| && r[i].Efs?)
            && (FileSystemOf(r).Some? <==> Mounts(m, |m.components|))
            && (FileSystemOf(r).Some? ==>
                  && GoodTargets(r, FileSystemOf(r).value.targets)
                  && (TargetIn(FileSystemOf(r).value.targets, zone) <==> MountsIn(r, zone)))
  {
    hide Components, Build, Extends, Mounts, GoodTargets, TargetIn;
    var n := |m.components|;
    var p, r := Components(m, n), Build(m).value;
    BuiltExtends(m);
    PlanTargetsGood(m, n);
    TargetsExactly(m, n, zone);
    NoFileSystemYet(m, n);
    ExtendsLength(p.docs, r);
    forall i | 0 <= i < |p.docs| ensures SameButItsRules(p.docs[i], r[i]) {
      ExtendsEach(p.docs, r, i);
    }
    assert |r| > |p.docs| ==> r[|p.docs|] == r[|p.docs|..][0];
    if |r| > |p.docs| {
      FileSystemResolves(m, p, r);
    }
  }

  predicate NoFileSystem(docs: seq<Doc>) {
    forall i :: 0 <= i < |docs| ==> !docs[i].Efs?
  }

  lemma {:induction false} NoFileSystemYet(m: Model, n: nat)
    requires n <= |m.components|
    ensures NoFileSystem(Components(m, n).docs)
  {
    hide AddComponent;
    if n != 0 {
      NoFileSystemYet(m, n - 1);
      AddsNoFileSystem(m, Components(m, n - 1), m.components[n - 1]);
    }
  }

  lemma AddsNoFileSystem(m: Model, p: Plan, c: Component)
    requires NoFileSystem(p.docs)
    ensures NoFileSystem(AddComponent(m, p, c).docs)
  {
    hide WalkSubnets, OfferAll, MountTargets, GroupNames, AsgName, LaunchConfigName;
    if c.count >= 1 {
      var w := WalkSubnets(m, c.key, p.docs, c.subnets, |c.subnets|);
      WalkAddsNoFileSystem(m, c.key, p.docs, c.subnets, |c.subnets|);
      OfferKeepsOthers(w.docs, c.subnets, c.vm.rules, |c.subnets|);
      TailAdded(m, p, c);
    }
  }

  lemma {:induction false} WalkAddsNoFileSystem(m: Model, key: string, docs: seq<Doc>, defs: seq<SubnetDef>, n: nat)
    requires n <= |defs| && NoFileSystem(docs)
    ensures NoFileSystem(WalkSubnets(m, key, docs, defs, n).docs)
  {
    if n != 0 {
      WalkAddsNoFileSystem(m, key, docs, defs, n - 1);
      StepAddsNoFileSystem(m, key, WalkSubnets(m, key, docs, defs, n - 1), defs[n - 1]);
    }
  }

  lemma StepAddsNoFileSystem(m: Model, key: string, w: Walk, def: SubnetDef)
    requires NoFileSystem(w.docs)
    ensures NoFileSystem(WalkSubnet(m, key, w, def).docs)
  {
  }
}
