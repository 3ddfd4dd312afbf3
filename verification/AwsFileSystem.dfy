/** Exactly when the file system step of the AWS run fails. */
module AwsFileSystem {
  import opened Results
  import opened Naming
  import opened AwsPlan
  import opened AwsLaws
  import opened AwsReferences
  import opened AwsPorts

  // ---------- the groups of machines and their subnets ----------

  /** The document of a component's machines: as many as it asks for, on its subnets, to the file system as it is. */
  predicate AsgFor(docs: seq<Doc>, d: Doc, c: Component) {
    && d.Asg? && c.count >= 1 && d.count == c.count
    && d.mountEfs == c.vm.mountEfs && d.authorizedToEfs == c.vm.authorizedToEfs
    && |d.subnetNames| == |d.zones| == |c.subnets|
    && forall j :: 0 <= j < |c.subnets| ==> NamedFor(docs, d.subnetNames[j], d.zones[j], c.subnets[j].addressPool)
  }

  predicate HasAsgFor(docs: seq<Doc>, c: Component) {
    exists i :: 0 <= i < |docs| && AsgFor(docs, docs[i], c)
  }

  /** Machine documents and enabled components correspond. */
  ghost predicate AsgsMatch(m: Model, docs: seq<Doc>, n: nat)
    requires n <= |m.components|
  {
    && (forall i :: 0 <= i < |docs| && docs[i].Asg? ==>
        exists c :: 0 <= c < n && AsgFor(docs, docs[i], m.components[c]))
    && (forall c :: 0 <= c < n && m.components[c].count >= 1 ==> HasAsgFor(docs, m.components[c]))
  }

  lemma StillAsgFor(docs: seq<Doc>, docs': seq<Doc>, d: Doc, c: Component)
    requires Extends(docs, docs') && AsgFor(docs, d, c)
    ensures AsgFor(docs', d, c)
  {
    forall j | 0 <= j < |c.subnets| ensures NamedFor(docs', d.subnetNames[j], d.zones[j], c.subnets[j].addressPool) {
      StillNamed(docs, docs', d.subnetNames[j], d.zones[j], c.subnets[j].addressPool);
    }
  }

  /** The documents after a component: extended, with the machine document of the component last but one. */
  lemma ComponentAsg(m: Model, p: Plan, c: Component)
    requires c.count >= 1
    ensures var r := AddComponent(m, p, c).docs;
            && |r| >= |p.docs| + 2 && Extends(p.docs, r) && AsgFor(r, r[|r| - 2], c)
            && forall i :: |p.docs| <= i < |r| && i != |r| - 2 ==> !r[i].Asg?
  {
    hide WalkSubnets, OfferAll, MountTargets, GroupNames, AsgName, LaunchConfigName, Extends;
    var k := |c.subnets|;
    var w, r := WalkSubnets(m, c.key, p.docs, c.subnets, k), AddComponent(m, p, c).docs;
    var docs := OfferAll(w.docs, c.subnets, c.vm.rules, k);
    WalkKeepsPrefix(m, c.key, p.docs, c.subnets, k);
    PairExtends(p.docs, w.docs);
    OfferExtends(w.docs, c.subnets, c.vm.rules);
    PairExtends(docs, r);
    ExtendsTransitive(w.docs, docs, r);
    ExtendsTransitive(p.docs, w.docs, r);
    WalkListed(m, c.key, p.docs, c.subnets, k);
    forall j | 0 <= j < k ensures NamedFor(r, NamesOf(w.subnets)[j], ZonesOf(w.subnets)[j], c.subnets[j].addressPool) {
      StillNamed(w.docs, r, w.subnets[j].name, w.subnets[j].zone, c.subnets[j].addressPool);
    }
    WalkAddsNoAsg(m, c.key, p.docs, c.subnets, k);
    OfferKeepsOthers(w.docs, c.subnets, c.vm.rules, k);
    ExtendsLength(p.docs, w.docs);
  }

  lemma ExtendsLength(docs: seq<Doc>, docs': seq<Doc>)
    requires Extends(docs, docs')
    ensures |docs| <= |docs'|
  {
  }

  lemma {:induction false} WalkAddsNoAsg(m: Model, key: string, docs: seq<Doc>, defs: seq<SubnetDef>, n: nat)
    requires n <= |defs|
    ensures var w := WalkSubnets(m, key, docs, defs, n);
            |docs| <= |w.docs| && forall i :: |docs| <= i < |w.docs| ==> !w.docs[i].Asg?
  {
    hide SubnetName, GroupName, AssociationName, RouteTableName;
    if n != 0 {
      WalkAddsNoAsg(m, key, docs, defs, n - 1);
    }
  }

  lemma {:induction false} AsgsOfPlan(m: Model, n: nat)
    requires n <= |m.components|
    ensures AsgsMatch(m, Components(m, n).docs, n)
  {
    hide AsgsMatch, AddComponent, AsgFor, Extends;
    if n == 0 {
      NoAsgs(m);
    } else {
      AsgsOfPlan(m, n - 1);
      var p, c := Components(m, n - 1), m.components[n - 1];
      if c.count >= 1 {
        ComponentAsg(m, p, c);
        AsgsMatchFurther(m, p.docs, Components(m, n).docs, n);
      } else {
        Disabled(m, p, c);
        AsgsMatchAlike(m, p.docs, n);
      }
    }
  }

  lemma NoAsgs(m: Model)
    ensures AsgsMatch(m, Header(m), 0)
  {
  }

  lemma Disabled(m: Model, p: Plan, c: Component)
    requires c.count < 1
    ensures AddComponent(m, p, c) == p
  {
  }

  lemma AsgsMatchAlike(m: Model, docs: seq<Doc>, n: nat)
    requires 0 < n <= |m.components| && AsgsMatch(m, docs, n - 1) && m.components[n - 1].count < 1
    ensures AsgsMatch(m, docs, n)
  {
    hide AsgFor;
  }

  lemma AsgsMatchFurther(m: Model, docs: seq<Doc>, r: seq<Doc>, n: nat)
    requires 0 < n <= |m.components| && AsgsMatch(m, docs, n - 1) && m.components[n - 1].count >= 1
    requires |r| >= |docs| + 2 && Extends(docs, r) && AsgFor(r, r[|r| - 2], m.components[n - 1])
    requires forall i :: |docs| <= i < |r| && i != |r| - 2 ==> !r[i].Asg?
    ensures AsgsMatch(m, r, n)
  {
    hide AsgFor, Extends;
    forall i | 0 <= i < |r| && r[i].Asg? ensures exists c :: 0 <= c < n && AsgFor(r, r[i], m.components[c]) {
      if i < |docs| {
        ExtendsEach(docs, r, i);
        var c :| 0 <= c < n - 1 && AsgFor(docs, docs[i], m.components[c]);
        StillAsgFor(docs, r, docs[i], m.components[c]);
      }
    }
    forall c | 0 <= c < n && m.components[c].count >= 1 ensures HasAsgFor(r, m.components[c]) {
      if c < n - 1 {
        var i :| 0 <= i < |docs| && AsgFor(docs, docs[i], m.components[c]);
        AsgForIsAsg(docs, docs[i], m.components[c]);
        ExtendsEach(docs, r, i);
        StillAsgFor(docs, r, docs[i], m.components[c]);
      }
    }
  }

  lemma AsgForIsAsg(docs: seq<Doc>, d: Doc, c: Component)
    requires AsgFor(docs, d, c)
    ensures d.Asg?
  {
  }

  // ---------- looking up a subnet by name ----------

  /** Another creation has component and index in common, up to case and dashes, with one for the CIDR. */
  predicate Ambiguous(cs: seq<Creation>, cidr: string) {
    exists i, j :: 0 <= i < |cs| && 0 <= j < |cs| && i != j && cs[i].cidr == cidr && SameOrigin(cs[i], cs[j])
  }

  predicate SameOrigin(c: Creation, d: Creation) {
    Norm(c.key) == Norm(d.key) && c.index == d.index
  }

  lemma {:induction false} NamedTwice(subnets: seq<Doc>, i: nat, j: nat)
    requires forall x :: 0 <= x < |subnets| ==> subnets[x].Subnet?
    requires i < j < |subnets| && subnets[i].name == subnets[j].name
    ensures |SubnetsNamed(subnets, subnets[i].name)| >= 2
  {
    if i != 0 {
      NamedTwice(subnets[1..], i - 1, j - 1);
    } else {
      NamedSome(subnets[1..], j - 1);
    }
  }

  lemma {:induction false} NamedSome(subnets: seq<Doc>, j: nat)
    requires j < |subnets| && subnets[j].Subnet?
    ensures |SubnetsNamed(subnets, subnets[j].name)| >= 1
  {
    if j != 0 {
      NamedSome(subnets[1..], j - 1);
    }
  }

  /** A lookup by name finds one subnet exactly unless the subnet's creation is ambiguous. */
  lemma LookupExactly(m: Model, docs: seq<Doc>, cs: seq<Creation>, name: string, zone: string, cidr: string)
    requires Shaped(m, docs, cs) && CidrsDistinct(cs) && NamedFor(docs, name, zone, cidr)
    ensures SingleSubnet(docs, name).Success? <==> !Ambiguous(cs, cidr)
  {
    hide SubnetsIn, GroupsIn, AssociationsIn, SubnetName, GroupName, AssociationName, RouteTableName, SubnetsNamed;
    var x :| 0 <= x < |docs| && docs[x] == Subnet(name, cidr, zone);
    var k := SubnetListed(docs, x);
    var s := SubnetsIn(docs);
    assert s[k] == SubnetOf(m, cs[k]);
    NamedAmongSubnets(docs, name);
    forall i | 0 <= i < |cs| ensures s[i].name == s[k].name <==> SameOrigin(cs[i], cs[k]) {
      assert s[i] == SubnetOf(m, cs[i]);
      IndexedNamesInjective(m.prefix, m.cluster, "subnet", cs[i].key, cs[i].index, cs[k].key, cs[k].index);
      NamesAsIndexed(m, cs[i], cs[k]);
    }
    if Ambiguous(cs, cidr) {
      var i, j :| 0 <= i < |cs| && 0 <= j < |cs| && i != j && cs[i].cidr == cidr && SameOrigin(cs[i], cs[j]);
      assert i == k;
      if i < j {
        NamedTwice(s, i, j);
      } else {
        NamedTwice(s, j, i);
      }
    } else {
      NamedOnce(s, k);
    }
  }

  lemma NamesAsIndexed(m: Model, c: Creation, d: Creation)
    ensures SubnetName(m, c.key, c.index) == IndexedName(m.prefix, m.cluster, "subnet", c.key, c.index)
    ensures SubnetName(m, d.key, d.index) == IndexedName(m.prefix, m.cluster, "subnet", d.key, d.index)
  {
    hide IndexedName;
  }

  lemma {:induction false} RulesForExactly(rules: seq<Rule>, docs: seq<Doc>, names: seq<string>, n: nat)
    requires n <= |names|
    ensures NfsRulesFor(rules, docs, names, n).Success?
        <==> forall j :: 0 <= j < n ==> SingleSubnet(docs, names[j]).Success?
  {
    hide SingleSubnet, NfsRule;
    if n != 0 {
      RulesForExactly(rules, docs, names, n - 1);
    }
  }

  /** The lookups of one machine document all find one subnet. */
  predicate LooksUp(docs: seq<Doc>, d: Doc) {
    d.Asg? && d.authorizedToEfs ==> forall j :: 0 <= j < |d.subnetNames| ==>
        SingleSubnet(docs, d.subnetNames[j]).Success?
  }

  lemma {:induction false} RulesExactly(rules: seq<Rule>, docs: seq<Doc>, n: nat)
    requires n <= |docs|
    ensures NfsRules(rules, docs, n).Success? <==> forall i :: 0 <= i < n ==> LooksUp(docs, docs[i])
  {
    hide NfsRulesFor, SingleSubnet;
    if n != 0 {
      RulesExactly(rules, docs, n - 1);
      var d := docs[n - 1];
      if NfsRules(rules, docs, n - 1).Success? && d.Asg? {
        RulesForExactly(NfsRules(rules, docs, n - 1).value, docs, d.subnetNames, |d.subnetNames|);
      }
    }
  }

  // ---------- when there is a file system ----------

  /** An enabled component mounts the file system on some subnet. */
  predicate Mounts(m: Model, n: nat)
    requires n <= |m.components|
  {
    exists c :: 0 <= c < n && m.components[c].count >= 1 && m.components[c].vm.mountEfs && m.components[c].subnets != []
  }

  lemma {:induction false} TargetsGrow(targets: seq<Target>, subnets: seq<Doc>, n: nat)
    requires n <= |subnets| && forall i :: 0 <= i < |subnets| ==> subnets[i].Subnet?
    ensures MountTargets(targets, subnets, n) != [] <==> targets != [] || n != 0
  {
    if n != 0 {
      TargetsGrow(targets, subnets, n - 1);
    }
  }

  lemma {:induction false} MountedExactly(m: Model, n: nat)
    requires n <= |m.components|
    ensures Components(m, n).targets != [] <==> Mounts(m, n)
  {
    hide WalkSubnets, OfferAll, MountTargets;
    if n != 0 {
      MountedExactly(m, n - 1);
      var p, c := Components(m, n - 1), m.components[n - 1];
      var w := WalkSubnets(m, c.key, p.docs, c.subnets, |c.subnets|);
      TargetsGrow(p.targets, w.subnets, |w.subnets|);
      assert Mounts(m, n) <==> Mounts(m, n - 1) || (c.count >= 1 && c.vm.mountEfs && c.subnets != []);
    }
  }

  /** An enabled component that is allowed to the file system uses a subnet whose name another subnet has. */
  predicate Stumbles(m: Model, c: Component) {
    && c.count >= 1 && c.vm.authorizedToEfs
    && exists j :: 0 <= j < |c.subnets| && Ambiguous(Creations(m, |m.components|), c.subnets[j].addressPool)
  }

  lemma LooksUpExactly(m: Model, docs: seq<Doc>, d: Doc, c: Component)
    requires Shaped(m, docs, Creations(m, |m.components|)) && AsgFor(docs, d, c)
    ensures LooksUp(docs, d) <==> !Stumbles(m, c)
  {
    hide Shaped, SingleSubnet, Ambiguous, Creations, NamedFor;
    CreationsDistinct(m, |m.components|);
    forall j | 0 <= j < |c.subnets|
      ensures SingleSubnet(docs, d.subnetNames[j]).Success?
          <==> !Ambiguous(Creations(m, |m.components|), c.subnets[j].addressPool)
    {
      LookupExactly(m, docs, Creations(m, |m.components|), d.subnetNames[j], d.zones[j],
                    c.subnets[j].addressPool);
    }
  }

  /**
   * The run fails exactly when two rules for a CIDR whose ports are not both text are compared, or when some
   * component mounts the file system and some component that is allowed to it uses a subnet that another component,
   * of the same key up to case and dashes, made under the same index.
   */
  lemma BuildFailsExactly(m: Model)
    ensures Build(m).Failure? <==>
              || PortsMeet(m)
              || (Mounts(m, |m.components|) && exists c :: 0 <= c < |m.components| && Stumbles(m, m.components[c]))
  {
    hide Components, Raises, PortsMeet, NfsRules, Shaped, AsgFor, LooksUp, Stumbles, Mounts, AsgsMatch, Creations;
    var n := |m.components|;
    var p := Components(m, n);
    RaisesExactly(m);
    MountedExactly(m, n);
    PlanKeepsHeader(m, n);
    if p.targets != [] {
      var efs := Efs(ResourceName(m.prefix, m.cluster, "efs", None), p.targets);
      var docs := p.docs + [efs];
      PlanWithEfs(m, efs);
      RulesExactly(docs[2].rules, docs, |docs|);
      FileSystemExactly(m, docs);
    }
  }

  lemma PlanWithEfs(m: Model, efs: Doc)
    requires efs.Efs?
    ensures var docs := Components(m, |m.components|).docs + [efs];
            Shaped(m, docs, Creations(m, |m.components|)) && AsgsMatch(m, docs, |m.components|)
  {
    hide SubnetsIn, GroupsIn, AssociationsIn, Components, Creations, AsgFor, SubnetOf, AssociationOf, GroupName,
         Extends;
    var p := Components(m, |m.components|);
    var docs := p.docs + [efs];
    PlanShaped(m, |m.components|);
    InAppend(p.docs, [efs]);
    OneListed(efs);
    assert SubnetsIn(p.docs) + [] == SubnetsIn(p.docs) && GroupsIn(p.docs) + [] == GroupsIn(p.docs);
    assert AssociationsIn(p.docs) + [] == AssociationsIn(p.docs);
    AsgsOfPlan(m, |m.components|);
    PairExtends(p.docs, docs);
    forall i | 0 <= i < |docs| && docs[i].Asg?
      ensures exists c :: 0 <= c < |m.components| && AsgFor(docs, docs[i], m.components[c])
    {
      var c :| 0 <= c < |m.components| && AsgFor(p.docs, p.docs[i], m.components[c]);
      StillAsgFor(p.docs, docs, docs[i], m.components[c]);
    }
    forall c | 0 <= c < |m.components| && m.components[c].count >= 1 ensures HasAsgFor(docs, m.components[c]) {
      var i :| 0 <= i < |p.docs| && AsgFor(p.docs, p.docs[i], m.components[c]);
      StillAsgFor(p.docs, docs, p.docs[i], m.components[c]);
      assert docs[i] == p.docs[i];
    }
  }

  lemma FileSystemExactly(m: Model, docs: seq<Doc>)
    requires Shaped(m, docs, Creations(m, |m.components|)) && AsgsMatch(m, docs, |m.components|)
    ensures (forall i :: 0 <= i < |docs| ==> LooksUp(docs, docs[i]))
       <==> forall c :: 0 <= c < |m.components| ==> !Stumbles(m, m.components[c])
  {
    hide Shaped, AsgFor, Creations;
    if forall i :: 0 <= i < |docs| ==> LooksUp(docs, docs[i]) {
      forall c | 0 <= c < |m.components| ensures !Stumbles(m, m.components[c]) {
        if m.components[c].count >= 1 {
          assert HasAsgFor(docs, m.components[c]);
          var i :| 0 <= i < |docs| && AsgFor(docs, docs[i], m.components[c]);
          LooksUpExactly(m, docs, docs[i], m.components[c]);
        }
      }
    }
    if forall c :: 0 <= c < |m.components| ==> !Stumbles(m, m.components[c]) {
      forall i | 0 <= i < |docs| ensures LooksUp(docs, docs[i]) {
        if docs[i].Asg? {
          var c :| 0 <= c < |m.components| && AsgFor(docs, docs[i], m.components[c]);
          LooksUpExactly(m, docs, docs[i], m.components[c]);
        }
      }
    }
  }
}
