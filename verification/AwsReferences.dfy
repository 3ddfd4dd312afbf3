/** Every name a document of the AWS plan refers to is the name of a document of the plan. */
module AwsReferences {
  import opened Results
  import opened Naming
  import opened AwsPlan
  import opened AwsLaws
  import opened AwsRules

  predicate HasSubnet(docs: seq<Doc>, name: string) {
    exists i :: 0 <= i < |docs| && docs[i].Subnet? && docs[i].name == name
  }

  predicate HasGroup(docs: seq<Doc>, name: string) {
    exists i :: 0 <= i < |docs| && docs[i].SecurityGroup? && docs[i].name == name
  }

  predicate HasLaunch(docs: seq<Doc>, name: string) {
    exists i :: 0 <= i < |docs| && docs[i].LaunchConfig? && docs[i].name == name
  }

  predicate HasTable(docs: seq<Doc>, name: string) {
    exists i :: 0 <= i < |docs| && docs[i].RouteTable? && docs[i].name == name
  }

  predicate HasGateway(docs: seq<Doc>, name: string) {
    exists i :: 0 <= i < |docs| && docs[i].InternetGateway? && docs[i].name == name
  }

  /** The references of one document resolve in `docs`. */
  predicate Resolves(docs: seq<Doc>, d: Doc) {
    match d
    case Asg(_, _, subnets, _, launch, _, _) =>
      HasLaunch(docs, launch) && forall k :: 0 <= k < |subnets| ==> HasSubnet(docs, subnets[k])
    case LaunchConfig(_, groups, _, _) => forall k :: 0 <= k < |groups| ==> HasGroup(docs, groups[k])
    case RouteAssociation(_, subnet, table) => HasSubnet(docs, subnet) && HasTable(docs, table)
    case RouteTable(_, gateway) => HasGateway(docs, gateway)
    case Efs(_, targets) => forall k :: 0 <= k < |targets| ==> HasSubnet(docs, targets[k].subnetName)
    case _ => true
  }

  ghost predicate Closed(docs: seq<Doc>) {
    forall i :: 0 <= i < |docs| ==> Resolves(docs, docs[i])
  }

  /** `docs'` starts with `docs`, the rules of groups aside. */
  ghost predicate Extends(docs: seq<Doc>, docs': seq<Doc>) {
    |docs| <= |docs'| && SameButRules(docs, docs'[..|docs|])
  }

  lemma ExtendsEach(docs: seq<Doc>, docs': seq<Doc>, i: nat)
    requires Extends(docs, docs') && i < |docs|
    ensures SameButItsRules(docs[i], docs'[i])
  {
    assert docs'[..|docs|][i] == docs'[i];
  }

  lemma StillThere(docs: seq<Doc>, docs': seq<Doc>, name: string)
    requires Extends(docs, docs')
    ensures HasSubnet(docs, name) ==> HasSubnet(docs', name)
    ensures HasGroup(docs, name) ==> HasGroup(docs', name)
    ensures HasLaunch(docs, name) ==> HasLaunch(docs', name)
    ensures HasTable(docs, name) ==> HasTable(docs', name)
    ensures HasGateway(docs, name) ==> HasGateway(docs', name)
  {
    forall i | 0 <= i < |docs|
      ensures !docs[i].SecurityGroup? && !docs[i].VpcGroup? ==> docs'[i] == docs[i]
      ensures docs[i].SecurityGroup? ==> docs'[i].SecurityGroup? && docs'[i].name == docs[i].name
    {
      ExtendsEach(docs, docs', i);
    }
  }

  lemma StillResolves(docs: seq<Doc>, docs': seq<Doc>, d: Doc)
    requires Extends(docs, docs') && Resolves(docs, d)
    ensures Resolves(docs', d)
  {
    forall name
      ensures HasSubnet(docs, name) ==> HasSubnet(docs', name)
      ensures HasGroup(docs, name) ==> HasGroup(docs', name)
      ensures HasLaunch(docs, name) ==> HasLaunch(docs', name)
      ensures HasTable(docs, name) ==> HasTable(docs', name)
      ensures HasGateway(docs, name) ==> HasGateway(docs', name)
    {
      StillThere(docs, docs', name);
    }
  }

  /** A longer plan is closed when the new documents resolve. */
  lemma StaysClosed(docs: seq<Doc>, docs': seq<Doc>)
    requires Closed(docs) && Extends(docs, docs')
    requires forall i :: |docs| <= i < |docs'| ==> Resolves(docs', docs'[i])
    ensures Closed(docs')
  {
    forall i | 0 <= i < |docs| ensures Resolves(docs', docs'[i]) {
      ExtendsEach(docs, docs', i);
      StillResolves(docs, docs', docs[i]);
    }
  }

  /** The walk resolves every subnet it collects, and its new documents resolve. */
  lemma {:induction false} WalkClosed(m: Model, key: string, docs: seq<Doc>, defs: seq<SubnetDef>, n: nat)
    requires n <= |defs| && Closed(docs) && HasTable(docs, RouteTableName(m))
    ensures var w := WalkSubnets(m, key, docs, defs, n);
            && Closed(w.docs) && HasTable(w.docs, RouteTableName(m))
            && forall k :: 0 <= k < n ==> HasSubnet(w.docs, w.subnets[k].name)
  {
    if n != 0 {
      WalkClosed(m, key, docs, defs, n - 1);
      WalkOneClosed(m, key, WalkSubnets(m, key, docs, defs, n - 1), defs[n - 1]);
    }
  }

  lemma WalkOneClosed(m: Model, key: string, w: Walk, d: SubnetDef)
    requires Closed(w.docs) && HasTable(w.docs, RouteTableName(m)) && forall k :: 0 <= k < |w.subnets| ==>
        w.subnets[k].Subnet? && HasSubnet(w.docs, w.subnets[k].name)
    ensures var r := WalkSubnet(m, key, w, d);
            && Closed(r.docs) && HasTable(r.docs, RouteTableName(m))
            && forall k :: 0 <= k < |r.subnets| ==> r.subnets[k].Subnet? && HasSubnet(r.docs, r.subnets[k].name)
  {
    hide SubnetName, GroupName, AssociationName, RouteTableName;
    var r := WalkSubnet(m, key, w, d);
    if FirstSubnet(w.docs, d.addressPool).None? {
      var n := |w.docs|;
      assert r.docs[..n] == w.docs;
      assert Extends(w.docs, r.docs);
      assert r.docs[n].Subnet? && r.docs[n] == r.subnets[|w.subnets|];
      forall k | 0 <= k < |w.subnets| ensures HasSubnet(r.docs, w.subnets[k].name) {
        StillThere(w.docs, r.docs, w.subnets[k].name);
      }
      StillThere(w.docs, r.docs, RouteTableName(m));
      StaysClosed(w.docs, r.docs);
    }
  }

  /** Referential closure at every iteration: no document ever names one that is not in the plan. */
  lemma {:induction false} PlanClosed(m: Model, n: nat)
    requires n <= |m.components|
    ensures Closed(Components(m, n).docs) && HasTable(Components(m, n).docs, RouteTableName(m))
  {
    if n == 0 {
      HeaderClosed(m);
    } else {
      PlanClosed(m, n - 1);
      if m.components[n - 1].count >= 1 {
        ComponentClosed(m, n);
      }
    }
  }

  lemma HeaderClosed(m: Model)
    ensures Closed(Header(m)) && HasTable(Header(m), RouteTableName(m))
  {
    hide ResourceName, RouteTableName;
    var h := Header(m);
    assert h[4].InternetGateway? && h[4].name == h[5].gateway && h[5].RouteTable? && h[5].name == RouteTableName(m);
  }

  lemma ComponentClosed(m: Model, n: nat)
    requires 0 < n <= |m.components| && m.components[n - 1].count >= 1 && Closed(Components(m, n - 1).docs)
    requires HasTable(Components(m, n - 1).docs, RouteTableName(m))
    ensures Closed(Components(m, n).docs) && HasTable(Components(m, n).docs, RouteTableName(m))
  {
    hide WalkSubnets, OfferAll, Closed, Extends, SubnetName, GroupName, AsgName, LaunchConfigName;
    var p, c := Components(m, n - 1), m.components[n - 1];
    var w := WalkSubnets(m, c.key, p.docs, c.subnets, |c.subnets|);
    WalkClosed(m, c.key, p.docs, c.subnets, |c.subnets|);
    var docs := OfferAll(w.docs, c.subnets, c.vm.rules, |c.subnets|);
    var r := Components(m, n).docs;
    OfferExtends(w.docs, c.subnets, c.vm.rules);
    PairExtends(docs, r);
    ExtendsTransitive(w.docs, docs, r);
    StillThere(w.docs, r, RouteTableName(m));
    assert HasLaunch(r, r[|docs| + 1].name);
    forall k | 0 <= k < |c.subnets| ensures HasSubnet(r, w.subnets[k].name) {
      StillThere(w.docs, r, w.subnets[k].name);
    }
    forall k | 0 <= k < |c.subnets| ensures HasGroup(r, GroupNameAt(docs, c.subnets[k].addressPool)) {
      GroupCreated(m, n, k);
      StillThere(docs, r, GroupNameAt(docs, c.subnets[k].addressPool));
    }
    OfferedClosed(w.docs, docs, r);
  }

  lemma OfferExtends(docs: seq<Doc>, defs: seq<SubnetDef>, rules: seq<Rule>)
    ensures Extends(docs, OfferAll(docs, defs, rules, |defs|))
  {
    OfferKeepsOthers(docs, defs, rules, |defs|);
    var r := OfferAll(docs, defs, rules, |defs|);
    assert r[..|docs|] == r;
  }

  lemma PairExtends(docs: seq<Doc>, r: seq<Doc>)
    requires docs <= r
    ensures Extends(docs, r)
  {
  }

  lemma ExtendsTransitive(a: seq<Doc>, b: seq<Doc>, c: seq<Doc>)
    requires Extends(a, b) && Extends(b, c)
    ensures Extends(a, c)
  {
    forall i | 0 <= i < |a|
      ensures SameButItsRules(a[i], c[i])
    {
      ExtendsEach(a, b, i);
      ExtendsEach(b, c, i);
    }
    assert forall i :: 0 <= i < |a| ==> c[..|a|][i] == c[i];
  }

  lemma OfferedClosed(docs: seq<Doc>, offered: seq<Doc>, r: seq<Doc>)
    requires Closed(docs) && Extends(docs, r) && |offered| == |docs| && |r| == |docs| + 2
    requires Resolves(r, r[|docs|]) && Resolves(r, r[|docs| + 1])
    ensures Closed(r)
  {
    StaysClosed(docs, r);
  }

  /** The group of every CIDR a component mentions is in the plan when its launch configuration is made. */
  lemma GroupCreated(m: Model, n: nat, k: nat)
    requires 0 < n <= |m.components| && m.components[n - 1].count >= 1 && k < |m.components[n - 1].subnets|
    ensures var c := m.components[n - 1];
            var w := WalkSubnets(m, c.key, Components(m, n - 1).docs, c.subnets, |c.subnets|);
            var docs := OfferAll(w.docs, c.subnets, c.vm.rules, |c.subnets|);
            && FirstGroup(docs, c.subnets[k].addressPool).Some?
            && HasGroup(docs, GroupNameAt(docs, c.subnets[k].addressPool))
  {
    var c, before, from := m.components[n - 1], Creations(m, n - 1), Components(m, n - 1).docs;
    var j := |c.subnets|;
    var cidr := c.subnets[k].addressPool;
    PlanShaped(m, n - 1);
    WalkShaped(m, c.key, from, before, c.subnets, j);
    var w := WalkSubnets(m, c.key, from, c.subnets, j);
    OfferKeepsOthers(w.docs, c.subnets, c.vm.rules, j);
    var docs := OfferAll(w.docs, c.subnets, c.vm.rules, j);
    SameButRulesIn(w.docs, docs);
    CreatedCovers(before, c.key, c.subnets, j, cidr);
    assert Mentions(c.subnets, cidr, j);
    FoundWhenCreated(m, docs, CreationsOf(before, c.key, c.subnets, j), cidr);
  }

  // ---------- the subnets of a component ----------

  /** A subnet of a CIDR has the name and the zone. */
  predicate NamedFor(docs: seq<Doc>, name: string, zone: string, cidr: string) {
    exists x :: 0 <= x < |docs| && docs[x] == Subnet(name, cidr, zone)
  }

  lemma StillNamed(docs: seq<Doc>, docs': seq<Doc>, name: string, zone: string, cidr: string)
    requires Extends(docs, docs') && NamedFor(docs, name, zone, cidr)
    ensures NamedFor(docs', name, zone, cidr)
  {
    var x :| 0 <= x < |docs| && docs[x] == Subnet(name, cidr, zone);
    ExtendsEach(docs, docs', x);
  }

  /** A walk's subnets are in its documents. */
  lemma {:induction false} WalkListed(m: Model, key: string, docs: seq<Doc>, defs: seq<SubnetDef>, n: nat)
    requires n <= |defs|
    ensures var w := WalkSubnets(m, key, docs, defs, n);
            forall j :: 0 <= j < n ==> NamedFor(w.docs, w.subnets[j].name, w.subnets[j].zone, defs[j].addressPool)
  {
    hide SubnetName, GroupName, AssociationName, RouteTableName;
    if n != 0 {
      WalkListed(m, key, docs, defs, n - 1);
      var before, w := WalkSubnets(m, key, docs, defs, n - 1), WalkSubnets(m, key, docs, defs, n);
      assert before.docs <= w.docs;
      assert w.subnets[..n - 1] == before.subnets;
      forall j | 0 <= j < n ensures NamedFor(w.docs, w.subnets[j].name, w.subnets[j].zone, defs[j].addressPool) {
        if j < n - 1 {
          var x :| 0 <= x < |before.docs|
                   && before.docs[x] == Subnet(before.subnets[j].name, defs[j].addressPool, before.subnets[j].zone);
          assert w.docs[x] == before.docs[x];
        } else if FirstSubnet(before.docs, defs[j].addressPool).None? {
          assert w.docs[|before.docs|] == w.subnets[j];
        }
      }
    }
  }

  // ---------- names are unique, so every lookup by name finds one subnet ----------

  lemma {:induction false} SubnetsNamedAppend(a: seq<Doc>, b: seq<Doc>, name: string)
    ensures SubnetsNamed(a + b, name) == SubnetsNamed(a, name) + SubnetsNamed(b, name)
  {
    if a == [] {
      assert a + b == b;
    } else {
      assert (a + b)[0] == a[0] && (a + b)[1..] == a[1..] + b;
      SubnetsNamedAppend(a[1..], b, name);
    }
  }

  lemma {:induction false} NamedAmongSubnets(docs: seq<Doc>, name: string)
    ensures SubnetsNamed(docs, name) == SubnetsNamed(SubnetsIn(docs), name)
  {
    if docs != [] {
      var front, last := docs[..|docs| - 1], docs[|docs| - 1];
      NamedAmongSubnets(front, name);
      assert docs == front + [last];
      SubnetsNamedAppend(front, [last], name);
      if last.Subnet? {
        SubnetsNamedAppend(SubnetsIn(front), [last], name);
      } else {
        assert [last][1..] == [];
      }
    }
  }

  lemma {:induction false} NamedOnce(subnets: seq<Doc>, k: nat)
    requires forall i :: 0 <= i < |subnets| ==> subnets[i].Subnet?
    requires k < |subnets| && forall i :: 0 <= i < |subnets| && i != k ==> subnets[i].name != subnets[k].name
    ensures SubnetsNamed(subnets, subnets[k].name) == [subnets[k]]
  {
    if k == 0 {
      NamedNever(subnets[1..], subnets[0].name);
    } else {
      NamedOnce(subnets[1..], k - 1);
    }
  }

  lemma {:induction false} NamedNever(subnets: seq<Doc>, name: string)
    requires forall i :: 0 <= i < |subnets| && subnets[i].Subnet? ==> subnets[i].name != name
    ensures SubnetsNamed(subnets, name) == []
  {
    if subnets != [] {
      NamedNever(subnets[1..], name);
    }
  }

  /** The generated subnet names of a plan are pairwise different. */
  lemma SubnetNamesDistinct(m: Model, n: nat)
    requires n <= |m.components| && DistinctKeys(m)
    ensures var s := SubnetsIn(Components(m, n).docs);
            forall i, j :: 0 <= i < j < |s| ==> s[i].name != s[j].name && s[i].cidr != s[j].cidr
  {
    PlanShaped(m, n);
    CreationsDistinct(m, n);
    var s, cs := SubnetsIn(Components(m, n).docs), Creations(m, n);
    forall i, j | 0 <= i < j < |s| ensures s[i].name != s[j].name && s[i].cidr != s[j].cidr {
      IndexedNamesInjective(m.prefix, m.cluster, "subnet", cs[i].key, cs[i].index, cs[j].key, cs[j].index);
    }
  }

  // ---------- mount targets ----------

  predicate ZonedSubnet(docs: seq<Doc>, name: string, zone: string) {
    exists i :: 0 <= i < |docs| && docs[i].Subnet? && docs[i].name == name && docs[i].zone == zone
  }

  /** One mount target per zone, each on a subnet of the plan in its zone. */
  ghost predicate GoodTargets(docs: seq<Doc>, targets: seq<Target>) {
    && (forall i, j :: 0 <= i < j < |targets| ==> targets[i].zone != targets[j].zone)
    && (forall i :: 0 <= i < |targets| ==> ZonedSubnet(docs, targets[i].subnetName, targets[i].zone))
  }

  lemma {:induction false} TargetsGood(docs: seq<Doc>, targets: seq<Target>, subnets: seq<Doc>, n: nat)
    requires n <= |subnets| && GoodTargets(docs, targets)
    requires forall i :: 0 <= i < |subnets| ==>
        subnets[i].Subnet? && ZonedSubnet(docs, subnets[i].name, subnets[i].zone)
    ensures var r := MountTargets(targets, subnets, n);
            && GoodTargets(docs, r) && targets <= r
            && forall i :: 0 <= i < n ==> exists j :: 0 <= j < |r| && r[j].zone == subnets[i].zone
  {
    hide ZonedSubnet;
    if n != 0 {
      TargetsGood(docs, targets, subnets, n - 1);
      var done, r, s := MountTargets(targets, subnets, n - 1), MountTargets(targets, subnets, n), subnets[n - 1];
      forall i | 0 <= i < n ensures exists j :: 0 <= j < |r| && r[j].zone == subnets[i].zone {
        if i < n - 1 {
          var j :| 0 <= j < |done| && done[j].zone == subnets[i].zone;
          assert r[j] == done[j];
        } else if r != done {
          assert r[|done|].zone == s.zone;
        }
      }
    }
  }

  /** The file system has at most one mount target per availability zone, on a subnet of the plan in that zone. */
  lemma {:induction false} PlanTargetsGood(m: Model, n: nat)
    requires n <= |m.components|
    ensures GoodTargets(Components(m, n).docs, Components(m, n).targets)
  {
    if n != 0 && m.components[n - 1].count < 1 {
      PlanTargetsGood(m, n - 1);
    } else if n != 0 {
      PlanTargetsGood(m, n - 1);
      ComponentTargets(m, n);
    }
  }

  lemma StillZoned(docs: seq<Doc>, docs': seq<Doc>, name: string, zone: string)
    requires Extends(docs, docs') && ZonedSubnet(docs, name, zone)
    ensures ZonedSubnet(docs', name, zone)
  {
    var i :| 0 <= i < |docs| && docs[i].Subnet? && docs[i].name == name && docs[i].zone == zone;
    ExtendsEach(docs, docs', i);
  }

  lemma NamedIsZoned(docs: seq<Doc>, name: string, zone: string, cidr: string)
    requires NamedFor(docs, name, zone, cidr)
    ensures ZonedSubnet(docs, name, zone)
  {
  }

  lemma ComponentTargets(m: Model, n: nat)
    requires 0 < n <= |m.components| && m.components[n - 1].count >= 1
    requires GoodTargets(Components(m, n - 1).docs, Components(m, n - 1).targets)
    ensures GoodTargets(Components(m, n).docs, Components(m, n).targets)
  {
    hide WalkSubnets, OfferAll, Closed, Extends, MountTargets;
    var p, c, r := Components(m, n - 1), m.components[n - 1], Components(m, n).docs;
    var w := WalkSubnets(m, c.key, p.docs, c.subnets, |c.subnets|);
    WalkKeepsPrefix(m, c.key, p.docs, c.subnets, |c.subnets|);
    PairExtends(p.docs, w.docs);
    OfferExtends(w.docs, c.subnets, c.vm.rules);
    PairExtends(OfferAll(w.docs, c.subnets, c.vm.rules, |c.subnets|), r);
    ExtendsTransitive(w.docs, OfferAll(w.docs, c.subnets, c.vm.rules, |c.subnets|), r);
    ExtendsTransitive(p.docs, w.docs, r);
    forall i | 0 <= i < |p.targets| ensures ZonedSubnet(r, p.targets[i].subnetName, p.targets[i].zone) {
      StillZoned(p.docs, r, p.targets[i].subnetName, p.targets[i].zone);
    }
    WalkListed(m, c.key, p.docs, c.subnets, |c.subnets|);
    forall i | 0 <= i < |w.subnets| ensures ZonedSubnet(r, w.subnets[i].name, w.subnets[i].zone) {
      NamedIsZoned(w.docs, w.subnets[i].name, w.subnets[i].zone, c.subnets[i].addressPool);
      StillZoned(w.docs, r, w.subnets[i].name, w.subnets[i].zone);
    }
    TargetsGood(r, p.targets, w.subnets, |w.subnets|);
  }
}
