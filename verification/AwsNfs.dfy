/** How many rules the file system step adds for each CIDR. */
module AwsNfs {
  import opened Results
  import opened Naming
  import opened AwsPlan
  import opened AwsLaws
  import opened AwsReferences
  import opened AwsFileSystem
  import opened AwsPorts

  // ---------- the machine documents, in order ----------

  function AsgsIn(docs: seq<Doc>): (r: seq<Doc>)
    ensures forall i :: 0 <= i < |r| ==> r[i].Asg?
  {
    if docs == [] then []
    else AsgsIn(docs[..|docs| - 1]) + if docs[|docs| - 1].Asg? then [docs[|docs| - 1]] else []
  }

  lemma {:induction false} AsgsAppend(a: seq<Doc>, b: seq<Doc>)
    ensures AsgsIn(a + b) == AsgsIn(a) + AsgsIn(b)
  {
    if b == [] {
      assert a + b == a;
    } else {
      assert (a + b)[..|a + b| - 1] == a + b[..|b| - 1];
      AsgsAppend(a, b[..|b| - 1]);
    }
  }

  lemma {:induction false} NoAsgsIn(docs: seq<Doc>)
    requires forall i :: 0 <= i < |docs| ==> !docs[i].Asg?
    ensures AsgsIn(docs) == []
  {
    if docs != [] {
      NoAsgsIn(docs[..|docs| - 1]);
    }
  }

  lemma {:induction false} SameAsgs(docs: seq<Doc>, docs': seq<Doc>)
    requires SameButRules(docs, docs')
    ensures AsgsIn(docs) == AsgsIn(docs')
  {
    if docs != [] {
      SameAsgs(docs[..|docs| - 1], docs'[..|docs| - 1]);
    }
  }

  /** The enabled components among the first `n`. */
  function EnabledOf(m: Model, n: nat): seq<Component>
    requires n <= |m.components|
  {
    if n == 0 then []
    else EnabledOf(m, n - 1) + if m.components[n - 1].count < 1 then [] else [m.components[n - 1]]
  }

  /** The machine documents are those of the enabled components, in order. */
  ghost predicate AsgsListed(m: Model, docs: seq<Doc>, n: nat)
    requires n <= |m.components|
  {
    && |AsgsIn(docs)| == |EnabledOf(m, n)|
    && forall k :: 0 <= k < |EnabledOf(m, n)| ==> AsgFor(docs, AsgsIn(docs)[k], EnabledOf(m, n)[k])
  }

  lemma ComponentAsgListed(m: Model, p: Plan, c: Component)
    requires c.count >= 1
    ensures var r := AddComponent(m, p, c).docs;
            && |r| >= 2 && Extends(p.docs, r) && AsgsIn(r) == AsgsIn(p.docs) + [r[|r| - 2]] && AsgFor(r, r[|r| - 2], c)
  {
    hide AsgFor, AddComponent;
    ComponentAsg(m, p, c);
    var r, n := AddComponent(m, p, c).docs, |p.docs|;
    var last := r[|r| - 2];
    AsgForIsAsg(r, last, c);
    var mid := r[n..|r| - 2];
    assert r == r[..n] + mid + [last] + [r[|r| - 1]];
    AsgsAppend(r[..n] + mid + [last], [r[|r| - 1]]);
    AsgsAppend(r[..n] + mid, [last]);
    AsgsAppend(r[..n], mid);
    SameAsgs(p.docs, r[..n]);
    NoAsgsIn(mid);
    NoAsgsIn([r[|r| - 1]]);
    assert [last][..0] == [];
  }

  lemma {:induction false} PlanAsgs(m: Model, n: nat)
    requires n <= |m.components|
    ensures AsgsListed(m, Components(m, n).docs, n)
  {
    hide AddComponent, AsgFor, Extends, AsgsIn;
    if n == 0 {
      NoAsgsIn(Header(m));
    } else {
      PlanAsgs(m, n - 1);
      var p, c := Components(m, n - 1), m.components[n - 1];
      if c.count >= 1 {
        ComponentAsgListed(m, p, c);
        var r := Components(m, n).docs;
        forall k | 0 <= k < |EnabledOf(m, n - 1)| ensures AsgFor(r, AsgsIn(r)[k], EnabledOf(m, n)[k]) {
          StillAsgFor(p.docs, r, AsgsIn(p.docs)[k], EnabledOf(m, n - 1)[k]);
        }
      } else {
        Disabled(m, p, c);
        assert EnabledOf(m, n) == EnabledOf(m, n - 1);
      }
    }
  }

  // ---------- counting ----------

  /** The rules for a CIDR. */
  function Count(rules: seq<Rule>, cidr: string): nat {
    if rules == [] then 0 else Count(rules[..|rules| - 1], cidr) + if rules[|rules| - 1].source == cidr then 1 else 0
  }

  /** How often the first `n` definitions list a CIDR. */
  function Listings(defs: seq<SubnetDef>, cidr: string, n: nat): nat
    requires n <= |defs|
  {
    if n == 0 then 0 else Listings(defs, cidr, n - 1) + if defs[n - 1].addressPool == cidr then 1 else 0
  }

  /** How often the enabled components allowed to the file system list a CIDR. */
  function Asked(cs: seq<Component>, cidr: string): nat {
    if cs == [] then 0
    else
      var c := cs[|cs| - 1];
      Asked(cs[..|cs| - 1], cidr) + if c.vm.authorizedToEfs then Listings(c.subnets, cidr, |c.subnets|) else 0
  }

  lemma CountSnoc(rules: seq<Rule>, rule: Rule, cidr: string)
    ensures Count(rules + [rule], cidr) == Count(rules, cidr) + if rule.source == cidr then 1 else 0
  {
    assert (rules + [rule])[..|rules|] == rules;
  }

  lemma OpenSnoc(rules: seq<Rule>, rule: Rule, cidr: string)
    requires rule.port != Number(2049)
    ensures OpenTo(rules + [rule], cidr) <==> OpenTo(rules, cidr)
  {
    if OpenTo(rules, cidr) {
      var i :| 0 <= i < |rules| && rules[i].source == cidr && rules[i].port == Number(2049);
      assert (rules + [rule])[i] == rules[i];
    }
  }

  /** What the step may do to the rules: append rules whose port is text, so many for the CIDR. */
  ghost predicate Grown(rules: seq<Rule>, r: seq<Rule>, cidr: string, n: nat) {
    && rules <= r && (forall c :: OpenTo(r, c) <==> OpenTo(rules, c))
    && (forall i :: |rules| <= i < |r| ==>
        r[i].direction == "ingress" && r[i].protocol == "tcp" && r[i].port == Text("2049") && r[i].destination == "*")
    && Count(r, cidr) == Count(rules, cidr) + if OpenTo(rules, cidr) then 0 else n
  }

  lemma GrownFurther(a: seq<Rule>, b: seq<Rule>, c: seq<Rule>, cidr: string, n: nat, k: nat)
    requires Grown(a, b, cidr, n) && Grown(b, c, cidr, k)
    ensures Grown(a, c, cidr, n + k)
  {
    hide OpenTo;
  }

  lemma OneRule(rules: seq<Rule>, subnet: Doc, cidr: string)
    requires subnet.Subnet?
    ensures Grown(rules, if OpenTo(rules, subnet.cidr) then rules else rules + [NfsRule(subnet)], cidr,
                  if subnet.cidr == cidr then 1 else 0)
  {
    hide OpenTo;
    CountSnoc(rules, NfsRule(subnet), cidr);
    forall c ensures OpenTo(rules + [NfsRule(subnet)], c) <==> OpenTo(rules, c) {
      OpenSnoc(rules, NfsRule(subnet), c);
    }
  }

  /** A lookup that finds one subnet finds that of the CIDR. */
  lemma FoundFor(docs: seq<Doc>, name: string, zone: string, cidr: string)
    requires NamedFor(docs, name, zone, cidr) && SingleSubnet(docs, name).Success?
    ensures SingleSubnet(docs, name).value.cidr == cidr
  {
    var x :| 0 <= x < |docs| && docs[x] == Subnet(name, cidr, zone);
    ListedNamed(docs, name, x);
  }

  lemma {:induction false} ListedNamed(docs: seq<Doc>, name: string, x: nat)
    requires x < |docs| && docs[x].Subnet? && docs[x].name == name
    ensures docs[x] in SubnetsNamed(docs, name)
  {
    if x != 0 {
      ListedNamed(docs[1..], name, x - 1);
    }
  }

  lemma NothingGrown(rules: seq<Rule>, cidr: string)
    ensures Grown(rules, rules, cidr, 0)
  {
  }

  lemma {:induction false} RulesForGrow(rules: seq<Rule>, docs: seq<Doc>, d: Doc, c: Component, cidr: string, n: nat)
    requires AsgFor(docs, d, c) && n <= |d.subnetNames| && NfsRulesFor(rules, docs, d.subnetNames, n).Success?
    ensures Grown(rules, NfsRulesFor(rules, docs, d.subnetNames, n).value, cidr, Listings(c.subnets, cidr, n))
  {
    hide Grown, OpenTo, SingleSubnet, NfsRule, NamedFor;
    if n == 0 {
      NothingGrown(rules, cidr);
    } else {
      RulesForGrow(rules, docs, d, c, cidr, n - 1);
      var done := NfsRulesFor(rules, docs, d.subnetNames, n - 1).value;
      var subnet := SingleSubnet(docs, d.subnetNames[n - 1]).value;
      FoundFor(docs, d.subnetNames[n - 1], d.zones[n - 1], c.subnets[n - 1].addressPool);
      OneRule(done, subnet, cidr);
      GrownFurther(rules, done, NfsRulesFor(rules, docs, d.subnetNames, n).value, cidr,
                   Listings(c.subnets, cidr, n - 1),
                   if subnet.cidr == cidr then 1 else 0);
    }
  }

  lemma {:induction false} RulesGrow(rules: seq<Rule>, docs: seq<Doc>, cs: seq<Component>, cidr: string, n: nat)
    requires n <= |docs| && NfsRules(rules, docs, n).Success?
    requires |AsgsIn(docs[..n])| <= |cs| && forall k :: 0 <= k < |AsgsIn(docs[..n])| ==>
        AsgFor(docs, AsgsIn(docs[..n])[k], cs[k])
    ensures Grown(rules, NfsRules(rules, docs, n).value, cidr, Asked(cs[..|AsgsIn(docs[..n])|], cidr))
  {
    hide Grown, AsgFor, NfsRulesFor;
    if n == 0 {
      NothingGrown(rules, cidr);
    } else {
      var d, before := docs[n - 1], AsgsIn(docs[..n - 1]);
      assert docs[..n][..n - 1] == docs[..n - 1];
      RulesGrow(rules, docs, cs, cidr, n - 1);
      var done := NfsRules(rules, docs, n - 1).value;
      if d.Asg? {
        var c := cs[|before|];
        assert cs[..|before| + 1][..|before|] == cs[..|before|];
        AsgForAgrees(docs, d, c);
        if d.authorizedToEfs {
          RulesForGrow(done, docs, d, c, cidr, |d.subnetNames|);
          GrownFurther(rules, done, NfsRules(rules, docs, n).value, cidr, Asked(cs[..|before|], cidr),
                       Listings(c.subnets, cidr, |c.subnets|));
        }
      }
    }
  }

  lemma AsgForAgrees(docs: seq<Doc>, d: Doc, c: Component)
    requires AsgFor(docs, d, c)
    ensures d.Asg? && d.authorizedToEfs == c.vm.authorizedToEfs && |d.subnetNames| == |c.subnets|
  {
  }

  // ---------- the main results ----------

  /** The rules of the network's default group in a finished plan. */
  function OpenRules(m: Model): seq<Rule>
    requires Build(m).Success?
  {
    var docs := Build(m).value;
    if |docs| > 2 && docs[2].VpcGroup? then docs[2].rules else []
  }

  /** The rules added for a CIDR. */
  function Added(m: Model, cidr: string): nat
    requires Build(m).Success?
  {
    var rules := OpenRules(m);
    if |m.vpcRules| <= |rules| then Count(rules[|m.vpcRules|..], cidr) else 0
  }

  lemma {:induction false} CountAppend(a: seq<Rule>, b: seq<Rule>, cidr: string)
    ensures Count(a + b, cidr) == Count(a, cidr) + Count(b, cidr)
  {
    if b == [] {
      assert a + b == a;
    } else {
      assert (a + b)[..|a + b| - 1] == a + b[..|b| - 1];
      CountAppend(a, b[..|b| - 1], cidr);
    }
  }

  /**
   * The step appends TCP rules for port 2049 to the network's group: for each CIDR one per listing by an
   * enabled component allowed to the file system, unless a rule with the number 2049 was there from the start.
   */
  lemma RulesPerCidr(m: Model, cidr: string)
    requires Build(m).Success?
    ensures Build(m).value != [] && m.vpcRules <= OpenRules(m)
    ensures Added(m, cidr) ==
        if Mounts(m, |m.components|) && !OpenTo(m.vpcRules, cidr) then Asked(EnabledOf(m, |m.components|), cidr) else 0
    ensures forall i :: |m.vpcRules| <= i < |OpenRules(m)| ==>
              OpenRules(m)[i].direction == "ingress" && OpenRules(m)[i].protocol == "tcp"
                  && OpenRules(m)[i].port == Text("2049") && OpenRules(m)[i].destination == "*"
  {
    hide Components, NfsRules, AsgFor, Mounts, OpenTo, Count, EnabledOf, AsgsIn, Asked;
    var n := |m.components|;
    var p, cs := Components(m, n), EnabledOf(m, n);
    MountedExactly(m, n);
    PlanKeepsHeader(m, n);
    NothingGrown(m.vpcRules, cidr);
    if p.targets != [] {
      var efs := Efs(ResourceName(m.prefix, m.cluster, "efs", None), p.targets);
      var docs := p.docs + [efs];
      PlanAsgs(m, n);
      AsgsAppend(p.docs, [efs]);
      NoAsgsIn([efs]);
      assert AsgsIn(p.docs) + [] == AsgsIn(p.docs);
      PairExtends(p.docs, docs);
      forall k | 0 <= k < |cs| ensures AsgFor(docs, AsgsIn(docs)[k], cs[k]) {
        StillAsgFor(p.docs, docs, AsgsIn(p.docs)[k], cs[k]);
      }
      assert docs[..|docs|] == docs && cs[..|cs|] == cs;
      RulesGrow(m.vpcRules, docs, cs, cidr, |docs|);
    }
    var rules := OpenRules(m);
    assert rules == m.vpcRules + rules[|m.vpcRules|..];
    CountAppend(m.vpcRules, rules[|m.vpcRules|..], cidr);
  }

  /** With a file system, every CIDR asked for has one rule exactly when none is asked for twice or open already. */
  lemma OneRuleEachExactly(m: Model)
    requires Build(m).Success? && Mounts(m, |m.components|)
    ensures (forall cidr :: Asked(EnabledOf(m, |m.components|), cidr) > 0 ==> Added(m, cidr) == 1)
       <==> (forall cidr :: Asked(EnabledOf(m, |m.components|), cidr) > 0 ==>
               Asked(EnabledOf(m, |m.components|), cidr) == 1 && !OpenTo(m.vpcRules, cidr))
  {
    hide Mounts, OpenTo, EnabledOf, Added;
    forall cidr
      ensures Added(m, cidr) == if OpenTo(m.vpcRules, cidr) then 0 else Asked(EnabledOf(m, |m.components|), cidr)
    {
      RulesPerCidr(m, cidr);
    }
  }

  /** With component keys distinct up to case and dashes no lookup fails: only comparing ports can. */
  lemma BuildSucceeds(m: Model)
    requires DistinctKeys(m)
    ensures Build(m).Success? <==> !PortsMeet(m)
  {
    hide PortsMeet, Build, Creations, Mounts;
    BuildFailsExactly(m);
    CreationsDistinct(m, |m.components|);
    forall c | 0 <= c < |m.components| ensures !Stumbles(m, m.components[c]) {
      forall cidr ensures !Ambiguous(Creations(m, |m.components|), cidr) {
        NothingAmbiguous(Creations(m, |m.components|), cidr);
      }
    }
  }

  lemma NothingAmbiguous(cs: seq<Creation>, cidr: string)
    requires OriginsDistinct(cs)
    ensures !Ambiguous(cs, cidr)
  {
  }

  // ---------- two components on one subnet ----------

  /** Masters and nodes on one subnet, both allowed to the file system, as in the default cluster. */
  function MastersAndNodes(): Model {
    var vm := VmSpec([], true, true, "t3.medium");
    var subnet := SubnetDef("10.1.1.0/24", "a");
    Model("", "c", "", "", [], [], [Component("m", 1, [subnet], vm), Component("n", 2, [subnet], vm)])
  }

  lemma TwiceForTwo(m: Model, a: Component, b: Component, d: SubnetDef)
    requires m.components == [a, b] && a.count >= 1 && b.count >= 1 && a.subnets == [d] == b.subnets
    requires a.vm.mountEfs && a.vm.authorizedToEfs && b.vm.authorizedToEfs && m.vpcRules == []
    requires Norm(a.key) != Norm(b.key) && TextPorts(m)
    ensures Build(m).Success? && Added(m, d.addressPool) == 2
  {
    hide TextPorts, PortsMeet, Build, Norm, Added, Mounts, Asked, EnabledOf, OpenTo;
    TextNeverMeets(m);
    BuildSucceeds(m);
    RulesPerCidr(m, d.addressPool);
    BothAsk(m, a, b, d);
  }

  lemma BothAsk(m: Model, a: Component, b: Component, d: SubnetDef)
    requires m.components == [a, b] && a.count >= 1 && b.count >= 1 && a.subnets == [d] == b.subnets
    requires a.vm.mountEfs && a.vm.authorizedToEfs && b.vm.authorizedToEfs
    ensures Mounts(m, 2) && Asked(EnabledOf(m, 2), d.addressPool) == 2 && !OpenTo([], d.addressPool)
  {
    assert m.components[0] == a;
    assert EnabledOf(m, 1) == [a];
    assert EnabledOf(m, 2) == [a, b];
    assert [a, b][..1] == [a] && [a][..0] == [];
    assert Listings([d], d.addressPool, 1) == 1;
    assert Asked([a], d.addressPool) == 1;
  }

  /** Their subnet gets two rules. */
  lemma MastersAndNodesTwice()
    ensures Build(MastersAndNodes()).Success? && Added(MastersAndNodes(), "10.1.1.0/24") == 2
  {
    hide Build, Norm, Added;
    var m := MastersAndNodes();
    KeysDiffer();
    TwiceForTwo(m, m.components[0], m.components[1], SubnetDef("10.1.1.0/24", "a"));
  }

  lemma KeysDiffer()
    ensures Norm("m") != Norm("n")
  {
    assert Norm("m")[0] == 'm' && Norm("n")[0] == 'n';
  }
}
