/**
 * The AWS builder as it runs: one growing list of documents that is searched while it grows, and
 * security groups whose rules are updated in place after they have joined the list.
 */
module AwsBuilder {
  import opened Results
  import opened Naming
  import opened AwsPlan
  import opened AwsLaws
  import opened AwsRules
  import opened AwsMachines

  /** A security group document; the default group of the network has no CIDR. */
  class GroupDoc {
    const name: string
    const cidr: Option<string>
    var rules: seq<Rule>

    constructor (name: string, cidr: Option<string>, rules: seq<Rule>)
      ensures this.name == name && this.cidr == cidr && this.rules == rules
    {
      this.name, this.cidr, this.rules := name, cidr, rules;
    }

    /** Every rule of `more` is appended unless an equal one is in the list; a search can end with an error. */
    method Offer(more: seq<Rule>) returns (r: Outcome<PlanError>)
      modifies this
      ensures r == if OfferRaises(old(rules), more, |more|) then Fail(PortNotText) else Pass
      ensures r.Pass? ==> rules == AddRules(old(rules), more, |more|)
    {
      hide RuleExists, SearchRaises;
      for i := 0 to |more|
        invariant rules == AddRules(old(rules), more, i) && !OfferRaises(old(rules), more, i)
      {
        var exists' := RuleIn(more[i]);
        if exists'.Failure? {
          return Fail(PortNotText);
        }
        if !exists'.value {
          rules := rules + [more[i]];
        }
      }
      r := Pass;
    }

    /** `rule_exists_in_list`; the ports are read only of rules of the same direction and protocol. */
    method RuleIn(rule: Rule) returns (r: Result<bool, PlanError>)
      ensures r == if SearchRaises(rules, rule) then Failure(PortNotText) else Success(RuleExists(rules, rule))
    {
      hide KeyOf, Clash;
      for i := 0 to |rules|
        invariant forall j :: 0 <= j < i ==> KeyOf(rules[j]) != KeyOf(rule) && !Clash(rules[j], rule)
      {
        if Clash(rules[i], rule) {
          assert NoneEqual(rules, rule, i);
          return Failure(PortNotText);
        }
        if KeyOf(rules[i]) == KeyOf(rule) {
          EqualEndsSearch(rules, rule, i);
          return Success(true);
        }
      }
      r := Success(false);
    }

    /** The search for a rule that lets a CIDR in. */
    method LetsIn(cidr: string) returns (r: bool)
      ensures r == OpenTo(rules, cidr)
    {
      for i := 0 to |rules|
        invariant !exists j :: 0 <= j < i && rules[j].source == cidr && rules[j].port == Number(2049)
      {
        if rules[i].source == cidr && rules[i].port == Number(2049) {
          return true;
        }
      }
      r := false;
    }
  }

  lemma EqualEndsSearch(rules: seq<Rule>, rule: Rule, n: nat)
    requires n < |rules| && KeyOf(rules[n]) == KeyOf(rule)
    requires forall j :: 0 <= j <= n ==> !Clash(rules[j], rule)
    ensures !SearchRaises(rules, rule)
  {
    hide KeyOf, Clash;
  }

  datatype Item = Fixed(doc: Doc) | Group(group: GroupDoc)

  ghost function Objects(items: seq<Item>): set<object> {
    set i | 0 <= i < |items| && items[i].Group? :: items[i].group
  }

  /** What an item says. */
  ghost function ViewOf(it: Item): Doc
    reads if it.Group? then {it.group} else {}
  {
    match it
    case Fixed(d) => d
    case Group(g) => if g.cidr.Some? then SecurityGroup(g.name, g.cidr.value, g.rules) else VpcGroup(g.rules)
  }

  ghost function View(items: seq<Item>): (r: seq<Doc>)
    reads Objects(items)
    ensures |r| == |items| && forall i :: 0 <= i < |items| ==> r[i] == ViewOf(items[i])
  {
    seq(|items|, i requires 0 <= i < |items| reads Objects(items) => ViewOf(items[i]))
  }

  /** No group object is listed twice, and groups are listed as objects only. */
  ghost predicate Proper(items: seq<Item>) {
    && (forall i, j :: 0 <= i < j < |items| && items[i].Group? && items[j].Group? ==> items[i].group != items[j].group)
    && (forall i :: 0 <= i < |items| && items[i].Fixed? ==> !items[i].doc.SecurityGroup? && !items[i].doc.VpcGroup?)
  }

  lemma {:induction false} FirstSubnetAt(docs: seq<Doc>, cidr: string, i: nat)
    requires i < |docs| && docs[i].Subnet? && docs[i].cidr == cidr
    requires forall j :: 0 <= j < i && docs[j].Subnet? ==> docs[j].cidr != cidr
    ensures FirstSubnet(docs, cidr) == Some(i)
  {
    if i != 0 {
      FirstSubnetAt(docs[1..], cidr, i - 1);
    }
  }

  lemma {:induction false} FirstGroupAt(docs: seq<Doc>, cidr: string, i: nat)
    requires i < |docs| && docs[i].SecurityGroup? && docs[i].cidr == cidr
    requires forall j :: 0 <= j < i && docs[j].SecurityGroup? ==> docs[j].cidr != cidr
    ensures FirstGroup(docs, cidr) == Some(i)
  {
    if i != 0 {
      FirstGroupAt(docs[1..], cidr, i - 1);
    }
  }

  lemma {:induction false} NoFirst(docs: seq<Doc>, cidr: string)
    ensures (forall j :: 0 <= j < |docs| && docs[j].Subnet? ==> docs[j].cidr != cidr) ==> FirstSubnet(docs, cidr).None?
    ensures (forall j :: 0 <= j < |docs| && docs[j].SecurityGroup? ==> docs[j].cidr != cidr) ==>
        FirstGroup(docs, cidr).None?
  {
  }

  method SelectSubnet(items: seq<Item>, cidr: string) returns (r: Option<nat>)
    requires Proper(items)
    ensures r == FirstSubnet(View(items), cidr)
    ensures r.Some? ==> items[r.value].Fixed?
  {
    for i := 0 to |items|
      invariant forall j :: 0 <= j < i && View(items)[j].Subnet? ==> View(items)[j].cidr != cidr
    {
      if items[i].Fixed? && items[i].doc.Subnet? && items[i].doc.cidr == cidr {
        FirstSubnetAt(View(items), cidr, i);
        return Some(i);
      }
    }
    NoFirst(View(items), cidr);
    r := None;
  }

  method SelectGroup(items: seq<Item>, cidr: string) returns (r: Option<nat>)
    requires Proper(items)
    ensures r == FirstGroup(View(items), cidr)
    ensures r.Some? ==> items[r.value].Group?
  {
    for i := 0 to |items|
      invariant forall j :: 0 <= j < i && View(items)[j].SecurityGroup? ==> View(items)[j].cidr != cidr
    {
      if items[i].Group? && items[i].group.cidr == Some(cidr) {
        FirstGroupAt(View(items), cidr, i);
        return Some(i);
      }
    }
    NoFirst(View(items), cidr);
    r := None;
  }

  /** The group a CIDR's first security group is. */
  ghost predicate GroupOf(items: seq<Item>, cidr: string, g: GroupDoc)
    reads Objects(items)
  {
    var at := FirstGroup(View(items), cidr);
    at.Some? && items[at.value] == Group(g)
  }

  lemma AppendTriple(items: seq<Item>, subnet: Doc, group: GroupDoc, association: Doc)
    requires Proper(items) && group !in Objects(items)
    requires subnet.Subnet? && association.RouteAssociation?
    ensures var r := items + [Fixed(subnet), Group(group), Fixed(association)];
            && Proper(r) && View(r) == View(items) + [subnet, ViewOf(Group(group)), association]
            && Objects(r) <= Objects(items) + {group}
  {
    var r := items + [Fixed(subnet), Group(group), Fixed(association)];
    forall i | 0 <= i < |items| && items[i].Group? ensures items[i].group != group {
      assert items[i].group in Objects(items);
    }
  }

  lemma NewGroupFound(docs: seq<Doc>, s: Doc, g: Doc, a: Doc, cidr: string)
    requires FirstGroup(docs, cidr).None? && s.Subnet? && g.SecurityGroup? && g.cidr == cidr
    ensures FirstGroup(docs + [s, g, a], cidr) == Some(|docs| + 1)
  {
    FirstGroupAt(docs + [s, g, a], cidr, |docs| + 1);
  }

  // ---------- first groups stay first ----------

  lemma {:induction false} FirstGroupKept(docs: seq<Doc>, docs': seq<Doc>, cidr: string)
    requires SameButRules(docs, docs')
    ensures FirstGroup(docs', cidr) == FirstGroup(docs, cidr)
  {
    if docs != [] {
      FirstGroupKept(docs[1..], docs'[1..], cidr);
    }
  }

  lemma FirstGroupInPrefix(docs: seq<Doc>, docs': seq<Doc>, cidr: string)
    requires docs <= docs' && FirstGroup(docs, cidr).Some?
    ensures FirstGroup(docs', cidr) == FirstGroup(docs, cidr)
  {
    var i := FirstGroup(docs, cidr).value;
    FirstGroupIsFirst(docs, cidr);
    FirstGroupAt(docs', cidr, i);
  }

  lemma {:induction false} FirstGroupIsFirst(docs: seq<Doc>, cidr: string)
    requires FirstGroup(docs, cidr).Some?
    ensures forall j :: 0 <= j < FirstGroup(docs, cidr).value && docs[j].SecurityGroup? ==> docs[j].cidr != cidr
  {
    if !(docs[0].SecurityGroup? && docs[0].cidr == cidr) {
      FirstGroupIsFirst(docs[1..], cidr);
    }
  }

  /** The collected groups are the first groups of the collected CIDRs. */
  ghost predicate GroupsAre(items: seq<Item>, docs: seq<Doc>, defs: seq<SubnetDef>, groups: seq<GroupDoc>)
    requires |docs| == |items| && |groups| <= |defs|
  {
    forall k :: 0 <= k < |groups| ==>
      var at := FirstGroup(docs, defs[k].addressPool);
      at.Some? && items[at.value] == Group(groups[k])
  }

  lemma GroupsStay(items: seq<Item>, docs: seq<Doc>, items': seq<Item>, docs': seq<Doc>, defs: seq<SubnetDef>,
                   groups: seq<GroupDoc>)
    requires |docs| == |items| && |docs'| == |items'| && |groups| <= |defs|
    requires GroupsAre(items, docs, defs, groups) && items <= items' && docs <= docs'
    ensures GroupsAre(items', docs', defs, groups)
  {
    forall k | 0 <= k < |groups|
      ensures var at := FirstGroup(docs', defs[k].addressPool); at.Some? && items'[at.value] == Group(groups[k])
    {
      FirstGroupInPrefix(docs, docs', defs[k].addressPool);
    }
  }

  class Builder {
    const m: Model
    var infrastructure: seq<Item>
    var targets: seq<Target>

    constructor (m: Model)
      ensures this.m == m
    {
      this.m, infrastructure, targets := m, [], [];
    }

    /** A subnet for a CIDR not seen before, its security group and its route association. */
    method CreateSubnet(key: string, def: SubnetDef, next: nat, ghost docs: seq<Doc>)
      returns (subnet: Doc, group: GroupDoc)
      requires Proper(infrastructure) && View(infrastructure) == docs && FirstGroup(docs, def.addressPool).None?
      modifies this`infrastructure
      ensures Proper(infrastructure) && old(infrastructure) <= infrastructure
      ensures fresh(Objects(infrastructure) - old(Objects(infrastructure)))
      ensures subnet == Subnet(SubnetName(m, key, next), def.addressPool, def.zone)
      ensures View(infrastructure) == docs +
                [subnet, SecurityGroup(GroupName(m, key, next), def.addressPool, m.groupRules),
                 RouteAssociation(AssociationName(m, key, next), subnet.name, RouteTableName(m))]
      ensures GroupOf(infrastructure, def.addressPool, group)
    {
      hide SubnetName, GroupName, AssociationName, RouteTableName, FirstGroup;
      subnet := Subnet(SubnetName(m, key, next), def.addressPool, def.zone);
      group := new GroupDoc(GroupName(m, key, next), Some(def.addressPool), m.groupRules);
      var association := RouteAssociation(AssociationName(m, key, next), subnet.name, RouteTableName(m));
      assert View(infrastructure) == docs;
      AppendTriple(infrastructure, subnet, group, association);
      infrastructure := infrastructure + [Fixed(subnet), Group(group), Fixed(association)];
      NewGroupFound(docs, subnet, ViewOf(Group(group)), association, def.addressPool);
    }

    /** One subnet definition of a component: the subnet of its CIDR, created if there is none yet. */
    method AddSubnet(key: string, def: SubnetDef, ghost w: Walk, ghost cs: seq<Creation>, next: nat)
      returns (subnet: Doc, group: GroupDoc, next': nat)
      requires Proper(infrastructure) && View(infrastructure) == w.docs && w.next == next && Shaped(m, w.docs, cs)
      modifies this`infrastructure
      ensures Proper(infrastructure) && old(infrastructure) <= infrastructure
      ensures fresh(Objects(infrastructure) - old(Objects(infrastructure)))
      ensures var w' := WalkSubnet(m, key, w, def);
              && View(infrastructure) == w'.docs && w'.subnets == w.subnets + [subnet] && next' == w'.next
      ensures GroupOf(infrastructure, def.addressPool, group)
    {
      hide Shaped, SubnetName, GroupName, AssociationName, RouteTableName;
      FoundWhenCreated(m, w.docs, cs, def.addressPool);
      next' := next;
      var at := SelectSubnet(infrastructure, def.addressPool);
      assert View(infrastructure) == w.docs;
      var g := SelectGroup(infrastructure, def.addressPool);
      assert View(infrastructure) == w.docs;
      if at.None? {
        subnet, group := CreateSubnet(key, def, next, w.docs);
        next' := next + 1;
      } else {
        subnet := infrastructure[at.value].doc;
        group := infrastructure[g.value].group;
        assert w.docs[at.value] == ViewOf(infrastructure[at.value]);
      }
    }

    /** The subnets, groups and next index of one component. */
    method AddSubnets(key: string, defs: seq<SubnetDef>, ghost docs: seq<Doc>, ghost cs: seq<Creation>)
      returns (subnets: seq<Doc>, groups: seq<GroupDoc>)
      requires Proper(infrastructure) && View(infrastructure) == docs && Shaped(m, docs, cs)
      modifies this`infrastructure
      ensures Proper(infrastructure) && old(infrastructure) <= infrastructure
      ensures fresh(Objects(infrastructure) - old(Objects(infrastructure)))
      ensures var w := WalkSubnets(m, key, docs, defs, |defs|);
              View(infrastructure) == w.docs && subnets == w.subnets
      ensures |groups| == |defs| && GroupsAre(infrastructure, View(infrastructure), defs, groups)
    {
      hide Shaped, WalkSubnet, GroupsAre, CreationsOf, View, ViewOf, Proper;
      subnets, groups := [], [];
      var next := 0;
      NoGroups(infrastructure, docs, defs);
      var i := 0;
      while i < |defs|
        invariant 0 <= i <= |defs| == |defs| && |groups| == i
        invariant Proper(infrastructure) && old(infrastructure) <= infrastructure
        invariant fresh(Objects(infrastructure) - old(Objects(infrastructure)))
        invariant WalkSubnets(m, key, docs, defs, i) == Walk(View(infrastructure), subnets, next)
        invariant GroupsAre(infrastructure, View(infrastructure), defs, groups)
      {
        WalkShaped(m, key, docs, cs, defs, i);
        ghost var w, items := WalkSubnets(m, key, docs, defs, i), infrastructure;
        var subnet, group;
        subnet, group, next := AddSubnet(key, defs[i], w, CreationsOf(cs, key, defs, i), next);
        WalkGrows(m, key, w, defs[i]);
        GroupsStay(items, w.docs, infrastructure, View(infrastructure), defs, groups);
        GroupJoins(infrastructure, View(infrastructure), defs, groups, group);
        subnets, groups := subnets + [subnet], groups + [group];
        i := i + 1;
      }
    }

    /** The rules of a component offered to each of its groups. */
    method OfferRulesTo(groups: seq<GroupDoc>, rules: seq<Rule>, ghost defs: seq<SubnetDef>, ghost docs: seq<Doc>)
      returns (r: Outcome<PlanError>)
      requires Proper(infrastructure) && View(infrastructure) == docs
      requires |groups| == |defs| && GroupsAre(infrastructure, docs, defs, groups)
      modifies Objects(infrastructure)
      ensures r == if OfferAllRaises(docs, defs, rules, |defs|) then Fail(PortNotText) else Pass
      ensures r.Pass? ==> View(infrastructure) == OfferAll(docs, defs, rules, |defs|)
    {
      hide GroupsAre, FirstGroup, AddRules, OfferRaises, OfferAllRaises, RulesAt, View;
      NoneRaised(docs, defs, rules);
      ghost var items := infrastructure;
      var i := 0;
      while i < |groups|
        invariant 0 <= i <= |groups|
        invariant infrastructure == items && View(items) == OfferAll(docs, defs, rules, i)
        invariant !OfferAllRaises(docs, defs, rules, i)
      {
        ghost var before := View(items);
        GroupAt(items, docs, before, defs, groups, rules, i);
        ghost var at := FirstGroup(before, defs[i].addressPool).value;
        RulesOf(items, defs[i].addressPool, groups[i]);
        RaisesStep(docs, defs, rules, i);
        r := groups[i].Offer(rules);
        if r.Fail? {
          return;
        }
        OneGroupChanged(items, at, before, groups[i]);
        i := i + 1;
      }
      r := Pass;
    }

    /** One mount target per zone. */
    method AddTargets(subnets: seq<Doc>)
      requires forall i :: 0 <= i < |subnets| ==> subnets[i].Subnet?
      modifies this`targets
      ensures targets == MountTargets(old(targets), subnets, |subnets|)
    {
      for i := 0 to |subnets|
        invariant targets == MountTargets(old(targets), subnets, i)
      {
        var known := false;
        for j := 0 to |targets|
          invariant known <==> exists k :: 0 <= k < j && targets[k].zone == subnets[i].zone
        {
          if targets[j].zone == subnets[i].zone {
            known := true;
          }
        }
        if !known {
          targets := targets + [Target("efs-" + subnets[i].name + "-mount", subnets[i].name, subnets[i].zone)];
        }
      }
    }

    /** The body of the loop over the components. */
    method AddOne(c: Component, ghost p: Plan, ghost cs: seq<Creation>) returns (r: Outcome<PlanError>)
      requires Proper(infrastructure) && View(infrastructure) == p.docs && targets == p.targets && Shaped(m, p.docs, cs)
      modifies this, Objects(infrastructure)
      ensures Proper(infrastructure) && old(infrastructure) <= infrastructure
      ensures fresh(Objects(infrastructure) - old(Objects(infrastructure)))
      ensures r == if ComponentRaises(m, p, c) then Fail(PortNotText) else Pass
      ensures r.Pass? ==> View(infrastructure) == AddComponent(m, p, c).docs && targets == AddComponent(m, p, c).targets
    {
      hide Shaped, WalkSubnets, OfferAll, MountTargets, GroupsAre, AsgName, LaunchConfigName, View, ViewOf, Proper;
      hide OfferAllRaises;
      if c.count < 1 {
        return Pass;
      }
      var subnets, groups := AddSubnets(c.key, c.subnets, p.docs, cs);
      ghost var walked := View(infrastructure);
      r := OfferRulesTo(groups, c.vm.rules, c.subnets, walked);
      if r.Fail? {
        return;
      }
      ghost var docs := View(infrastructure);
      var names := seq(|groups|, i requires 0 <= i < |groups| => groups[i].name);
      GroupNamesAgree(infrastructure, walked, docs, c.subnets, groups, c.vm.rules, names);
      var asg := Asg(AsgName(m, c.key), c.count, NamesOf(subnets), ZonesOf(subnets), LaunchConfigName(m, c.key),
                     c.vm.mountEfs, c.vm.authorizedToEfs);
      var launch := LaunchConfig(LaunchConfigName(m, c.key), names, c.vm.size, m.keyName);
      if c.vm.mountEfs {
        AddTargets(subnets);
      }
      assert View(infrastructure) == docs;
      AppendPair(infrastructure, asg, launch);
      infrastructure := infrastructure + [Fixed(asg), Fixed(launch)];
    }

    /** The fixed documents of the list are those of `docs`, and its groups are no subnets there. */
    ghost predicate Mirrors(docs: seq<Doc>)
      reads this
    {
      && |infrastructure| == |docs|
      && forall i :: 0 <= i < |docs| ==>
           match infrastructure[i]
           case Fixed(d) => docs[i] == d
           case Group(_) => docs[i].SecurityGroup? || docs[i].VpcGroup?
    }

    /** `select_single` of a subnet by name. */
    method SelectSingle(name: string, ghost docs: seq<Doc>) returns (r: Result<Doc, PlanError>)
      requires Mirrors(docs)
      ensures r == SingleSubnet(docs, name)
    {
      var found: seq<Doc> := [];
      assert docs[0..] == docs;
      for i := 0 to |infrastructure|
        invariant found + SubnetsNamed(docs[i..], name) == SubnetsNamed(docs, name)
        invariant forall k :: 0 <= k < |found| ==> found[k].Subnet?
      {
        assert docs[i..][1..] == docs[i + 1..];
        if infrastructure[i].Fixed? && infrastructure[i].doc.Subnet? && infrastructure[i].doc.name == name {
          found := found + [infrastructure[i].doc];
        }
      }
      assert found == SubnetsNamed(docs, name);
      r := if |found| == 1 then Success(found[0]) else Failure(NotSingle(name, |found|));
    }

    /** The rules for the subnets of one authorized group, appended in place. */
    method AllowSubnets(group: GroupDoc, names: seq<string>, ghost docs: seq<Doc>) returns (r: Outcome<PlanError>)
      requires Mirrors(docs)
      modifies group
      ensures match NfsRulesFor(old(group.rules), docs, names, |names|)
              case Success(rules) => r.Pass? && group.rules == rules
              case Failure(e) => r == Fail(e)
    {
      hide SingleSubnet, SubnetsNamed, OpenTo, NfsRule;
      ghost var rules := group.rules;
      for i := 0 to |names|
        invariant NfsRulesFor(rules, docs, names, i) == Success(group.rules)
      {
        var subnet := SelectSingle(names[i], docs);
        if subnet.Failure? {
          ForStaysFailed(rules, docs, names, i + 1, |names|);
          return Fail(subnet.error);
        }
        var known := group.LetsIn(subnet.value.cidr);
        if !known {
          group.rules := group.rules + [NfsRule(subnet.value)];
        }
      }
      r := Pass;
    }

    /** `add_security_rules_inbound_efs` */
    method AllowInboundNfs(group: GroupDoc, ghost docs: seq<Doc>) returns (r: Outcome<PlanError>)
      requires Mirrors(docs)
      modifies group
      ensures match NfsRules(old(group.rules), docs, |docs|)
              case Success(rules) => r.Pass? && group.rules == rules
              case Failure(e) => r == Fail(e)
    {
      hide NfsRulesFor;
      ghost var rules := group.rules;
      for i := 0 to |infrastructure|
        invariant NfsRules(rules, docs, i) == Success(group.rules)
      {
        if infrastructure[i].Fixed? && infrastructure[i].doc.Asg? && infrastructure[i].doc.authorizedToEfs {
          var out := AllowSubnets(group, infrastructure[i].doc.subnetNames, docs);
          if out.Fail? {
            StaysFailed(rules, docs, i + 1, |docs|);
            return out;
          }
        }
      }
      r := Pass;
    }

    /** The header documents and the loop over the components. */
    method AddAll(vpcGroup: GroupDoc) returns (r: Outcome<PlanError>)
      requires vpcGroup.cidr.None? && vpcGroup.rules == m.vpcRules
      modifies this, vpcGroup
      ensures r == if Raises(m, |m.components|) then Fail(PortNotText) else Pass
      ensures r.Pass? ==>
                && Proper(infrastructure) && fresh(Objects(infrastructure) - {vpcGroup})
                && View(infrastructure) == Components(m, |m.components|).docs
                && targets == Components(m, |m.components|).targets
      ensures r.Pass? ==> |infrastructure| >= 6 && infrastructure[2] == Group(vpcGroup)
    {
      hide AddComponent, ComponentRaises, Shaped, Proper, View, ViewOf;
      targets := [];
      infrastructure := FirstItems(m, vpcGroup);
      FirstView(m, vpcGroup);
      for n := 0 to |m.components|
        invariant Proper(infrastructure) && fresh(Objects(infrastructure) - {vpcGroup})
        invariant View(infrastructure) == Components(m, n).docs && targets == Components(m, n).targets
        invariant |infrastructure| >= 6 && infrastructure[2] == Group(vpcGroup)
        invariant !Raises(m, n)
      {
        PlanShaped(m, n);
        r := AddOne(m.components[n], Components(m, n), Creations(m, n));
        if r.Fail? {
          return;
        }
      }
      r := Pass;
    }

    /** The file system document and the rules that let authorized groups in. */
    method AddFileSystem(vpcGroup: GroupDoc, ghost docs: seq<Doc>) returns (r: Outcome<PlanError>)
      requires Proper(infrastructure) && View(infrastructure) == docs && vpcGroup.cidr.None?
      requires |infrastructure| >= 6 && infrastructure[2] == Group(vpcGroup)
      modifies this`infrastructure, vpcGroup
      ensures var all := docs + [Efs(ResourceName(m.prefix, m.cluster, "efs", None), targets)];
              && docs[2].VpcGroup?
              && match NfsRules(docs[2].rules, all, |all|)
                 case Success(rules) => r.Pass? && Proper(infrastructure)
                     && View(infrastructure) == all[2 := VpcGroup(rules)]
                 case Failure(e) => r == Fail(e)
    {
      hide NfsRules, ResourceName;
      GroupRulesAt(infrastructure, 2, vpcGroup);
      var efs := Efs(ResourceName(m.prefix, m.cluster, "efs", None), targets);
      AppendOne(infrastructure, efs);
      infrastructure := infrastructure + [Fixed(efs)];
      ghost var all := docs + [efs];
      MirrorsView();
      assert all == View(infrastructure);
      r := AllowInboundNfs(vpcGroup, all);
      if r.Pass? {
        VpcGroupChanged(infrastructure, 2, all, vpcGroup);
      }
    }

    /** The builder's run: it builds the plan, and fails exactly when the plan cannot be built. */
    method Run() returns (r: Result<seq<Item>, PlanError>)
      modifies this
      ensures r.Success? <==> Build(m).Success?
      ensures r.Success? ==> Proper(r.value) && View(r.value) == Build(m).value
      ensures r.Success? ==> AsPlanned(m, View(r.value))
      ensures r.Failure? ==> Build(m) == Failure(r.error)
    {
      hide Components, NfsRules, Proper, View, ViewOf, ResourceName, Raises, AsPlanned;
      if Build(m).Success? {
        BuiltAsPlanned(m);
      }
      var vpcGroup := new GroupDoc("default-security-group", None, m.vpcRules);
      var added := AddAll(vpcGroup);
      if added.Fail? {
        return Failure(added.error);
      }
      if targets == [] {
        return Success(infrastructure);
      }
      var out := AddFileSystem(vpcGroup, View(infrastructure));
      r := if out.Fail? then Failure(out.error) else Success(infrastructure);
    }

    lemma MirrorsView()
      requires Proper(infrastructure)
      ensures Mirrors(View(infrastructure))
    {
    }
  }

  function FirstItems(m: Model, vpcGroup: GroupDoc): (r: seq<Item>)
    ensures |r| == 6 && r[2] == Group(vpcGroup)
  {
    var h := Header(m);
    [Fixed(h[0]), Fixed(h[1]), Group(vpcGroup), Fixed(h[3]), Fixed(h[4]), Fixed(h[5])]
  }

  lemma FirstView(m: Model, vpcGroup: GroupDoc)
    requires vpcGroup.cidr.None? && vpcGroup.rules == m.vpcRules
    ensures Proper(FirstItems(m, vpcGroup)) && View(FirstItems(m, vpcGroup)) == Header(m)
    ensures Objects(FirstItems(m, vpcGroup)) <= {vpcGroup}
  {
    var h := Header(m);
    assert View(FirstItems(m, vpcGroup)) == [h[0], h[1], VpcGroup(m.vpcRules), h[3], h[4], h[5]];
  }

  lemma AppendOne(items: seq<Item>, d: Doc)
    requires Proper(items) && !d.SecurityGroup? && !d.VpcGroup?
    ensures Proper(items + [Fixed(d)]) && View(items + [Fixed(d)]) == View(items) + [d]
  {
  }

  lemma GroupRulesAt(items: seq<Item>, i: nat, g: GroupDoc)
    requires i < |items| && items[i] == Group(g)
    ensures View(items)[i] == ViewOf(Group(g)) && (g.cidr.None? ==> View(items)[i] == VpcGroup(g.rules))
    ensures g.cidr.Some? ==> View(items)[i] == SecurityGroup(g.name, g.cidr.value, g.rules)
  {
  }

  lemma VpcGroupChanged(items: seq<Item>, at: nat, before: seq<Doc>, g: GroupDoc)
    requires Proper(items) && at < |items| == |before| && items[at] == Group(g) && g.cidr.None?
    requires forall i :: 0 <= i < |items| && i != at ==> before[i] == ViewOf(items[i])
    ensures View(items) == before[at := VpcGroup(g.rules)]
  {
  }

  lemma {:induction false} ForStaysFailed(rules: seq<Rule>, docs: seq<Doc>, names: seq<string>, i: nat, n: nat)
    requires i <= n <= |names| && NfsRulesFor(rules, docs, names, i).Failure?
    ensures NfsRulesFor(rules, docs, names, n) == NfsRulesFor(rules, docs, names, i)
  {
    if i < n {
      ForStaysFailed(rules, docs, names, i, n - 1);
    }
  }

  lemma {:induction false} StaysFailed(rules: seq<Rule>, docs: seq<Doc>, i: nat, n: nat)
    requires i <= n <= |docs| && NfsRules(rules, docs, i).Failure?
    ensures NfsRules(rules, docs, n) == NfsRules(rules, docs, i)
  {
    if i < n {
      StaysFailed(rules, docs, i, n - 1);
    }
  }

  lemma AppendPair(items: seq<Item>, a: Doc, b: Doc)
    requires Proper(items) && !a.SecurityGroup? && !a.VpcGroup? && !b.SecurityGroup? && !b.VpcGroup?
    ensures var r := items + [Fixed(a), Fixed(b)];
            Proper(r) && View(r) == View(items) + [a, b] && Objects(r) == Objects(items)
  {
    var r := items + [Fixed(a), Fixed(b)];
    forall o | o in Objects(items) ensures o in Objects(r) {
      var i :| 0 <= i < |items| && items[i].Group? && items[i].group == o;
      assert r[i] == items[i];
    }
  }

  /** The names read off the collected groups are those the plan looks up by CIDR. */
  lemma GroupNamesAgree(items: seq<Item>, walked: seq<Doc>, docs: seq<Doc>, defs: seq<SubnetDef>, groups: seq<GroupDoc>,
                        rules: seq<Rule>, names: seq<string>)
    requires |walked| == |items| && |groups| == |defs| == |names| && GroupsAre(items, walked, defs, groups)
    requires View(items) == docs == OfferAll(walked, defs, rules, |defs|)
    requires forall i :: 0 <= i < |names| ==> names[i] == groups[i].name
    ensures names == GroupNames(docs, defs)
  {
    OfferKeepsOthers(walked, defs, rules, |defs|);
    forall i | 0 <= i < |names| ensures names[i] == GroupNameAt(docs, defs[i].addressPool) {
      FirstGroupKept(walked, docs, defs[i].addressPool);
      var at := FirstGroup(docs, defs[i].addressPool).value;
      assert docs[at] == ViewOf(items[at]);
    }
  }

  lemma NoGroups(items: seq<Item>, docs: seq<Doc>, defs: seq<SubnetDef>)
    requires |docs| == |items|
    ensures GroupsAre(items, docs, defs, [])
  {
  }

  lemma GroupJoins(items: seq<Item>, docs: seq<Doc>, defs: seq<SubnetDef>, groups: seq<GroupDoc>, g: GroupDoc)
    requires |docs| == |items| && |groups| < |defs| && GroupsAre(items, docs, defs, groups)
    requires var at := FirstGroup(docs, defs[|groups|].addressPool); at.Some? && items[at.value] == Group(g)
    ensures GroupsAre(items, docs, defs, groups + [g])
  {
  }

  lemma WalkGrows(m: Model, key: string, w: Walk, d: SubnetDef)
    ensures w.docs <= WalkSubnet(m, key, w, d).docs
  {
  }

  /** After some offers the i-th group is still the first of its CIDR. */
  lemma GroupAt(items: seq<Item>, docs: seq<Doc>, offered: seq<Doc>, defs: seq<SubnetDef>, groups: seq<GroupDoc>,
                rules: seq<Rule>, i: nat)
    requires |docs| == |items| && |groups| == |defs| && i < |defs|
    requires GroupsAre(items, docs, defs, groups) && offered == OfferAll(docs, defs, rules, i)
    ensures var at := FirstGroup(offered, defs[i].addressPool); at.Some? && items[at.value] == Group(groups[i])
  {
    OfferKeepsOthers(docs, defs, rules, i);
    FirstGroupKept(docs, offered, defs[i].addressPool);
  }

  lemma RulesOf(items: seq<Item>, cidr: string, g: GroupDoc)
    requires FirstGroup(View(items), cidr).Some? && items[FirstGroup(View(items), cidr).value] == Group(g)
    ensures RulesAt(View(items), cidr) == g.rules
  {
    hide FirstGroup;
    GroupRulesAt(items, FirstGroup(View(items), cidr).value, g);
  }

  lemma NoneRaised(docs: seq<Doc>, defs: seq<SubnetDef>, rules: seq<Rule>)
    ensures !OfferAllRaises(docs, defs, rules, 0)
  {
  }

  lemma RaisesStep(docs: seq<Doc>, defs: seq<SubnetDef>, rules: seq<Rule>, n: nat)
    requires n < |defs|
    ensures var now := OfferRaises(RulesAt(OfferAll(docs, defs, rules, n), defs[n].addressPool), rules, |rules|);
            && (OfferAllRaises(docs, defs, rules, n + 1) <==> OfferAllRaises(docs, defs, rules, n) || now)
            && (now ==> OfferAllRaises(docs, defs, rules, |defs|))
  {
    hide OfferRaises, RulesAt, OfferAll;
  }

  /** What one group's update does to the view. */
  lemma OneGroupChanged(items: seq<Item>, at: nat, before: seq<Doc>, g: GroupDoc)
    requires Proper(items) && at < |items| == |before| && items[at] == Group(g)
    requires forall i :: 0 <= i < |items| && i != at ==> before[i] == ViewOf(items[i])
    ensures View(items) == before[at := ViewOf(Group(g))]
  {
  }
}
