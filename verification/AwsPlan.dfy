/** The AWS infrastructure plan as a value: what the builder's loops have put together so far. */
module AwsPlan {
  import opened Results
  import opened Naming

  /** A port range as the documents write it. */
  datatype Port = Text(text: string) | Number(number: int)

  datatype Rule = Rule(name: string, description: string, direction: string, protocol: string,
                       port: Port, source: string, destination: string)

  datatype SubnetDef = SubnetDef(addressPool: string, zone: string)

  /** The virtual machine document selected for a component. */
  datatype VmSpec = VmSpec(rules: seq<Rule>, mountEfs: bool, authorizedToEfs: bool, size: string)

  datatype Component = Component(key: string, count: int, subnets: seq<SubnetDef>, vm: VmSpec)

  datatype Model = Model(prefix: string, cluster: string, userName: string, keyName: string,
                         vpcRules: seq<Rule>, groupRules: seq<Rule>, components: seq<Component>)

  datatype Doc =
    | PublicKey(name: string, keyName: string)
    | Vpc(name: string)
    | VpcGroup(rules: seq<Rule>)
    | ResourceGroup(name: string)
    | InternetGateway(name: string)
    | RouteTable(name: string, gateway: string)
    | Subnet(name: string, cidr: string, zone: string)
    | SecurityGroup(name: string, cidr: string, rules: seq<Rule>)
    | RouteAssociation(name: string, subnetName: string, routeTable: string)
    | Asg(name: string, count: int, subnetNames: seq<string>, zones: seq<string>, launchConfig: string,
          mountEfs: bool, authorizedToEfs: bool)
    | LaunchConfig(name: string, groupNames: seq<string>, size: string, keyName: string)
    | Efs(name: string, targets: seq<Target>)

  datatype Target = Target(name: string, subnetName: string, zone: string)

  // ---------- rules ----------

  /** The five fields on which rules are compared, case aside. */
  datatype RuleKey = RuleKey(direction: string, protocol: string, port: Port, source: string, destination: string)

  function LowerPort(p: Port): Port {
    match p
    case Text(s) => Text(Lower(s))
    case Number(_) => p
  }

  function KeyOf(r: Rule): RuleKey {
    RuleKey(Lower(r.direction), Lower(r.protocol), LowerPort(r.port), Lower(r.source), Lower(r.destination))
  }

  predicate RuleExists(rules: seq<Rule>, rule: Rule) {
    exists i :: 0 <= i < |rules| && KeyOf(rules[i]) == KeyOf(rule)
  }

  /** The rules after the first `n` of `more` have been offered, each added unless an equal one is there. */
  function AddRules(rules: seq<Rule>, more: seq<Rule>, n: nat): (r: seq<Rule>)
    requires n <= |more|
  {
    if n == 0 then rules
    else
      var done := AddRules(rules, more, n - 1);
      if RuleExists(done, more[n - 1]) then done else done + [more[n - 1]]
  }

  /** A search that compares these two rules calls `lower` on a port that is no text. */
  predicate Clash(a: Rule, b: Rule) {
    && Lower(a.direction) == Lower(b.direction) && Lower(a.protocol) == Lower(b.protocol)
    && (a.port.Number? || b.port.Number?)
  }

  /** The search for a rule comes to a port that is no text before it comes to an equal rule. */
  predicate SearchRaises(rules: seq<Rule>, rule: Rule) {
    exists i :: 0 <= i < |rules| && Clash(rules[i], rule) && NoneEqual(rules, rule, i)
  }

  predicate NoneEqual(rules: seq<Rule>, rule: Rule, n: nat)
    requires n <= |rules|
  {
    forall j :: 0 <= j < n ==> KeyOf(rules[j]) != KeyOf(rule)
  }

  /** Offering the first `n` of `more` ends with an error in one of the searches. */
  predicate OfferRaises(rules: seq<Rule>, more: seq<Rule>, n: nat)
    requires n <= |more|
  {
    exists k :: 0 <= k < n && SearchRaises(AddRules(rules, more, k), more[k])
  }

  // ---------- names ----------

  function SubnetName(m: Model, key: string, index: nat): string {
    IndexedName(m.prefix, m.cluster, "subnet", key, index)
  }

  function GroupName(m: Model, key: string, index: nat): string {
    IndexedName(m.prefix, m.cluster, "security-group", key, index)
  }

  function AssociationName(m: Model, key: string, index: nat): string {
    NumberedName(m.prefix, m.cluster, "route-association", key, index)
  }

  function AsgName(m: Model, key: string): string {
    IndexedName(m.prefix, m.cluster, "asg", key, 0)
  }

  function LaunchConfigName(m: Model, key: string): string {
    ResourceName(m.prefix, m.cluster, "launch-config", Some(key))
  }

  function RouteTableName(m: Model): string {
    ResourceName(m.prefix, m.cluster, "route-table", None)
  }

  // ---------- queries ----------

  /** select_first over subnets with a CIDR: their position. */
  function FirstSubnet(docs: seq<Doc>, cidr: string): (r: Option<nat>)
    ensures r.Some? ==> r.value < |docs| && docs[r.value].Subnet? && docs[r.value].cidr == cidr
    ensures r.None? ==> forall i :: 0 <= i < |docs| && docs[i].Subnet? ==> docs[i].cidr != cidr
  {
    if docs == [] then None
    else if docs[0].Subnet? && docs[0].cidr == cidr then Some(0)
    else
      match FirstSubnet(docs[1..], cidr)
      case None => None
      case Some(i) => Some(i + 1)
  }

  /** select_first over security groups with a CIDR: their position. */
  function FirstGroup(docs: seq<Doc>, cidr: string): (r: Option<nat>)
    ensures r.Some? ==> r.value < |docs| && docs[r.value].SecurityGroup? && docs[r.value].cidr == cidr
    ensures r.None? ==> forall i :: 0 <= i < |docs| && docs[i].SecurityGroup? ==> docs[i].cidr != cidr
  {
    if docs == [] then None
    else if docs[0].SecurityGroup? && docs[0].cidr == cidr then Some(0)
    else
      match FirstGroup(docs[1..], cidr)
      case None => None
      case Some(i) => Some(i + 1)
  }

  // ---------- one component ----------

  /** Where the loop over a component's subnets stands. */
  datatype Walk = Walk(docs: seq<Doc>, subnets: seq<Doc>, next: nat)

  /** One subnet definition: reuse the subnet of its CIDR or create subnet, group and association. */
  function WalkSubnet(m: Model, key: string, w: Walk, def: SubnetDef): Walk {
    match FirstSubnet(w.docs, def.addressPool)
    case Some(i) => w.(subnets := w.subnets + [w.docs[i]])
    case None =>
      var subnet := Subnet(SubnetName(m, key, w.next), def.addressPool, def.zone);
      var group := SecurityGroup(GroupName(m, key, w.next), def.addressPool, m.groupRules);
      var association := RouteAssociation(AssociationName(m, key, w.next), subnet.name, RouteTableName(m));
      Walk(w.docs + [subnet, group, association], w.subnets + [subnet], w.next + 1)
  }

  function WalkSubnets(m: Model, key: string, docs: seq<Doc>, defs: seq<SubnetDef>, n: nat): (w: Walk)
    requires n <= |defs|
    ensures |w.subnets| == n && forall i :: 0 <= i < n ==>
        w.subnets[i].Subnet? && w.subnets[i].cidr == defs[i].addressPool
  {
    if n == 0 then Walk(docs, [], 0) else WalkSubnet(m, key, WalkSubnets(m, key, docs, defs, n - 1), defs[n - 1])
  }

  /** The rules of a component offered to the group of one CIDR. */
  function OfferRules(docs: seq<Doc>, cidr: string, rules: seq<Rule>): (r: seq<Doc>)
    ensures |r| == |docs|
  {
    match FirstGroup(docs, cidr)
    case None => docs
    case Some(g) => docs[g := docs[g].(rules := AddRules(docs[g].rules, rules, |rules|))]
  }

  function OfferAll(docs: seq<Doc>, defs: seq<SubnetDef>, rules: seq<Rule>, n: nat): (r: seq<Doc>)
    requires n <= |defs|
    ensures |r| == |docs|
  {
    if n == 0 then docs else OfferRules(OfferAll(docs, defs, rules, n - 1), defs[n - 1].addressPool, rules)
  }

  /** The rules of the group of a CIDR. */
  function RulesAt(docs: seq<Doc>, cidr: string): seq<Rule> {
    match FirstGroup(docs, cidr)
    case None => []
    case Some(g) => docs[g].rules
  }

  /** Offering a component's rules to the groups of its first `n` definitions ends with an error. */
  predicate OfferAllRaises(docs: seq<Doc>, defs: seq<SubnetDef>, rules: seq<Rule>, n: nat)
    requires n <= |defs|
  {
    exists i :: 0 <= i < n && OfferRaises(RulesAt(OfferAll(docs, defs, rules, i), defs[i].addressPool), rules, |rules|)
  }

  function GroupNameAt(docs: seq<Doc>, cidr: string): string {
    match FirstGroup(docs, cidr)
    case None => ""
    case Some(g) => docs[g].name
  }

  function GroupNames(docs: seq<Doc>, defs: seq<SubnetDef>): seq<string> {
    seq(|defs|, i requires 0 <= i < |defs| => GroupNameAt(docs, defs[i].addressPool))
  }

  function NamesOf(subnets: seq<Doc>): seq<string>
    requires forall i :: 0 <= i < |subnets| ==> subnets[i].Subnet?
  {
    seq(|subnets|, i requires 0 <= i < |subnets| => subnets[i].name)
  }

  function ZonesOf(subnets: seq<Doc>): seq<string>
    requires forall i :: 0 <= i < |subnets| ==> subnets[i].Subnet?
  {
    seq(|subnets|, i requires 0 <= i < |subnets| => subnets[i].zone)
  }

  /** One mount target per availability zone, the first subnet seen in it. */
  function MountTargets(targets: seq<Target>, subnets: seq<Doc>, n: nat): seq<Target>
    requires n <= |subnets| && forall i :: 0 <= i < |subnets| ==> subnets[i].Subnet?
  {
    if n == 0 then targets
    else
      var done := MountTargets(targets, subnets, n - 1);
      var s := subnets[n - 1];
      if exists i :: 0 <= i < |done| && done[i].zone == s.zone then done
      else done + [Target("efs-" + s.name + "-mount", s.name, s.zone)]
  }

  datatype Plan = Plan(docs: seq<Doc>, targets: seq<Target>)

  function AddComponent(m: Model, p: Plan, c: Component): Plan {
    if c.count < 1 then p
    else
      var w := WalkSubnets(m, c.key, p.docs, c.subnets, |c.subnets|);
      var docs := OfferAll(w.docs, c.subnets, c.vm.rules, |c.subnets|);
      var asg := Asg(AsgName(m, c.key), c.count, NamesOf(w.subnets), ZonesOf(w.subnets), LaunchConfigName(m, c.key),
                     c.vm.mountEfs, c.vm.authorizedToEfs);
      var launch := LaunchConfig(LaunchConfigName(m, c.key), GroupNames(docs, c.subnets), c.vm.size, m.keyName);
      Plan(docs + [asg, launch],
           if c.vm.mountEfs then MountTargets(p.targets, w.subnets, |w.subnets|) else p.targets)
  }

  /** Adding the component ends with an error of the rule search. */
  predicate ComponentRaises(m: Model, p: Plan, c: Component) {
    && c.count >= 1
    && OfferAllRaises(WalkSubnets(m, c.key, p.docs, c.subnets, |c.subnets|).docs, c.subnets, c.vm.rules, |c.subnets|)
  }

  function Header(m: Model): (r: seq<Doc>)
    ensures |r| == 6 && r[2] == VpcGroup(m.vpcRules)
    ensures forall i :: 0 <= i < |r| ==>
        !r[i].Subnet? && !r[i].SecurityGroup? && !r[i].RouteAssociation? && !r[i].Asg? && !r[i].LaunchConfig?
  {
    [PublicKey(m.userName, m.keyName),
     Vpc(ResourceName(m.prefix, m.cluster, "vpc", None)),
     VpcGroup(m.vpcRules),
     ResourceGroup(ResourceName(m.prefix, m.cluster, "rg", None)),
     InternetGateway(ResourceName(m.prefix, m.cluster, "internet-gateway", None)),
     RouteTable(RouteTableName(m), ResourceName(m.prefix, m.cluster, "internet-gateway", None))]
  }

  /** The plan after the first `n` components, when no rule search has ended with an error. */
  function Components(m: Model, n: nat): Plan
    requires n <= |m.components|
  {
    if n == 0 then Plan(Header(m), []) else AddComponent(m, Components(m, n - 1), m.components[n - 1])
  }

  /** A rule search ends with an error while the first `n` components are added. */
  predicate Raises(m: Model, n: nat)
    requires n <= |m.components|
  {
    exists i :: 0 <= i < n && ComponentRaises(m, Components(m, i), m.components[i])
  }

  // ---------- the file system step ----------

  datatype PlanError = PortNotText | NotSingle(name: string, count: nat)

  /** select_single over subnets by name. */
  function SubnetsNamed(docs: seq<Doc>, name: string): seq<Doc> {
    if docs == [] then []
    else if docs[0].Subnet? && docs[0].name == name then [docs[0]] + SubnetsNamed(docs[1..], name)
    else SubnetsNamed(docs[1..], name)
  }

  function SingleSubnet(docs: seq<Doc>, name: string): (r: Result<Doc, PlanError>)
    ensures r.Success? ==> r.value.Subnet?
  {
    var found := SubnetsNamed(docs, name);
    if |found| == 1 then FoundIsSubnet(docs, name); Success(found[0]) else Failure(NotSingle(name, |found|))
  }

  lemma FoundIsSubnet(docs: seq<Doc>, name: string)
    ensures forall i :: 0 <= i < |SubnetsNamed(docs, name)| ==>
              SubnetsNamed(docs, name)[i] in docs && SubnetsNamed(docs, name)[i].Subnet?
                  && SubnetsNamed(docs, name)[i].name == name
  {
  }

  /** The rule added for one subnet of an authorized group; its port is text. */
  function NfsRule(subnet: Doc): Rule
    requires subnet.Subnet?
  {
    Rule("sg-rule-nfs-default-from-" + subnet.name, "NFS inbound for " + subnet.name, "ingress", "tcp", Text("2049"),
         subnet.cidr, "*")
  }

  /** The search for a rule that lets a CIDR in already: it compares the port with the number. */
  predicate OpenTo(rules: seq<Rule>, cidr: string) {
    exists i :: 0 <= i < |rules| && rules[i].source == cidr && rules[i].port == Number(2049)
  }

  /** The rules after the first `n` subnets of one authorized group. */
  function NfsRulesFor(rules: seq<Rule>, docs: seq<Doc>, names: seq<string>, n: nat): Result<seq<Rule>, PlanError>
    requires n <= |names|
  {
    if n == 0 then Success(rules)
    else
      var done :- NfsRulesFor(rules, docs, names, n - 1);
      var subnet :- SingleSubnet(docs, names[n - 1]);
      Success(if OpenTo(done, subnet.cidr) then done else done + [NfsRule(subnet)])
  }

  /** The rules after the authorized groups among the first `n` documents. */
  function NfsRules(rules: seq<Rule>, docs: seq<Doc>, n: nat): Result<seq<Rule>, PlanError>
    requires n <= |docs|
  {
    if n == 0 then Success(rules)
    else
      var done :- NfsRules(rules, docs, n - 1);
      var d := docs[n - 1];
      if d.Asg? && d.authorizedToEfs then NfsRulesFor(done, docs, d.subnetNames, |d.subnetNames|) else Success(done)
  }

  /** The whole run. */
  function Build(m: Model): Result<seq<Doc>, PlanError> {
    var p := Components(m, |m.components|);
    if Raises(m, |m.components|) then Failure(PortNotText)
    else if p.targets == [] then Success(p.docs)
    else
      var docs := p.docs + [Efs(ResourceName(m.prefix, m.cluster, "efs", None), p.targets)];
      PlanKeepsHeader(m, |m.components|);
      var rules :- NfsRules(docs[2].rules, docs, |docs|);
      Success(docs[2 := VpcGroup(rules)])
  }

  lemma {:induction false} WalkKeepsPrefix(m: Model, key: string, docs: seq<Doc>, defs: seq<SubnetDef>, n: nat)
    requires n <= |defs|
    ensures docs <= WalkSubnets(m, key, docs, defs, n).docs
  {
    if n != 0 {
      WalkKeepsPrefix(m, key, docs, defs, n - 1);
    }
  }

  /** Offering rules changes only the rules of security groups. */
  lemma {:induction false} OfferKeepsOthers(docs: seq<Doc>, defs: seq<SubnetDef>, rules: seq<Rule>, n: nat)
    requires n <= |defs|
    ensures forall i :: 0 <= i < |docs| ==>
              var d := OfferAll(docs, defs, rules, n)[i];
              if docs[i].SecurityGroup? then d.SecurityGroup? && d.name == docs[i].name && d.cidr == docs[i].cidr
                  else d == docs[i]
  {
    if n != 0 {
      OfferKeepsOthers(docs, defs, rules, n - 1);
    }
  }

  lemma {:induction false} PlanKeepsHeader(m: Model, n: nat)
    requires n <= |m.components|
    ensures |Components(m, n).docs| >= 6 && Components(m, n).docs[2] == VpcGroup(m.vpcRules)
  {
    if n != 0 {
      PlanKeepsHeader(m, n - 1);
      var p, c := Components(m, n - 1), m.components[n - 1];
      if c.count >= 1 {
        WalkKeepsPrefix(m, c.key, p.docs, c.subnets, |c.subnets|);
        OfferKeepsOthers(WalkSubnets(m, c.key, p.docs, c.subnets, |c.subnets|).docs, c.subnets, c.vm.rules,
                         |c.subnets|);
      }
    }
  }
}
