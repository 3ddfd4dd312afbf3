/** What holds of every AWS plan: one subnet, group and association per CIDR, closed references, merged rules. */
module AwsLaws {
  import opened Results
  import opened Naming
  import opened AwsPlan

  // ---------- the plan's subnets, groups and associations are those of its creations ----------

  /** The first use of a CIDR: by which component, and as which of its own creations. */
  datatype Creation = Creation(key: string, index: nat, cidr: string, zone: string)

  predicate HasCidr(cs: seq<Creation>, cidr: string) {
    exists i :: 0 <= i < |cs| && cs[i].cidr == cidr
  }

  function CreationsOf(before: seq<Creation>, key: string, defs: seq<SubnetDef>, n: nat): (r: seq<Creation>)
    requires n <= |defs|
    ensures |before| <= |r|
  {
    if n == 0 then before
    else
      var done := CreationsOf(before, key, defs, n - 1);
      var d := defs[n - 1];
      if HasCidr(done, d.addressPool) then done
      else done + [Creation(key, |done| - |before|, d.addressPool, d.zone)]
  }

  /** First uses of CIDRs by the enabled components among the first `n`. */
  function Creations(m: Model, n: nat): seq<Creation>
    requires n <= |m.components|
  {
    if n == 0 then []
    else
      var done := Creations(m, n - 1);
      var c := m.components[n - 1];
      if c.count < 1 then done else CreationsOf(done, c.key, c.subnets, |c.subnets|)
  }

  function SubnetsIn(docs: seq<Doc>): (r: seq<Doc>)
    ensures forall i :: 0 <= i < |r| ==> r[i].Subnet?
  {
    if docs == [] then []
    else if docs[|docs| - 1].Subnet? then SubnetsIn(docs[..|docs| - 1]) + [docs[|docs| - 1]]
    else SubnetsIn(docs[..|docs| - 1])
  }

  function GroupsIn(docs: seq<Doc>): (r: seq<Doc>)
    ensures forall i :: 0 <= i < |r| ==> r[i].SecurityGroup?
  {
    if docs == [] then []
    else if docs[|docs| - 1].SecurityGroup? then GroupsIn(docs[..|docs| - 1]) + [docs[|docs| - 1]]
    else GroupsIn(docs[..|docs| - 1])
  }

  function AssociationsIn(docs: seq<Doc>): (r: seq<Doc>)
    ensures forall i :: 0 <= i < |r| ==> r[i].RouteAssociation?
  {
    if docs == [] then []
    else if docs[|docs| - 1].RouteAssociation? then AssociationsIn(docs[..|docs| - 1]) + [docs[|docs| - 1]]
    else AssociationsIn(docs[..|docs| - 1])
  }

  lemma {:induction false} InAppend(a: seq<Doc>, b: seq<Doc>)
    ensures SubnetsIn(a + b) == SubnetsIn(a) + SubnetsIn(b)
    ensures GroupsIn(a + b) == GroupsIn(a) + GroupsIn(b)
    ensures AssociationsIn(a + b) == AssociationsIn(a) + AssociationsIn(b)
  {
    if b == [] {
      assert a + b == a;
    } else {
      assert (a + b)[..|a + b| - 1] == a + b[..|b| - 1];
      InAppend(a, b[..|b| - 1]);
    }
  }

  function SubnetOf(m: Model, c: Creation): Doc {
    Subnet(SubnetName(m, c.key, c.index), c.cidr, c.zone)
  }

  function AssociationOf(m: Model, c: Creation): Doc {
    RouteAssociation(AssociationName(m, c.key, c.index), SubnetName(m, c.key, c.index), RouteTableName(m))
  }

  /**
   * The subnets, security groups and route associations of a plan, in order, are one of each per
   * creation; only the rules of the groups are left open.
   */
  ghost predicate Shaped(m: Model, docs: seq<Doc>, cs: seq<Creation>) {
    && |SubnetsIn(docs)| == |GroupsIn(docs)| == |AssociationsIn(docs)| == |cs|
    && (forall i :: 0 <= i < |cs| ==> SubnetsIn(docs)[i] == SubnetOf(m, cs[i]))
    && (forall i :: 0 <= i < |cs| ==>
          GroupsIn(docs)[i].name == GroupName(m, cs[i].key, cs[i].index) && GroupsIn(docs)[i].cidr == cs[i].cidr)
    && (forall i :: 0 <= i < |cs| ==> AssociationsIn(docs)[i] == AssociationOf(m, cs[i]))
  }

  lemma {:induction false} SubnetListed(docs: seq<Doc>, i: nat) returns (k: nat)
    requires i < |docs| && docs[i].Subnet?
    ensures k < |SubnetsIn(docs)| && SubnetsIn(docs)[k] == docs[i]
  {
    if i == |docs| - 1 {
      k := |SubnetsIn(docs)| - 1;
    } else {
      k := SubnetListed(docs[..|docs| - 1], i);
    }
  }

  lemma {:induction false} ListedSubnet(docs: seq<Doc>, k: nat) returns (i: nat)
    requires k < |SubnetsIn(docs)|
    ensures i < |docs| && docs[i] == SubnetsIn(docs)[k]
  {
    if docs[|docs| - 1].Subnet? && k == |SubnetsIn(docs)| - 1 {
      i := |docs| - 1;
    } else {
      i := ListedSubnet(docs[..|docs| - 1], k);
    }
  }

  lemma {:induction false} GroupListed(docs: seq<Doc>, i: nat) returns (k: nat)
    requires i < |docs| && docs[i].SecurityGroup?
    ensures k < |GroupsIn(docs)| && GroupsIn(docs)[k] == docs[i]
  {
    if i == |docs| - 1 {
      k := |GroupsIn(docs)| - 1;
    } else {
      k := GroupListed(docs[..|docs| - 1], i);
    }
  }

  lemma {:induction false} ListedGroup(docs: seq<Doc>, k: nat) returns (i: nat)
    requires k < |GroupsIn(docs)|
    ensures i < |docs| && docs[i] == GroupsIn(docs)[k]
  {
    if docs[|docs| - 1].SecurityGroup? && k == |GroupsIn(docs)| - 1 {
      i := |docs| - 1;
    } else {
      i := ListedGroup(docs[..|docs| - 1], k);
    }
  }

  /** The builder's search by CIDR succeeds exactly on the CIDRs created so far. */
  lemma FoundWhenCreated(m: Model, docs: seq<Doc>, cs: seq<Creation>, cidr: string)
    requires Shaped(m, docs, cs)
    ensures FirstSubnet(docs, cidr).Some? <==> HasCidr(cs, cidr)
    ensures FirstGroup(docs, cidr).Some? <==> HasCidr(cs, cidr)
  {
    var s, g := FirstSubnet(docs, cidr), FirstGroup(docs, cidr);
    if s.Some? {
      var k := SubnetListed(docs, s.value);
      assert cs[k].cidr == cidr;
    }
    if g.Some? {
      var k := GroupListed(docs, g.value);
      assert cs[k].cidr == cidr;
    }
    if HasCidr(cs, cidr) {
      var k :| 0 <= k < |cs| && cs[k].cidr == cidr;
      var i := ListedSubnet(docs, k);
      var j := ListedGroup(docs, k);
    }
  }

  lemma {:induction false} WalkShaped(m: Model, key: string, docs: seq<Doc>, cs: seq<Creation>, defs: seq<SubnetDef>,
                                      n: nat)
    requires n <= |defs| && Shaped(m, docs, cs)
    ensures var w := WalkSubnets(m, key, docs, defs, n);
            var after := CreationsOf(cs, key, defs, n);
            Shaped(m, w.docs, after) && w.next == |after| - |cs|
  {
    hide Shaped, FirstSubnet, FirstGroup, HasCidr, SubnetName, GroupName, AssociationName, RouteTableName;
    if n != 0 {
      WalkShaped(m, key, docs, cs, defs, n - 1);
      var w, done := WalkSubnets(m, key, docs, defs, n - 1), CreationsOf(cs, key, defs, n - 1);
      FoundWhenCreated(m, w.docs, done, defs[n - 1].addressPool);
      if !HasCidr(done, defs[n - 1].addressPool) {
        TripleShaped(m, key, w, done, defs[n - 1], |cs|);
      }
    }
  }

  lemma TripleListed(docs: seq<Doc>, s: Doc, g: Doc, a: Doc)
    requires s.Subnet? && g.SecurityGroup? && a.RouteAssociation?
    ensures SubnetsIn(docs + [s, g, a]) == SubnetsIn(docs) + [s]
    ensures GroupsIn(docs + [s, g, a]) == GroupsIn(docs) + [g]
    ensures AssociationsIn(docs + [s, g, a]) == AssociationsIn(docs) + [a]
  {
    hide SubnetsIn, GroupsIn, AssociationsIn;
    assert docs + [s, g, a] == docs + [s] + [g] + [a];
    InAppend(docs + [s] + [g], [a]);
    InAppend(docs + [s], [g]);
    InAppend(docs, [s]);
    OneListed(s);
    OneListed(g);
    OneListed(a);
  }

  lemma TripleShaped(m: Model, key: string, w: Walk, cs: seq<Creation>, d: SubnetDef, from: nat)
    requires Shaped(m, w.docs, cs) && from <= |cs| && w.next == |cs| - from && FirstSubnet(w.docs, d.addressPool).None?
    ensures Shaped(m, WalkSubnet(m, key, w, d).docs, cs + [Creation(key, w.next, d.addressPool, d.zone)])
  {
    hide SubnetsIn, GroupsIn, AssociationsIn, SubnetName, GroupName, AssociationName, RouteTableName;
    var c := Creation(key, w.next, d.addressPool, d.zone);
    TripleListed(w.docs, SubnetOf(m, c), SecurityGroup(GroupName(m, key, w.next), c.cidr, m.groupRules),
                 AssociationOf(m, c));
  }

  lemma OneListed(d: Doc)
    ensures SubnetsIn([d]) == if d.Subnet? then [d] else []
    ensures GroupsIn([d]) == if d.SecurityGroup? then [d] else []
    ensures AssociationsIn([d]) == if d.RouteAssociation? then [d] else []
  {
    assert [d][..0] == [];
  }

  /** The same document, the rules of a group aside. */
  predicate SameButItsRules(d: Doc, d': Doc) {
    match d
    case SecurityGroup(name, cidr, _) => d'.SecurityGroup? && d'.name == name && d'.cidr == cidr
    case VpcGroup(_) => d'.VpcGroup?
    case _ => d' == d
  }

  /** Two plans that differ in the rules of groups only. */
  ghost predicate SameButRules(docs: seq<Doc>, docs': seq<Doc>) {
    |docs| == |docs'| && forall i :: 0 <= i < |docs| ==> SameButItsRules(docs[i], docs'[i])
  }

  lemma {:induction false} SameButRulesIn(docs: seq<Doc>, docs': seq<Doc>)
    requires SameButRules(docs, docs')
    ensures SubnetsIn(docs) == SubnetsIn(docs') && AssociationsIn(docs) == AssociationsIn(docs')
    ensures |GroupsIn(docs)| == |GroupsIn(docs')|
    ensures forall i :: 0 <= i < |GroupsIn(docs)| ==>
              GroupsIn(docs)[i].name == GroupsIn(docs')[i].name && GroupsIn(docs)[i].cidr == GroupsIn(docs')[i].cidr
  {
    if docs != [] {
      SameButRulesIn(docs[..|docs| - 1], docs'[..|docs| - 1]);
    }
  }

  /** Main shape result: after any number of components, one subnet, group and association per creation. */
  lemma {:induction false} PlanShaped(m: Model, n: nat)
    requires n <= |m.components|
    ensures Shaped(m, Components(m, n).docs, Creations(m, n))
  {
    if n == 0 {
      HeaderHasNone(m);
    } else {
      PlanShaped(m, n - 1);
      var p, c := Components(m, n - 1), m.components[n - 1];
      if c.count >= 1 {
        ComponentShaped(m, p, Creations(m, n - 1), c);
      }
    }
  }

  lemma ComponentShaped(m: Model, p: Plan, cs: seq<Creation>, c: Component)
    requires Shaped(m, p.docs, cs) && c.count >= 1
    ensures Shaped(m, AddComponent(m, p, c).docs, CreationsOf(cs, c.key, c.subnets, |c.subnets|))
  {
    hide SubnetsIn, GroupsIn, AssociationsIn, Shaped, CreationsOf, WalkSubnets, OfferAll, SameButRules;
    var k := |c.subnets|;
    WalkShaped(m, c.key, p.docs, cs, c.subnets, k);
    var w := WalkSubnets(m, c.key, p.docs, c.subnets, k);
    var docs := OfferAll(w.docs, c.subnets, c.vm.rules, k);
    OfferedSameButRules(w.docs, c.subnets, c.vm.rules);
    SameButRulesIn(w.docs, docs);
    TailAdded(m, p, c);
    var tail := AddComponent(m, p, c).docs[|docs|..];
    InAppend(docs, tail);
    NoneListed(tail);
    SameShape(m, w.docs, docs + tail, CreationsOf(cs, c.key, c.subnets, k));
  }

  lemma OfferedSameButRules(docs: seq<Doc>, defs: seq<SubnetDef>, rules: seq<Rule>)
    ensures SameButRules(docs, OfferAll(docs, defs, rules, |defs|))
  {
    OfferKeepsOthers(docs, defs, rules, |defs|);
  }

  lemma SameShape(m: Model, docs: seq<Doc>, docs': seq<Doc>, cs: seq<Creation>)
    requires Shaped(m, docs, cs) && SubnetsIn(docs') == SubnetsIn(docs) && AssociationsIn(docs') == AssociationsIn(docs)
    requires |GroupsIn(docs)| == |GroupsIn(docs')|
    requires forall i :: 0 <= i < |GroupsIn(docs)| ==>
               GroupsIn(docs)[i].name == GroupsIn(docs')[i].name && GroupsIn(docs)[i].cidr == GroupsIn(docs')[i].cidr
    ensures Shaped(m, docs', cs)
  {
    hide SubnetsIn, GroupsIn, AssociationsIn, SubnetName, GroupName, AssociationName, RouteTableName;
  }

  /** The last two documents of a component. */
  lemma TailAdded(m: Model, p: Plan, c: Component)
    requires c.count >= 1
    ensures var docs := OfferAll(WalkSubnets(m, c.key, p.docs, c.subnets, |c.subnets|).docs, c.subnets, c.vm.rules,
                                 |c.subnets|);
            var r := AddComponent(m, p, c).docs;
            && |r| == |docs| + 2 && r == docs + r[|docs|..]
            && r[|docs|].Asg? && r[|docs| + 1].LaunchConfig?
  {
  }

  lemma HeaderHasNone(m: Model)
    ensures SubnetsIn(Header(m)) == [] && GroupsIn(Header(m)) == [] && AssociationsIn(Header(m)) == []
  {
    NoneListed(Header(m));
  }

  lemma {:induction false} NoneListed(docs: seq<Doc>)
    requires forall i :: 0 <= i < |docs| ==> !docs[i].Subnet? && !docs[i].SecurityGroup? && !docs[i].RouteAssociation?
    ensures SubnetsIn(docs) == [] && GroupsIn(docs) == [] && AssociationsIn(docs) == []
  {
    if docs != [] {
      NoneListed(docs[..|docs| - 1]);
    }
  }

  // ---------- creations are pairwise different ----------

  /** No two components have the same name up to case and dashes. */
  predicate DistinctKeys(m: Model) {
    forall i, j :: 0 <= i < j < |m.components| ==> Norm(m.components[i].key) != Norm(m.components[j].key)
  }

  ghost predicate CidrsDistinct(cs: seq<Creation>) {
    forall i, j :: 0 <= i < j < |cs| ==> cs[i].cidr != cs[j].cidr
  }

  /** No two creations share component and index. */
  ghost predicate OriginsDistinct(cs: seq<Creation>) {
    forall i, j :: 0 <= i < j < |cs| ==> Norm(cs[i].key) != Norm(cs[j].key) || cs[i].index != cs[j].index
  }

  lemma {:induction false} CidrsStayDistinct(cs: seq<Creation>, key: string, defs: seq<SubnetDef>, n: nat)
    requires n <= |defs| && CidrsDistinct(cs)
    ensures CidrsDistinct(CreationsOf(cs, key, defs, n))
  {
    if n != 0 {
      CidrsStayDistinct(cs, key, defs, n - 1);
    }
  }

  /** The creations of one component follow the earlier ones and are numbered from zero. */
  lemma {:induction false} CreationsNumbered(cs: seq<Creation>, key: string, defs: seq<SubnetDef>, n: nat)
    requires n <= |defs|
    ensures var r := CreationsOf(cs, key, defs, n);
            && cs <= r
            && forall i :: |cs| <= i < |r| ==> r[i].key == key && r[i].index == i - |cs|
  {
    if n != 0 {
      CreationsNumbered(cs, key, defs, n - 1);
    }
  }

  lemma {:induction false} CreationKeys(m: Model, n: nat, i: nat) returns (k: nat)
    requires n <= |m.components| && i < |Creations(m, n)|
    ensures k < n && m.components[k].key == Creations(m, n)[i].key
  {
    var c := m.components[n - 1];
    var before := Creations(m, n - 1);
    if c.count >= 1 {
      CreationsNumbered(before, c.key, c.subnets, |c.subnets|);
    }
    if i < |before| {
      k := CreationKeys(m, n - 1, i);
    } else {
      k := n - 1;
    }
  }

  lemma {:induction false} CreationsDistinct(m: Model, n: nat)
    requires n <= |m.components|
    ensures CidrsDistinct(Creations(m, n))
    ensures DistinctKeys(m) ==> OriginsDistinct(Creations(m, n))
  {
    if n != 0 {
      CreationsDistinct(m, n - 1);
      var c, before, r := m.components[n - 1], Creations(m, n - 1), Creations(m, n);
      if c.count >= 1 {
        CidrsStayDistinct(before, c.key, c.subnets, |c.subnets|);
        CreationsNumbered(before, c.key, c.subnets, |c.subnets|);
        if DistinctKeys(m) {
          forall i, j | 0 <= i < j < |r| ensures Norm(r[i].key) != Norm(r[j].key) || r[i].index != r[j].index {
            if i < |before| <= j {
              var k := CreationKeys(m, n - 1, i);
            }
          }
        }
      }
    }
  }

  // ---------- one group and one association for each subnet ----------

  lemma {:induction false} GroupsListedApart(docs: seq<Doc>, i: nat, j: nat) returns (k: nat, l: nat)
    requires i < j < |docs| && docs[i].SecurityGroup? && docs[j].SecurityGroup?
    ensures k < l < |GroupsIn(docs)| && GroupsIn(docs)[k] == docs[i] && GroupsIn(docs)[l] == docs[j]
  {
    var front := docs[..|docs| - 1];
    if j == |docs| - 1 {
      k := GroupListed(front, i);
      l := |GroupsIn(front)|;
    } else {
      k, l := GroupsListedApart(front, i, j);
    }
  }

  lemma {:induction false} AssociationListed(docs: seq<Doc>, i: nat) returns (k: nat)
    requires i < |docs| && docs[i].RouteAssociation?
    ensures k < |AssociationsIn(docs)| && AssociationsIn(docs)[k] == docs[i]
  {
    if i == |docs| - 1 {
      k := |AssociationsIn(docs)| - 1;
    } else {
      k := AssociationListed(docs[..|docs| - 1], i);
    }
  }

  lemma {:induction false} AssociationsListedApart(docs: seq<Doc>, i: nat, j: nat) returns (k: nat, l: nat)
    requires i < j < |docs| && docs[i].RouteAssociation? && docs[j].RouteAssociation?
    ensures k < l < |AssociationsIn(docs)| && AssociationsIn(docs)[k] == docs[i] && AssociationsIn(docs)[l] == docs[j]
  {
    var front := docs[..|docs| - 1];
    if j == |docs| - 1 {
      k := AssociationListed(front, i);
      l := |AssociationsIn(front)|;
    } else {
      k, l := AssociationsListedApart(front, i, j);
    }
  }

  lemma {:induction false} ListedAssociation(docs: seq<Doc>, k: nat) returns (i: nat)
    requires k < |AssociationsIn(docs)|
    ensures i < |docs| && docs[i] == AssociationsIn(docs)[k]
  {
    if docs[|docs| - 1].RouteAssociation? && k == |AssociationsIn(docs)| - 1 {
      i := |docs| - 1;
    } else {
      i := ListedAssociation(docs[..|docs| - 1], k);
    }
  }

  predicate IsGroupFor(d: Doc, subnet: Doc)
    requires subnet.Subnet?
  {
    d.SecurityGroup? && d.cidr == subnet.cidr
  }

  predicate Associates(d: Doc, subnet: Doc)
    requires subnet.Subnet?
  {
    d.RouteAssociation? && d.subnetName == subnet.name
  }

  /**
   * After any number of components each subnet has exactly one security group of its CIDR and a route association
   * naming it, and only one when component keys differ up to case and dashes.
   */
  lemma OneGroupEach(m: Model, n: nat, i: nat)
    requires n <= |m.components| && i < |Components(m, n).docs| && Components(m, n).docs[i].Subnet?
    ensures var docs := Components(m, n).docs;
            && (exists g :: 0 <= g < |docs| && IsGroupFor(docs[g], docs[i]))
            && (forall g, h :: 0 <= g < h < |docs| ==> !(IsGroupFor(docs[g], docs[i]) && IsGroupFor(docs[h], docs[i])))
            && (exists a :: 0 <= a < |docs| && Associates(docs[a], docs[i]))
            && (DistinctKeys(m) ==>
                  forall a, b :: 0 <= a < b < |docs| ==>
                      !(Associates(docs[a], docs[i]) && Associates(docs[b], docs[i])))
  {
    hide Components, Creations, SubnetsIn, GroupsIn, AssociationsIn, GroupName, AssociationName, RouteTableName,
         IndexedName;
    PlanShaped(m, n);
    CreationsDistinct(m, n);
    var docs, cs := Components(m, n).docs, Creations(m, n);
    var k := SubnetListed(docs, i);
    assert docs[i] == SubnetOf(m, cs[k]);
    var g := ListedGroup(docs, k);
    assert IsGroupFor(docs[g], docs[i]);
    var a := ListedAssociation(docs, k);
    assert Associates(docs[a], docs[i]);
    forall g, h | 0 <= g < h < |docs| ensures !(IsGroupFor(docs[g], docs[i]) && IsGroupFor(docs[h], docs[i])) {
      if IsGroupFor(docs[g], docs[i]) && IsGroupFor(docs[h], docs[i]) {
        var x, y := GroupsListedApart(docs, g, h);
      }
    }
    if DistinctKeys(m) {
      forall a, b | 0 <= a < b < |docs| ensures !(Associates(docs[a], docs[i]) && Associates(docs[b], docs[i])) {
        if Associates(docs[a], docs[i]) && Associates(docs[b], docs[i]) {
          var x, y := AssociationsListedApart(docs, a, b);
          IndexedNamesInjective(m.prefix, m.cluster, "subnet", cs[x].key, cs[x].index, cs[y].key, cs[y].index);
        }
      }
    }
  }
}
