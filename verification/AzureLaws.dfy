/** What holds of every Azure plan: machine counts, names, and the wiring of subnets and security groups. */
module AzureLaws {
  import opened Results
  import opened Naming
  import opened AzurePlan

  datatype Kind = Subnets | Nsgs | Associations | PublicIps | Nics | Vms | Others

  function KindOf(d: Doc): Kind {
    match d
    case Subnet(_, _) => Subnets
    case Nsg(_, _) => Nsgs
    case Association(_, _, _) => Associations
    case PublicIp(_) => PublicIps
    case Nic(_, _, _, _) => Nics
    case Vm(_, _, _, _) => Vms
    case _ => Others
  }

  function One(d: Doc, k: Kind): seq<Doc> {
    if KindOf(d) == k then [d] else []
  }

  function Pick(docs: seq<Doc>, k: Kind): seq<Doc> {
    if docs == [] then [] else Pick(docs[..|docs| - 1], k) + One(docs[|docs| - 1], k)
  }

  lemma {:induction false} PickIn(docs: seq<Doc>, k: Kind, d: Doc)
    ensures d in Pick(docs, k) <==> d in docs && KindOf(d) == k
  {
    if docs != [] {
      PickIn(docs[..|docs| - 1], k, d);
      assert docs == docs[..|docs| - 1] + [docs[|docs| - 1]];
    }
  }

  // ---------- the enabled components, and who makes which subnet ----------

  function Enabled(m: Model, n: nat): (r: seq<Component>)
    requires n <= |m.components|
    ensures forall i :: 0 <= i < |r| ==> r[i].count >= 1 && r[i] in m.components
  {
    if n == 0 then []
    else Enabled(m, n - 1) + if m.components[n - 1].count < 1 then [] else [m.components[n - 1]]
  }

  /** The address pool of a component: that of its first subnet definition. */
  function Pool(c: Component): string {
    if c.pools == [] then "" else c.pools[0]
  }

  /** The first component with an address pool; the number of components if there is none. */
  function First(cs: seq<Component>, pool: string): nat {
    if cs == [] then 0
    else
      var n := |cs| - 1;
      var f := First(cs[..n], pool);
      if f < n then f else if Pool(cs[n]) == pool then n else n + 1
  }

  lemma {:induction false} FirstIsFirst(cs: seq<Component>, pool: string)
    ensures var f := First(cs, pool);
            && f <= |cs|
            && (f < |cs| ==> Pool(cs[f]) == pool)
            && (forall j :: 0 <= j < f ==> Pool(cs[j]) != pool)
  {
    if cs != [] {
      FirstIsFirst(cs[..|cs| - 1], pool);
    }
  }

  lemma {:induction false} FirstInPrefix(cs: seq<Component>, n: nat, pool: string)
    requires n <= |cs|
    ensures First(cs[..n], pool) < n ==> First(cs, pool) == First(cs[..n], pool)
  {
    FirstIsFirst(cs[..n], pool);
    FirstIsFirst(cs, pool);
    if First(cs[..n], pool) < n {
      var f, g := First(cs[..n], pool), First(cs, pool);
      assert cs[..n][f] == cs[f];
      assert forall j :: 0 <= j < n ==> cs[..n][j] == cs[j];
    }
  }

  /** The last component makes the subnet of its pool, and with it a security group. */
  predicate LastMakes(cs: seq<Component>)
    requires cs != []
  {
    First(cs[..|cs| - 1], Pool(cs[|cs| - 1])) >= |cs| - 1
  }

  /** The last component that made a subnet. */
  function LastMaker(cs: seq<Component>): (r: nat)
    requires cs != []
    ensures r < |cs|
  {
    if LastMakes(cs) || |cs| == 1 then |cs| - 1 else LastMaker(cs[..|cs| - 1])
  }

  predicate Makes(cs: seq<Component>, i: nat)
    requires i < |cs|
  {
    First(cs, Pool(cs[i])) == i
  }

  lemma {:induction false} LastMakerIsLast(cs: seq<Component>)
    requires cs != []
    ensures Makes(cs, LastMaker(cs)) && forall j :: LastMaker(cs) < j < |cs| ==> !Makes(cs, j)
  {
    var n := |cs| - 1;
    var front := cs[..n];
    FirstIsFirst(front, Pool(cs[n]));
    if !LastMakes(cs) && |cs| > 1 {
      LastMakerIsLast(front);
      forall j | 0 <= j < n ensures Makes(cs, j) <==> Makes(front, j) {
        FirstIsFirst(front, Pool(cs[j]));
      }
    }
  }

  // ---------- the documents of a plan, kind by kind ----------

  /** A machine: the component it belongs to, among the enabled ones, and its index. */
  datatype Machine = Machine(at: nat, index: nat)

  function Batch(at: nat, n: nat): (r: seq<Machine>)
    ensures |r| == n && forall i :: 0 <= i < n ==> r[i] == Machine(at, i)
  {
    seq(n, i requires 0 <= i => Machine(at, i))
  }

  function MachineList(cs: seq<Component>): (r: seq<Machine>)
    requires forall i :: 0 <= i < |cs| ==> cs[i].count >= 1
    ensures forall k :: 0 <= k < |r| ==> r[k].at < |cs|
  {
    if cs == [] then [] else MachineList(cs[..|cs| - 1]) + Batch(|cs| - 1, cs[|cs| - 1].count)
  }

  function SubnetNameAt(m: Model, cs: seq<Component>, i: nat): string
    requires i < |cs|
  {
    FirstIsFirst(cs, Pool(cs[i]));
    Named(m, "subnet", cs[First(cs, Pool(cs[i]))].key, 0)
  }

  /** The security group at hand when component `i` is reached: the last one made by then. */
  function NsgNameAt(m: Model, cs: seq<Component>, i: nat): string
    requires i < |cs|
  {
    if m.useGroups then Named(m, "nsg", cs[LastMaker(cs[..i + 1])].key, 0) else ""
  }

  function NicAt(m: Model, cs: seq<Component>, x: Machine): Doc
    requires x.at < |cs|
  {
    var key := cs[x.at].key;
    Nic(Named(m, "nic", key, x.index), SubnetNameAt(m, cs, x.at), NsgNameAt(m, cs, x.at),
        if m.usePublicIps then Named(m, "pubip", key, x.index) else "")
  }

  function IpAt(m: Model, cs: seq<Component>, x: Machine): Doc
    requires x.at < |cs|
  {
    PublicIp(Named(m, "pubip", cs[x.at].key, x.index))
  }

  function SetNameOf(m: Model, c: Component): Option<string> {
    if c.availabilitySet.Some? && c.availabilitySet.value in m.sets then Some(SetName(m, c.availabilitySet.value))
        else None
  }

  function VmAt(m: Model, cs: seq<Component>, x: Machine): Doc
    requires x.at < |cs|
  {
    var c := cs[x.at];
    Vm(Named(m, "vm", c.key, x.index), Named(m, "nic", c.key, x.index), SetNameOf(m, c), c.vm.size)
  }

  function SubnetOf(m: Model, c: Component): Doc {
    Subnet(Named(m, "subnet", c.key, 0), Pool(c))
  }

  function NsgOf(m: Model, c: Component): Doc {
    Nsg(Named(m, "nsg", c.key, 0), c.vm.rules)
  }

  function AssociationOf(m: Model, c: Component): Doc {
    Association(Named(m, "ssga", c.key, 0), Named(m, "subnet", c.key, 0), Named(m, "nsg", c.key, 0))
  }

  /** The components that make a subnet, in order. */
  function Makers(cs: seq<Component>): seq<Component> {
    if cs == [] then [] else Makers(cs[..|cs| - 1]) + if LastMakes(cs) then [cs[|cs| - 1]] else []
  }

  function SubnetsOf(m: Model, makers: seq<Component>): seq<Doc> {
    seq(|makers|, i requires 0 <= i < |makers| => SubnetOf(m, makers[i]))
  }

  function NsgsOf(m: Model, makers: seq<Component>): seq<Doc> {
    if m.useGroups then seq(|makers|, i requires 0 <= i < |makers| => NsgOf(m, makers[i])) else []
  }

  function AssociationsOf(m: Model, makers: seq<Component>): seq<Doc> {
    if m.useGroups then seq(|makers|, i requires 0 <= i < |makers| => AssociationOf(m, makers[i])) else []
  }

  ghost predicate MachinesListed(m: Model, docs: seq<Doc>, cs: seq<Component>)
    requires forall i :: 0 <= i < |cs| ==> cs[i].count >= 1
  {
    var ms := MachineList(cs);
    && |Pick(docs, Nics)| == |Pick(docs, Vms)| == |ms|
    && (forall k :: 0 <= k < |ms| ==> Pick(docs, Nics)[k] == NicAt(m, cs, ms[k]))
    && (forall k :: 0 <= k < |ms| ==> Pick(docs, Vms)[k] == VmAt(m, cs, ms[k]))
    && IpsListed(m, docs, cs)
  }

  /** One public address for each machine, in the same order. */
  ghost predicate IpsListed(m: Model, docs: seq<Doc>, cs: seq<Component>)
    requires forall i :: 0 <= i < |cs| ==> cs[i].count >= 1
  {
    var ms := MachineList(cs);
    && |Pick(docs, PublicIps)| == (if m.usePublicIps then |ms| else 0)
    && forall k :: 0 <= k < |Pick(docs, PublicIps)| ==> Pick(docs, PublicIps)[k] == IpAt(m, cs, ms[k])
  }

  ghost predicate MakersListed(m: Model, docs: seq<Doc>, cs: seq<Component>) {
    var makers := Makers(cs);
    && Pick(docs, Subnets) == SubnetsOf(m, makers)
    && Pick(docs, Nsgs) == NsgsOf(m, makers)
    && Pick(docs, Associations) == AssociationsOf(m, makers)
  }

  ghost predicate SetsKnown(m: Model, docs: seq<Doc>) {
    forall i :: 0 <= i < |docs| && docs[i].AvailabilitySet? ==>
      docs[i].docName in m.sets && docs[i].name == SetName(m, docs[i].docName)
  }

  ghost predicate Listed(m: Model, w: Walk, cs: seq<Component>)
    requires forall i :: 0 <= i < |cs| ==> cs[i].count >= 1
  {
    && MachinesListed(m, w.docs, cs) && MakersListed(m, w.docs, cs) && SetsKnown(m, w.docs)
    && (m.useGroups ==> w.nsg == if cs == [] then None else Some(Named(m, "nsg", cs[LastMaker(cs)].key, 0)))
  }

  lemma {:induction false} FirstSubnetPicked(docs: seq<Doc>, pool: string)
    ensures FirstSubnet(docs, pool) == FirstSubnet(Pick(docs, Subnets), pool)
  {
    if docs != [] {
      var n := |docs| - 1;
      FirstSubnetPicked(docs[..n], pool);
      assert docs == docs[..n] + [docs[n]];
      FirstSubnetInAppend(docs[..n], [docs[n]], pool);
      if docs[n].Subnet? {
        FirstSubnetInAppend(Pick(docs[..n], Subnets), [docs[n]], pool);
      } else {
        assert Pick(docs, Subnets) == Pick(docs[..n], Subnets);
      }
    }
  }

  /** Searching the makers' subnets for a pool finds that of the first component with the pool. */
  lemma {:induction false} MakerFound(m: Model, cs: seq<Component>, pool: string)
    ensures First(cs, pool) <= |cs|
    ensures FirstSubnet(SubnetsOf(m, Makers(cs)), pool)
         == if First(cs, pool) < |cs| then Some(Named(m, "subnet", cs[First(cs, pool)].key, 0)) else None
  {
    hide Named;
    FirstIsFirst(cs, pool);
    if cs != [] {
      var n := |cs| - 1;
      var front := cs[..n];
      MakerFound(m, front, pool);
      FirstIsFirst(front, pool);
      if LastMakes(cs) {
        assert SubnetsOf(m, Makers(cs)) == SubnetsOf(m, Makers(front)) + [SubnetOf(m, cs[n])];
        FirstSubnetInAppend(SubnetsOf(m, Makers(front)), [SubnetOf(m, cs[n])], pool);
        assert FirstSubnet([SubnetOf(m, cs[n])], pool) ==
            if Pool(cs[n]) == pool then Some(Named(m, "subnet", cs[n].key, 0)) else None;
      } else {
        assert Makers(cs) == Makers(front);
      }
    }
  }

  // ---------- each component keeps the listing ----------

  lemma PickSnoc(docs: seq<Doc>, d: Doc, k: Kind)
    ensures Pick(docs + [d], k) == Pick(docs, k) + One(d, k)
  {
    assert (docs + [d])[..|docs|] == docs;
  }

  function NicOf(m: Model, c: Component, subnet: string, nsg: string, i: nat): Doc {
    Nic(Named(m, "nic", c.key, i), subnet, nsg, if m.usePublicIps then Named(m, "pubip", c.key, i) else "")
  }

  function VmOf(m: Model, c: Component, set': Option<string>, i: nat): Doc {
    Vm(Named(m, "vm", c.key, i), Named(m, "nic", c.key, i), set', c.vm.size)
  }

  function IpsBefore(m: Model, c: Component, i: nat): seq<Doc> {
    if m.usePublicIps then [PublicIp(Named(m, "pubip", c.key, i))] else []
  }

  /** What one machine adds of each kind. */
  function MachineAdded(m: Model, c: Component, subnet: string, nsg: string, set': Option<string>, i: nat, k: Kind)
    : seq<Doc>
  {
    match k
    case PublicIps => IpsBefore(m, c, i)
    case Nics => [NicOf(m, c, subnet, nsg, i)]
    case Vms => [VmOf(m, c, set', i)]
    case _ => []
  }

  lemma MachinePicked(m: Model, docs: seq<Doc>, c: Component, subnet: string, nsg: string, set': Option<string>, i: nat,
                      k: Kind)
    requires k != Others
    ensures Pick(docs + MachineDocs(m, c, subnet, nsg, set', i), k)
         == Pick(docs, k) + MachineAdded(m, c, subnet, nsg, set', i, k)
  {
    hide Named, Pick;
    var more := MachineDocs(m, c, subnet, nsg, set', i);
    var nic, vm := NicOf(m, c, subnet, nsg, i), VmOf(m, c, set', i);
    var ip := PublicIp(Named(m, "pubip", c.key, i));
    PickSnoc(docs, ip, k);
    var first := docs + IpsBefore(m, c, i);
    assert first == if m.usePublicIps then docs + [ip] else docs;
    assert docs + more == first + [nic] + [vm];
    PickSnoc(first, nic, k);
    PickSnoc(first + [nic], vm, k);
  }

  function NicsOf(m: Model, c: Component, subnet: string, nsg: string, n: nat): (r: seq<Doc>)
    ensures |r| == n && forall i :: 0 <= i < n ==> r[i] == NicOf(m, c, subnet, nsg, i)
  {
    if n == 0 then [] else NicsOf(m, c, subnet, nsg, n - 1) + [NicOf(m, c, subnet, nsg, n - 1)]
  }

  function VmsOf(m: Model, c: Component, set': Option<string>, n: nat): (r: seq<Doc>)
    ensures |r| == n && forall i :: 0 <= i < n ==> r[i] == VmOf(m, c, set', i)
  {
    if n == 0 then [] else VmsOf(m, c, set', n - 1) + [VmOf(m, c, set', n - 1)]
  }

  function IpsOf(m: Model, c: Component, n: nat): (r: seq<Doc>)
    ensures |r| == (if m.usePublicIps then n else 0)
    ensures forall i :: 0 <= i < |r| ==> r[i] == PublicIp(Named(m, "pubip", c.key, i))
  {
    if n == 0 then [] else IpsOf(m, c, n - 1) + IpsBefore(m, c, n - 1)
  }

  /** What machines add of each kind. */
  function MachinesAdded(m: Model, c: Component, subnet: string, nsg: string, set': Option<string>, n: nat, k: Kind)
    : seq<Doc>
  {
    match k
    case PublicIps => IpsOf(m, c, n)
    case Nics => NicsOf(m, c, subnet, nsg, n)
    case Vms => VmsOf(m, c, set', n)
    case _ => []
  }

  lemma AddedOneMore(m: Model, c: Component, subnet: string, nsg: string, set': Option<string>, n: nat, k: Kind)
    requires n > 0
    ensures MachinesAdded(m, c, subnet, nsg, set', n, k)
         == MachinesAdded(m, c, subnet, nsg, set', n - 1, k) + MachineAdded(m, c, subnet, nsg, set', n - 1, k)
  {
    hide NicOf, VmOf, IpsBefore;
  }

  lemma {:induction false} MachinesPickedOf(m: Model, docs: seq<Doc>, c: Component, subnet: string, nsg: string,
                                            set': Option<string>, n: nat, k: Kind)
    requires k != Others
    ensures Pick(docs + Machines(m, c, subnet, nsg, set', n), k) == Pick(docs, k)
        + MachinesAdded(m, c, subnet, nsg, set', n, k)
  {
    hide Pick, MachineDocs, MachineAdded, NicOf, VmOf;
    if n == 0 {
      assert docs + Machines(m, c, subnet, nsg, set', n) == docs;
    } else {
      MachinesPickedOf(m, docs, c, subnet, nsg, set', n - 1, k);
      var before := docs + Machines(m, c, subnet, nsg, set', n - 1);
      assert docs + Machines(m, c, subnet, nsg, set', n) == before + MachineDocs(m, c, subnet, nsg, set', n - 1);
      MachinePicked(m, before, c, subnet, nsg, set', n - 1, k);
      AddedOneMore(m, c, subnet, nsg, set', n, k);
    }
  }

  lemma MachinesPicked(m: Model, docs: seq<Doc>, c: Component, subnet: string, nsg: string, set': Option<string>,
                       n: nat)
    ensures var r := docs + Machines(m, c, subnet, nsg, set', n);
            && Pick(r, PublicIps) == Pick(docs, PublicIps) + IpsOf(m, c, n)
            && Pick(r, Nics) == Pick(docs, Nics) + NicsOf(m, c, subnet, nsg, n)
            && Pick(r, Vms) == Pick(docs, Vms) + VmsOf(m, c, set', n)
            && Pick(r, Subnets) == Pick(docs, Subnets)
            && Pick(r, Nsgs) == Pick(docs, Nsgs)
            && Pick(r, Associations) == Pick(docs, Associations)
  {
    hide Pick, Machines, NicsOf, VmsOf, IpsOf;
    forall k | k != Others
      ensures Pick(docs + Machines(m, c, subnet, nsg, set', n), k) == Pick(docs, k)
          + MachinesAdded(m, c, subnet, nsg, set', n, k)
    {
      MachinesPickedOf(m, docs, c, subnet, nsg, set', n, k);
    }
  }

  lemma {:induction false} MachinesHaveNoSets(m: Model, c: Component, subnet: string, nsg: string, set': Option<string>,
                                              n: nat)
    ensures forall i :: 0 <= i < |Machines(m, c, subnet, nsg, set', n)| ==>
        !Machines(m, c, subnet, nsg, set', n)[i].AvailabilitySet?
  {
    hide Named;
    if n != 0 {
      MachinesHaveNoSets(m, c, subnet, nsg, set', n - 1);
    }
  }

  /** What a new subnet adds of each kind. */
  function Added(m: Model, c: Component, k: Kind): seq<Doc> {
    match k
    case Subnets => [SubnetOf(m, c)]
    case Nsgs => if m.useGroups then [NsgOf(m, c)] else []
    case Associations => if m.useGroups then [AssociationOf(m, c)] else []
    case _ => []
  }

  lemma NewSubnetPicked(m: Model, docs: seq<Doc>, c: Component, k: Kind)
    requires c.pools != []
    ensures Pick(docs + NewSubnet(m, c), k) == Pick(docs, k) + Added(m, c, k)
  {
    hide Named, Pick;
    var s, g, a := SubnetOf(m, c), NsgOf(m, c), AssociationOf(m, c);
    PickSnoc(docs, s, k);
    if m.useGroups {
      assert docs + NewSubnet(m, c) == docs + [s] + [g] + [a];
      PickSnoc(docs + [s], g, k);
      PickSnoc(docs + [s] + [g], a, k);
    }
  }

  lemma MakerJoins(m: Model, docs: seq<Doc>, cs: seq<Component>, c: Component)
    requires c.pools != [] && MakersListed(m, docs, cs) && LastMakes(cs + [c])
    ensures MakersListed(m, docs + NewSubnet(m, c), cs + [c])
    ensures Pick(docs + NewSubnet(m, c), Nics) == Pick(docs, Nics)
        && Pick(docs + NewSubnet(m, c), Vms) == Pick(docs, Vms)
        && Pick(docs + NewSubnet(m, c), PublicIps) == Pick(docs, PublicIps)
  {
    hide Pick, Makers, LastMakes, NewSubnet, SubnetsOf, NsgsOf, AssociationsOf, SubnetOf, NsgOf, AssociationOf;
    LastMakerListed(cs, c);
    ListsGrow(m, Makers(cs), c);
    NewSubnetPicked(m, docs, c, Subnets);
    NewSubnetPicked(m, docs, c, Nsgs);
    NewSubnetPicked(m, docs, c, Associations);
    NewSubnetPicked(m, docs, c, Nics);
    NewSubnetPicked(m, docs, c, Vms);
    NewSubnetPicked(m, docs, c, PublicIps);
  }

  lemma LastMakerListed(cs: seq<Component>, c: Component)
    requires LastMakes(cs + [c])
    ensures Makers(cs + [c]) == Makers(cs) + [c]
  {
    assert (cs + [c])[..|cs|] == cs;
  }

  lemma ListsGrow(m: Model, makers: seq<Component>, c: Component)
    ensures SubnetsOf(m, makers + [c]) == SubnetsOf(m, makers) + Added(m, c, Subnets)
    ensures NsgsOf(m, makers + [c]) == NsgsOf(m, makers) + Added(m, c, Nsgs)
    ensures AssociationsOf(m, makers + [c]) == AssociationsOf(m, makers) + Added(m, c, Associations)
  {
    hide SubnetOf, NsgOf, AssociationOf;
  }

  /** The subnet step: the makers are listed, and the security group at hand is that of the last one. */
  lemma SubnetStep(m: Model, w: Walk, cs: seq<Component>, c: Component)
    requires (forall i :: 0 <= i < |cs| ==> cs[i].count >= 1) && Listed(m, w, cs) && c.pools != []
    ensures var w1, all := WithSubnet(m, w, c), cs + [c];
            && MakersListed(m, w1.docs, all) && MachinesListed(m, w1.docs, cs) && SetsKnown(m, w1.docs)
            && (m.useGroups ==> w1.nsg == Some(Named(m, "nsg", all[LastMaker(all)].key, 0)))
            && FirstSubnet(w1.docs, c.pools[0]) == Some(SubnetNameAt(m, all, |cs|))
  {
    hide Named, MachineList, NicAt, VmAt, FirstSubnet, Pick, SubnetsOf, NsgsOf, AssociationsOf, Makers, LastMaker,
         First;
    var all := cs + [c];
    assert all[..|cs|] == cs;
    FirstSubnetPicked(w.docs, Pool(c));
    MakerFound(m, cs, Pool(c));
    if First(cs, Pool(c)) < |cs| {
      FirstInPrefix(all, |cs|, Pool(c));
      NoMakerJoins(cs, c);
    } else {
      NewFirst(cs, c);
      MakerJoins(m, w.docs, cs, c);
      NewSubnetFound(m, w.docs, c);
    }
  }

  lemma NoMakerJoins(cs: seq<Component>, c: Component)
    requires First(cs, Pool(c)) < |cs|
    ensures Makers(cs + [c]) == Makers(cs) && LastMaker(cs + [c]) == LastMaker(cs)
  {
    assert (cs + [c])[..|cs|] == cs;
  }

  lemma NewFirst(cs: seq<Component>, c: Component)
    requires First(cs, Pool(c)) >= |cs|
    ensures LastMakes(cs + [c]) && LastMaker(cs + [c]) == |cs| == First(cs + [c], Pool(c))
  {
    assert (cs + [c])[..|cs|] == cs;
  }

  lemma {:induction false} FoundSetKnown(m: Model, docs: seq<Doc>, name: string)
    requires SetsKnown(m, docs)
    ensures FirstSet(docs, name).Some? ==> name in m.sets && FirstSet(docs, name).value == SetName(m, name)
  {
    hide SetName;
    if docs != [] {
      assert docs[0] in docs;
      FoundSetKnown(m, docs[1..], name);
    }
  }

  /** The availability set step adds none of the other kinds, and finds the set of the component's name. */
  lemma SetStep(m: Model, docs: seq<Doc>, cs: seq<Component>, c: Component)
    requires (forall i :: 0 <= i < |cs| ==> cs[i].count >= 1) && SetsKnown(m, docs)
    ensures var r := docs + NewSet(m, docs, c);
            && SetsKnown(m, r) && (forall k | k != Others :: Pick(r, k) == Pick(docs, k))
            && (if c.availabilitySet.Some? then FirstSet(r, c.availabilitySet.value) else None) == SetNameOf(m, c)
  {
    hide SetName, FirstSet, Pick;
    var r := docs + NewSet(m, docs, c);
    if c.availabilitySet.Some? {
      FoundSetKnown(m, docs, c.availabilitySet.value);
      NewSetFound(m, docs, c);
    }
    forall k | k != Others ensures Pick(r, k) == Pick(docs, k) {
      if NewSet(m, docs, c) == [] {
        assert r == docs;
      } else {
        PickSnoc(docs, NewSet(m, docs, c)[0], k);
      }
    }
  }

  /** What a machine refers to does not depend on later components. */
  lemma NamesStay(m: Model, cs: seq<Component>, c: Component, x: Machine)
    requires x.at < |cs|
    ensures NicAt(m, cs + [c], x) == NicAt(m, cs, x) && VmAt(m, cs + [c], x) == VmAt(m, cs, x)
  {
    hide Named, First;
    var all := cs + [c];
    assert all[..|cs|] == cs && all[..x.at + 1] == cs[..x.at + 1];
    FirstIsFirst(cs, Pool(cs[x.at]));
    FirstInPrefix(all, |cs|, Pool(cs[x.at]));
  }

  lemma MachineStep(m: Model, docs: seq<Doc>, cs: seq<Component>, c: Component, subnet: string, nsg: string,
                    set': Option<string>)
    requires (forall i :: 0 <= i < |cs| ==> cs[i].count >= 1) && c.count >= 1 && MachinesListed(m, docs, cs)
    requires subnet == SubnetNameAt(m, cs + [c], |cs|) && nsg == NsgNameAt(m, cs + [c], |cs|) && set' == SetNameOf(m, c)
    ensures MachinesListed(m, docs + Machines(m, c, subnet, nsg, set', c.count), cs + [c])
  {
    hide Pick, Machines, MachineList, NicAt, VmAt, NicOf, VmOf, IpsListed, IpsOf;
    var all := cs + [c];
    var ms, count: nat := MachineList(cs), c.count;
    MachinesPicked(m, docs, c, subnet, nsg, set', count);
    IpStep(m, docs, docs + Machines(m, c, subnet, nsg, set', count), cs, c);
    ListGrows(cs, c);
    forall k | 0 <= k < |ms|
      ensures NicAt(m, all, ms[k]) == NicAt(m, cs, ms[k]) && VmAt(m, all, ms[k]) == VmAt(m, cs, ms[k])
    {
      NamesStay(m, cs, c, ms[k]);
    }
    forall i: nat
      ensures NicAt(m, all, Machine(|cs|, i)) == NicOf(m, c, subnet, nsg, i)
          && VmAt(m, all, Machine(|cs|, i)) == VmOf(m, c, set', i)
    {
      NewMachine(m, cs, c, subnet, nsg, set', i);
    }
  }

  lemma IpStep(m: Model, docs: seq<Doc>, docs': seq<Doc>, cs: seq<Component>, c: Component)
    requires (forall i :: 0 <= i < |cs| ==> cs[i].count >= 1) && c.count >= 1 && IpsListed(m, docs, cs)
    requires Pick(docs', PublicIps) == Pick(docs, PublicIps) + IpsOf(m, c, c.count)
    ensures IpsListed(m, docs', cs + [c])
  {
    hide Pick, MachineList, Named, IpsOf;
    ListGrows(cs, c);
  }

  lemma NewMachine(m: Model, cs: seq<Component>, c: Component, subnet: string, nsg: string, set': Option<string>,
                   i: nat)
    requires subnet == SubnetNameAt(m, cs + [c], |cs|) && nsg == NsgNameAt(m, cs + [c], |cs|) && set' == SetNameOf(m, c)
    ensures NicAt(m, cs + [c], Machine(|cs|, i)) == NicOf(m, c, subnet, nsg, i)
    ensures VmAt(m, cs + [c], Machine(|cs|, i)) == VmOf(m, c, set', i)
  {
    hide Named, SubnetNameAt, NsgNameAt, SetNameOf;
  }

  lemma ListGrows(cs: seq<Component>, c: Component)
    requires (forall i :: 0 <= i < |cs| ==> cs[i].count >= 1) && c.count >= 1
    ensures MachineList(cs + [c]) == MachineList(cs) + Batch(|cs|, c.count)
  {
    assert (cs + [c])[..|cs|] == cs;
  }

  lemma SameMakers(m: Model, docs: seq<Doc>, docs': seq<Doc>, cs: seq<Component>)
    requires MakersListed(m, docs, cs)
    requires Pick(docs', Subnets) == Pick(docs, Subnets) && Pick(docs', Nsgs) == Pick(docs, Nsgs)
    requires Pick(docs', Associations) == Pick(docs, Associations)
    ensures MakersListed(m, docs', cs)
  {
  }

  lemma AddListed(m: Model, w: Walk, cs: seq<Component>, c: Component)
    requires (forall i :: 0 <= i < |cs| ==> cs[i].count >= 1) && c.count >= 1 && Listed(m, w, cs)
    requires c.pools != [] && MachineError(m, c).None?
    ensures AddComponent(m, w, c).Success? && Listed(m, AddComponent(m, w, c).value, cs + [c])
  {
    hide Named, Pick, Machines, SubnetNameAt, WithSubnet, NewSet, FirstSubnet, FirstSet, MakersListed, SetNameOf,
         LastMaker, MachinesListed, SetsKnown;
    var all := cs + [c];
    SubnetStep(m, w, cs, c);
    var w1 := WithSubnet(m, w, c);
    SetStep(m, w1.docs, cs, c);
    var docs := w1.docs + NewSet(m, w1.docs, c);
    SameMachines(m, w1.docs, docs, cs);
    SameMakers(m, w1.docs, docs, all);
    assert all[..|cs| + 1] == all;
    var subnet, nsg := SubnetNameAt(m, all, |cs|), NsgNameAt(m, all, |cs|);
    MachineStep(m, docs, cs, c, subnet, nsg, SetNameOf(m, c));
    MachinesKeepOthers(m, docs, all, c, subnet, nsg, SetNameOf(m, c), c.count);
  }

  /** Machines add no subnet, group, association or availability set. */
  lemma MachinesKeepOthers(m: Model, docs: seq<Doc>, cs: seq<Component>, c: Component, subnet: string, nsg: string,
                           set': Option<string>, n: nat)
    requires MakersListed(m, docs, cs) && SetsKnown(m, docs)
    ensures var r := docs + Machines(m, c, subnet, nsg, set', n); MakersListed(m, r, cs) && SetsKnown(m, r)
  {
    hide Pick, Machines, MakersListed, NicsOf, VmsOf, IpsOf;
    MachinesPicked(m, docs, c, subnet, nsg, set', n);
    SameMakers(m, docs, docs + Machines(m, c, subnet, nsg, set', n), cs);
    MachinesHaveNoSets(m, c, subnet, nsg, set', n);
  }

  lemma SameMachines(m: Model, docs: seq<Doc>, docs': seq<Doc>, cs: seq<Component>)
    requires (forall i :: 0 <= i < |cs| ==> cs[i].count >= 1) && MachinesListed(m, docs, cs)
    requires Pick(docs', Nics) == Pick(docs, Nics) && Pick(docs', Vms) == Pick(docs, Vms)
    requires Pick(docs', PublicIps) == Pick(docs, PublicIps)
    ensures MachinesListed(m, docs', cs)
  {
  }

  // ---------- the whole plan ----------

  /** Nothing an enabled component asks for is missing. */
  predicate Buildable(m: Model, c: Component) {
    c.count >= 1 ==> c.pools != [] && !c.vm.windows && m.keyFound
  }

  lemma {:induction false} PlanListed(m: Model, n: nat)
    requires n <= |m.components|
    ensures Components(m, n).Success? <==> forall i :: 0 <= i < n ==> Buildable(m, m.components[i])
    ensures Components(m, n).Success? ==> Listed(m, Components(m, n).value, Enabled(m, n))
  {
    hide Named, AddComponent, Listed;
    if n == 0 {
      HeaderListed(m);
    } else {
      PlanListed(m, n - 1);
      var c := m.components[n - 1];
      if Components(m, n - 1).Success? {
        var w := Components(m, n - 1).value;
        AddFails(m, w, c);
        assert Enabled(m, n - 1) + [] == Enabled(m, n - 1);
        if c.count >= 1 && Buildable(m, c) {
          AddListed(m, w, Enabled(m, n - 1), c);
        }
      }
    }
  }

  lemma AddFails(m: Model, w: Walk, c: Component)
    ensures c.count < 1 ==> AddComponent(m, w, c) == Success(w)
    ensures !Buildable(m, c) ==> AddComponent(m, w, c).Failure?
  {
  }

  lemma HeaderListed(m: Model)
    ensures Listed(m, Walk(Header(m), None), [])
  {
    hide Pick;
    var h := Header(m);
    forall k | k != Others ensures Pick(h, k) == [] {
      PickSnoc([], h[0], k);
      PickSnoc([h[0]], h[1], k);
      PickSnoc([h[0], h[1]], h[2], k);
      assert h == [h[0], h[1]] + [h[2]] && [h[0], h[1]] == [h[0]] + [h[1]] && [h[0]] == [] + [h[0]];
      PickNone(k);
    }
  }

  lemma PickNone(k: Kind)
    ensures Pick([], k) == []
  {
  }
}
