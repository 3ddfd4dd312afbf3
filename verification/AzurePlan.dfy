/** The Azure builder: one growing list of documents, and the variables its loop carries along. */
module AzurePlan {
  import opened Results
  import opened Naming
  import Aws = AwsPlan

  /** What a component's virtual machine configuration says about networking and the system. */
  datatype VmConfig = VmConfig(size: string, windows: bool, rules: seq<Aws.Rule>)

  datatype Component = Component(key: string, count: int, vm: VmConfig, pools: seq<string>,
                                 availabilitySet: Option<string>)

  /** `sets` are the names of the availability set documents of the input. */
  datatype Model = Model(prefix: string, cluster: string, useGroups: bool, usePublicIps: bool, keyFound: bool,
                         sets: seq<string>, components: seq<Component>)

  datatype Doc =
    | ResourceGroup(name: string)
    | Vnet(name: string)
    | StorageShare(name: string)
    | CloudInit
    | Subnet(name: string, pool: string)
    | Nsg(name: string, rules: seq<Aws.Rule>)
    | Association(name: string, subnetName: string, nsgName: string)
    | AvailabilitySet(docName: string, name: string)
    | PublicIp(name: string)
    | Nic(name: string, subnetName: string, nsgName: string, publicIpName: string)
    | Vm(name: string, nicName: string, setName: Option<string>, size: string)

  datatype PlanError = NoSubnet(key: string) | WindowsMachine | KeyNotFound | NoGroupYet

  function Named(m: Model, kind: string, c: string, i: nat): string {
    IndexedName(m.prefix, m.cluster, kind, c, i)
  }

  function SetName(m: Model, name: string): string {
    ResourceName(m.prefix, m.cluster, name + "-aset", None)
  }

  /** The name of the first subnet with an address pool. */
  function FirstSubnet(docs: seq<Doc>, pool: string): Option<string> {
    if docs == [] then None
    else if docs[0].Subnet? && docs[0].pool == pool then Some(docs[0].name)
    else FirstSubnet(docs[1..], pool)
  }

  function FirstSet(docs: seq<Doc>, name: string): Option<string> {
    if docs == [] then None
    else if docs[0].AvailabilitySet? && docs[0].docName == name then Some(docs[0].name)
    else FirstSet(docs[1..], name)
  }

  /** The documents so far, and the security group left over from the last iteration that made one. */
  datatype Walk = Walk(docs: seq<Doc>, nsg: Option<string>)

  function NewSubnet(m: Model, c: Component): seq<Doc>
    requires c.pools != []
  {
    var subnet := Subnet(Named(m, "subnet", c.key, 0), c.pools[0]);
    if m.useGroups then
      var nsg := Nsg(Named(m, "nsg", c.key, 0), c.vm.rules);
      [subnet, nsg, Association(Named(m, "ssga", c.key, 0), subnet.name, nsg.name)]
    else [subnet]
  }

  function WithSubnet(m: Model, w: Walk, c: Component): Walk
    requires c.pools != []
  {
    if FirstSubnet(w.docs, c.pools[0]).Some? then w
    else Walk(w.docs + NewSubnet(m, c), if m.useGroups then Some(Named(m, "nsg", c.key, 0)) else w.nsg)
  }

  /** The availability set document a component adds, if any. */
  function NewSet(m: Model, docs: seq<Doc>, c: Component): seq<Doc> {
    if c.availabilitySet.Some? && FirstSet(docs, c.availabilitySet.value).None? && c.availabilitySet.value in m.sets
    then [AvailabilitySet(c.availabilitySet.value, SetName(m, c.availabilitySet.value))]
    else []
  }

  function MachineDocs(m: Model, c: Component, subnetName: string, nsgName: string, setName: Option<string>, i: nat)
    : seq<Doc>
  {
    (if m.usePublicIps then [PublicIp(Named(m, "pubip", c.key, i))] else [])
    + [Nic(Named(m, "nic", c.key, i), subnetName, nsgName, if m.usePublicIps then Named(m, "pubip", c.key, i) else ""),
       Vm(Named(m, "vm", c.key, i), Named(m, "nic", c.key, i), setName, c.vm.size)]
  }

  /** The documents of the first `n` machines of a component. */
  function Machines(m: Model, c: Component, subnetName: string, nsgName: string, setName: Option<string>, n: nat)
    : seq<Doc>
  {
    if n == 0 then []
    else Machines(m, c, subnetName, nsgName, setName, n - 1) + MachineDocs(m, c, subnetName, nsgName, setName, n - 1)
  }

  /** What makes the machines of a component fail. */
  function MachineError(m: Model, c: Component): Option<PlanError> {
    if c.vm.windows then Some(WindowsMachine) else if !m.keyFound then Some(KeyNotFound) else None
  }

  function AddComponent(m: Model, w: Walk, c: Component): Result<Walk, PlanError> {
    if c.count < 1 then Success(w)
    else if c.pools == [] then Failure(NoSubnet(c.key))
    else
      var w1 := WithSubnet(m, w, c);
      var subnetName := FirstSubnet(w1.docs, c.pools[0]);
      var docs := w1.docs + NewSet(m, w1.docs, c);
      var setName := if c.availabilitySet.Some? then FirstSet(docs, c.availabilitySet.value) else None;
      if (m.useGroups && w1.nsg.None?) || subnetName.None? then Failure(NoGroupYet)
      else if MachineError(m, c).Some? then Failure(MachineError(m, c).value)
      else
        var nsgName := if m.useGroups then w1.nsg.value else "";
        Success(Walk(docs + Machines(m, c, subnetName.value, nsgName, setName, c.count), w1.nsg))
  }

  function Header(m: Model): seq<Doc> {
    [ResourceGroup(ResourceName(m.prefix, m.cluster, "rg", None)),
     Vnet(ResourceName(m.prefix, m.cluster, "vnet", None)),
     StorageShare(ResourceName(m.prefix, m.cluster, "k8s-ss", None))]
  }

  function Components(m: Model, n: nat): Result<Walk, PlanError>
    requires n <= |m.components|
  {
    if n == 0 then Success(Walk(Header(m), None))
    else
      var w :- Components(m, n - 1);
      AddComponent(m, w, m.components[n - 1])
  }

  function Build(m: Model): Result<seq<Doc>, PlanError> {
    var w :- Components(m, |m.components|);
    Success(w.docs + [CloudInit])
  }

  // ---------- the run ----------

  method SelectSubnet(docs: seq<Doc>, pool: string) returns (r: Option<string>)
    ensures r == FirstSubnet(docs, pool)
  {
    assert docs[0..] == docs;
    for i := 0 to |docs|
      invariant FirstSubnet(docs, pool) == FirstSubnet(docs[i..], pool)
    {
      assert docs[i..][1..] == docs[i + 1..];
      if docs[i].Subnet? && docs[i].pool == pool {
        return Some(docs[i].name);
      }
    }
    r := None;
  }

  method SelectSet(docs: seq<Doc>, name: string) returns (r: Option<string>)
    ensures r == FirstSet(docs, name)
  {
    assert docs[0..] == docs;
    for i := 0 to |docs|
      invariant FirstSet(docs, name) == FirstSet(docs[i..], name)
    {
      assert docs[i..][1..] == docs[i + 1..];
      if docs[i].AvailabilitySet? && docs[i].docName == name {
        return Some(docs[i].name);
      }
    }
    r := None;
  }

  lemma {:induction false} FirstSubnetInAppend(a: seq<Doc>, b: seq<Doc>, pool: string)
    ensures FirstSubnet(a + b, pool)
         == if FirstSubnet(a, pool).Some? then FirstSubnet(a, pool) else FirstSubnet(b, pool)
  {
    if a == [] {
      assert a + b == b;
    } else {
      assert (a + b)[1..] == a[1..] + b;
      FirstSubnetInAppend(a[1..], b, pool);
    }
  }

  lemma {:induction false} FirstSetInAppend(a: seq<Doc>, b: seq<Doc>, name: string)
    ensures FirstSet(a + b, name) == if FirstSet(a, name).Some? then FirstSet(a, name) else FirstSet(b, name)
  {
    if a == [] {
      assert a + b == b;
    } else {
      assert (a + b)[1..] == a[1..] + b;
      FirstSetInAppend(a[1..], b, name);
    }
  }

  lemma {:induction false} ComponentsStayFailed(m: Model, i: nat, n: nat)
    requires i <= n <= |m.components| && Components(m, i).Failure?
    ensures Components(m, n) == Failure(Components(m, i).error)
  {
    if i < n {
      ComponentsStayFailed(m, i, n - 1);
    }
  }

  /** The machines of one component, appended one by one. */
  method AddMachines(m: Model, docs: seq<Doc>, c: Component, subnetName: string, nsg: Option<string>,
                     setName: Option<string>)
    returns (r: Result<seq<Doc>, PlanError>)
    requires c.count >= 1 && (m.useGroups ==> nsg.Some?)
    ensures r == match MachineError(m, c)
                 case Some(e) => Failure(e)
                 case None => Success(docs
                                      + Machines(m, c, subnetName,
                                                 if m.useGroups then nsg.value else "", setName, c.count))
  {
    hide Named;
    var infrastructure := docs;
    var nsgName := if m.useGroups then nsg.value else "";
    for index := 0 to c.count
      invariant index > 0 ==> MachineError(m, c).None?
      invariant infrastructure == docs + Machines(m, c, subnetName, nsgName, setName, index)
    {
      ghost var before := infrastructure;
      var publicIpName := "";
      if m.usePublicIps {
        publicIpName := Named(m, "pubip", c.key, index);
        infrastructure := infrastructure + [PublicIp(publicIpName)];
      }
      var nic := Nic(Named(m, "nic", c.key, index), subnetName, nsgName, publicIpName);
      infrastructure := infrastructure + [nic];
      if c.vm.windows {
        return Failure(WindowsMachine);
      }
      if !m.keyFound {
        return Failure(KeyNotFound);
      }
      infrastructure := infrastructure + [Vm(Named(m, "vm", c.key, index), nic.name, setName, c.vm.size)];
      assert infrastructure == before + MachineDocs(m, c, subnetName, nsgName, setName, index);
    }
    r := Success(infrastructure);
  }

  method Run(m: Model) returns (r: Result<seq<Doc>, PlanError>)
    ensures r == Build(m)
  {
    hide Machines, MachineError, FirstSubnet, FirstSet, Named, SetName;
    var infrastructure := Header(m);
    var nsg: Option<string> := None;
    for i := 0 to |m.components|
      invariant Components(m, i) == Success(Walk(infrastructure, nsg))
    {
      var c := m.components[i];
      if c.count < 1 {
        continue;
      }
      if c.pools == [] {
        ComponentsStayFailed(m, i + 1, |m.components|);
        return Failure(NoSubnet(c.key));
      }
      var subnet := SelectSubnet(infrastructure, c.pools[0]);
      if subnet.None? {
        subnet := Some(Named(m, "subnet", c.key, 0));
        NewSubnetFound(m, infrastructure, c);
        infrastructure := infrastructure + [Subnet(subnet.value, c.pools[0])];
        if m.useGroups {
          nsg := Some(Named(m, "nsg", c.key, 0));
          infrastructure := infrastructure + [Nsg(nsg.value, c.vm.rules)]
            + [Association(Named(m, "ssga", c.key, 0), subnet.value, nsg.value)];
        }
      }
      ghost var w1 := WithSubnet(m, Components(m, i).value, c);
      assert infrastructure == w1.docs && nsg == w1.nsg;
      assert subnet == FirstSubnet(w1.docs, c.pools[0]);
      var aset: Option<string> := None;
      if c.availabilitySet.Some? {
        aset := SelectSet(infrastructure, c.availabilitySet.value);
        NewSetFound(m, infrastructure, c);
        if aset.None? && c.availabilitySet.value in m.sets {
          aset := Some(SetName(m, c.availabilitySet.value));
          infrastructure := infrastructure + [AvailabilitySet(c.availabilitySet.value, aset.value)];
        }
      }
      assert infrastructure == w1.docs + NewSet(m, w1.docs, c);
      if m.useGroups && nsg.None? {
        ComponentsStayFailed(m, i + 1, |m.components|);
        return Failure(NoGroupYet);
      }
      var machines := AddMachines(m, infrastructure, c, subnet.value, nsg, aset);
      if machines.Failure? {
        ComponentsStayFailed(m, i + 1, |m.components|);
        return machines;
      }
      infrastructure := machines.value;
    }
    r := Success(infrastructure + [CloudInit]);
  }

  lemma NewSubnetFound(m: Model, docs: seq<Doc>, c: Component)
    requires c.pools != [] && FirstSubnet(docs, c.pools[0]).None?
    ensures FirstSubnet(docs + NewSubnet(m, c), c.pools[0]) == Some(Named(m, "subnet", c.key, 0))
  {
    FirstSubnetInAppend(docs, NewSubnet(m, c), c.pools[0]);
  }

  lemma NewSetFound(m: Model, docs: seq<Doc>, c: Component)
    requires c.availabilitySet.Some?
    ensures FirstSet(docs + NewSet(m, docs, c), c.availabilitySet.value)
         == if FirstSet(docs, c.availabilitySet.value).None? && c.availabilitySet.value in m.sets
            then Some(SetName(m, c.availabilitySet.value)) else FirstSet(docs, c.availabilitySet.value)
  {
    FirstSetInAppend(docs, NewSet(m, docs, c), c.availabilitySet.value);
  }
}
