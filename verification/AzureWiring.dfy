/** The main results about Azure plans: machines conserved, names distinct, and when wiring is right. */
module AzureWiring {
  import opened Results
  import opened Naming
  import opened AzurePlan
  import opened AzureLaws

  /** The machines asked for: the sum of the positive counts. */
  function Total(m: Model, n: nat): nat
    requires n <= |m.components|
  {
    if n == 0 then 0 else Total(m, n - 1) + if m.components[n - 1].count < 1 then 0 else m.components[n - 1].count
  }

  lemma {:induction false} MachineCount(m: Model, n: nat)
    requires n <= |m.components|
    ensures |MachineList(Enabled(m, n))| == Total(m, n)
  {
    if n != 0 {
      MachineCount(m, n - 1);
      var c := m.components[n - 1];
      if c.count >= 1 {
        assert Enabled(m, n)[..|Enabled(m, n)| - 1] == Enabled(m, n - 1);
      } else {
        assert Enabled(m, n) == Enabled(m, n - 1);
      }
    }
  }

  /** The listing of a finished plan. */
  lemma FinishedPlan(m: Model)
    ensures Build(m).Success? <==> forall i :: 0 <= i < |m.components| ==> Buildable(m, m.components[i])
    ensures Build(m).Success? ==>
              MachinesListed(m, Build(m).value, Enabled(m, |m.components|))
                  && MakersListed(m, Build(m).value, Enabled(m, |m.components|))
  {
    hide Pick, Components, MachineList;
    PlanListed(m, |m.components|);
    if Build(m).Success? {
      var w := Components(m, |m.components|).value;
      forall k | k != Others ensures Pick(w.docs + [CloudInit], k) == Pick(w.docs, k) {
        PickSnoc(w.docs, CloudInit, k);
      }
    }
  }

  /** The build fails exactly on an enabled component it cannot serve; the carried security group is never missing. */
  lemma BuildSucceeds(m: Model)
    ensures Build(m).Success? <==> forall i :: 0 <= i < |m.components| ==> Buildable(m, m.components[i])
    ensures Build(m) != Failure(NoGroupYet)
  {
    FinishedPlan(m);
    NeverNoGroup(m, |m.components|);
  }

  lemma {:induction false} NeverNoGroup(m: Model, n: nat)
    requires n <= |m.components|
    ensures Components(m, n) != Failure(NoGroupYet)
  {
    if n != 0 {
      NeverNoGroup(m, n - 1);
      if Components(m, n - 1).Success? {
        PlanListed(m, n - 1);
        var w, cs, c := Components(m, n - 1).value, Enabled(m, n - 1), m.components[n - 1];
        if c.count >= 1 && c.pools != [] {
          SubnetStep(m, w, cs, c);
          NoGroupError(m, w, c);
        }
      }
    }
  }

  lemma NoGroupError(m: Model, w: Walk, c: Component)
    requires c.count >= 1 && c.pools != []
    requires var w1 := WithSubnet(m, w, c); (m.useGroups ==> w1.nsg.Some?) && FirstSubnet(w1.docs, c.pools[0]).Some?
    ensures AddComponent(m, w, c) != Failure(NoGroupYet)
  {
    hide WithSubnet, Machines, NewSet, FirstSubnet, FirstSet;
  }

  /** Conservation: as many machines and interfaces as asked for, each machine on the interface of its own number. */
  lemma MachinesConserved(m: Model)
    requires Build(m).Success?
    ensures var nics, vms := Pick(Build(m).value, Nics), Pick(Build(m).value, Vms);
            && |nics| == |vms| == Total(m, |m.components|)
            && forall k :: 0 <= k < |vms| ==> vms[k].Vm? && nics[k].Nic? && vms[k].nicName == nics[k].name
  {
    FinishedPlan(m);
    MachineCount(m, |m.components|);
  }


  // ---------- names ----------

  predicate KeysDistinct(cs: seq<Component>) {
    forall i, j :: 0 <= i < j < |cs| ==> Norm(cs[i].key) != Norm(cs[j].key)
  }

  ghost predicate AllDifferent(ms: seq<Machine>) {
    forall k, l :: 0 <= k < l < |ms| ==> ms[k] != ms[l]
  }

  lemma {:induction false} MachinesDistinct(cs: seq<Component>)
    requires forall i :: 0 <= i < |cs| ==> cs[i].count >= 1
    ensures AllDifferent(MachineList(cs))
  {
    if cs != [] {
      var front := MachineList(cs[..|cs| - 1]);
      MachinesDistinct(cs[..|cs| - 1]);
      var ms := MachineList(cs);
      forall k, l | 0 <= k < l < |ms| ensures ms[k] != ms[l] {
        assert k < |front| ==> ms[k] == front[k];
        assert l < |front| ==> ms[l] == front[l];
        assert k >= |front| ==> ms[k] == Machine(|cs| - 1, k - |front|);
        assert l >= |front| ==> ms[l] == Machine(|cs| - 1, l - |front|);
        assert k < |front| ==> front[k].at < |cs| - 1;
        if l < |front| {
          assert front[k] != front[l];
        }
      }
    }
  }

  lemma {:induction false} FirstMachine(cs: seq<Component>, at: nat) returns (k: nat)
    requires (forall i :: 0 <= i < |cs| ==> cs[i].count >= 1) && at < |cs|
    ensures k < |MachineList(cs)| && MachineList(cs)[k] == Machine(at, 0)
  {
    var front := cs[..|cs| - 1];
    if at == |cs| - 1 {
      k := |MachineList(front)|;
    } else {
      k := FirstMachine(front, at);
    }
  }

  ghost predicate VmNamesDistinct(docs: seq<Doc>) {
    forall i, j :: 0 <= i < j < |Pick(docs, Vms)| && Pick(docs, Vms)[i].Vm? && Pick(docs, Vms)[j].Vm? ==>
      Pick(docs, Vms)[i].name != Pick(docs, Vms)[j].name
  }

  ghost predicate NicNamesDistinct(docs: seq<Doc>) {
    forall i, j :: 0 <= i < j < |Pick(docs, Nics)| && Pick(docs, Nics)[i].Nic? && Pick(docs, Nics)[j].Nic? ==>
      Pick(docs, Nics)[i].name != Pick(docs, Nics)[j].name
  }

  /** Two machines have the same names exactly when they have the same component key, in normal form, and index. */
  lemma SameNames(m: Model, cs: seq<Component>, x: Machine, y: Machine)
    requires x.at < |cs| && y.at < |cs|
    ensures VmAt(m, cs, x).name == VmAt(m, cs, y).name
        <==> Norm(cs[x.at].key) == Norm(cs[y.at].key) && x.index == y.index
    ensures NicAt(m, cs, x).name == NicAt(m, cs, y).name
        <==> Norm(cs[x.at].key) == Norm(cs[y.at].key) && x.index == y.index
  {
    hide IndexedName, SubnetNameAt, NsgNameAt;
    IndexedNamesInjective(m.prefix, m.cluster, "vm", cs[x.at].key, x.index, cs[y.at].key, y.index);
    IndexedNamesInjective(m.prefix, m.cluster, "nic", cs[x.at].key, x.index, cs[y.at].key, y.index);
  }

  lemma ListedNamesDistinct(m: Model, docs: seq<Doc>, cs: seq<Component>)
    requires (forall i :: 0 <= i < |cs| ==> cs[i].count >= 1) && MachinesListed(m, docs, cs) && KeysDistinct(cs)
    ensures VmNamesDistinct(docs) && NicNamesDistinct(docs)
  {
    hide Pick, MachineList, SubnetNameAt, NsgNameAt, Named, SetNameOf;
    var ms := MachineList(cs);
    MachinesDistinct(cs);
    forall k, l | 0 <= k < l < |ms|
      ensures VmAt(m, cs, ms[k]).name != VmAt(m, cs, ms[l]).name && NicAt(m, cs, ms[k]).name != NicAt(m, cs, ms[l]).name
    {
      SameNames(m, cs, ms[k], ms[l]);
    }
  }

  lemma EqualKeysClash(m: Model, docs: seq<Doc>, cs: seq<Component>, i: nat, j: nat)
    requires (forall i :: 0 <= i < |cs| ==> cs[i].count >= 1) && MachinesListed(m, docs, cs)
    requires i < j < |cs| && Norm(cs[i].key) == Norm(cs[j].key)
    ensures !VmNamesDistinct(docs) && !NicNamesDistinct(docs)
  {
    hide Pick, MachineList, SubnetNameAt, NsgNameAt, Named;
    var k := FirstMachine(cs, i);
    var l := FirstMachine(cs, j);
    SameNames(m, cs, Machine(i, 0), Machine(j, 0));
    var a, b := if k < l then k else l, if k < l then l else k;
    assert Pick(docs, Vms)[a].name == Pick(docs, Vms)[b].name;
    assert Pick(docs, Nics)[a].name == Pick(docs, Nics)[b].name;
  }

  /**
   * Machine and interface names are pairwise distinct exactly when the keys of the enabled components are, up
   * to case and dashes.
   */
  lemma MachineNamesDistinct(m: Model)
    requires Build(m).Success?
    ensures VmNamesDistinct(Build(m).value) <==> KeysDistinct(Enabled(m, |m.components|))
    ensures NicNamesDistinct(Build(m).value) <==> KeysDistinct(Enabled(m, |m.components|))
  {
    hide MachineList, Build, Enabled, VmNamesDistinct, NicNamesDistinct, MachinesListed;
    FinishedPlan(m);
    var docs, cs := Build(m).value, Enabled(m, |m.components|);
    if KeysDistinct(cs) {
      ListedNamesDistinct(m, docs, cs);
    } else {
      var i, j :| 0 <= i < j < |cs| && Norm(cs[i].key) == Norm(cs[j].key);
      EqualKeysClash(m, docs, cs, i, j);
    }
  }

  // ---------- references ----------

  lemma {:induction false} MakerIn(cs: seq<Component>, i: nat)
    requires i < |cs| && Makes(cs, i)
    ensures cs[i] in Makers(cs)
  {
    var front := cs[..|cs| - 1];
    FirstIsFirst(front, Pool(cs[i]));
    if i < |cs| - 1 {
      MakerIn(front, i);
    }
  }

  lemma {:induction false} InMaker(cs: seq<Component>, c: Component) returns (i: nat)
    requires c in Makers(cs)
    ensures i < |cs| && Makes(cs, i) && cs[i] == c
  {
    var n := |cs| - 1;
    var front := cs[..n];
    if c in Makers(front) {
      i := InMaker(front, c);
      FirstInPrefix(cs, n, Pool(c));
    } else {
      i := n;
      FirstIsFirst(front, Pool(c));
    }
  }

  /** The maker at hand at component `i` still is one when all components are known. */
  lemma LastMakerMakes(cs: seq<Component>, i: nat)
    requires i < |cs|
    ensures LastMaker(cs[..i + 1]) <= i && Makes(cs, LastMaker(cs[..i + 1]))
    ensures forall j :: LastMaker(cs[..i + 1]) < j <= i ==> !Makes(cs, j)
  {
    hide First;
    var part := cs[..i + 1];
    LastMakerIsLast(part);
    forall j | 0 <= j <= i ensures Makes(part, j) <==> Makes(cs, j) {
      FirstIsFirst(part, Pool(cs[j]));
      FirstInPrefix(cs, i + 1, Pool(cs[j]));
      assert part[j] == cs[j];
    }
  }

  lemma FirstMakes(cs: seq<Component>, i: nat)
    requires i < |cs|
    ensures First(cs, Pool(cs[i])) <= i && Makes(cs, First(cs, Pool(cs[i])))
        && Pool(cs[First(cs, Pool(cs[i]))]) == Pool(cs[i])
  {
    FirstIsFirst(cs, Pool(cs[i]));
  }

  predicate SubnetPresent(docs: seq<Doc>, name: string) {
    exists i :: 0 <= i < |docs| && docs[i].Subnet? && docs[i].name == name
  }

  predicate NsgPresent(docs: seq<Doc>, name: string) {
    exists i :: 0 <= i < |docs| && docs[i].Nsg? && docs[i].name == name
  }

  /** A security group is associated with a subnet. */
  predicate Associated(docs: seq<Doc>, subnet: string, nsg: string) {
    exists i :: 0 <= i < |docs| && docs[i].Association? && docs[i].subnetName == subnet && docs[i].nsgName == nsg
  }

  /** The documents of a maker are in the plan. */
  lemma MakerPresent(m: Model, docs: seq<Doc>, cs: seq<Component>, i: nat)
    requires MakersListed(m, docs, cs) && i < |cs| && Makes(cs, i)
    ensures SubnetOf(m, cs[i]) in docs && (m.useGroups ==> NsgOf(m, cs[i]) in docs && AssociationOf(m, cs[i]) in docs)
  {
    hide Pick, Makers, Named;
    MakerIn(cs, i);
    var k :| 0 <= k < |Makers(cs)| && Makers(cs)[k] == cs[i];
    PickIn(docs, Subnets, SubnetOf(m, cs[i]));
    assert Pick(docs, Subnets)[k] == SubnetOf(m, cs[i]);
    if m.useGroups {
      PickIn(docs, Nsgs, NsgOf(m, cs[i]));
      assert Pick(docs, Nsgs)[k] == NsgOf(m, cs[i]);
      PickIn(docs, Associations, AssociationOf(m, cs[i]));
      assert Pick(docs, Associations)[k] == AssociationOf(m, cs[i]);
    }
  }

  /** Every interface names a subnet of the plan and, where groups are used, a security group of the plan. */
  lemma InterfacesClosed(m: Model)
    requires Build(m).Success?
    ensures var docs := Build(m).value;
            forall i :: 0 <= i < |docs| && docs[i].Nic? ==>
              SubnetPresent(docs, docs[i].subnetName) && (m.useGroups ==> NsgPresent(docs, docs[i].nsgName))
  {
    hide Pick, Build, Enabled, MachineList, Makers, First, LastMaker, Named, MakersListed;
    FinishedPlan(m);
    var docs, cs := Build(m).value, Enabled(m, |m.components|);
    forall i | 0 <= i < |docs| && docs[i].Nic?
      ensures SubnetPresent(docs, docs[i].subnetName) && (m.useGroups ==> NsgPresent(docs, docs[i].nsgName))
    {
      var at := InterfaceOf(m, docs, cs, docs[i]);
      FirstMakes(cs, at);
      MakerPresent(m, docs, cs, First(cs, Pool(cs[at])));
      LastMakerMakes(cs, at);
      MakerPresent(m, docs, cs, LastMaker(cs[..at + 1]));
      assert cs[..at + 1][LastMaker(cs[..at + 1])] == cs[LastMaker(cs[..at + 1])];
    }
  }

  /** The component an interface belongs to. */
  lemma InterfaceOf(m: Model, docs: seq<Doc>, cs: seq<Component>, d: Doc) returns (at: nat)
    requires (forall i :: 0 <= i < |cs| ==> cs[i].count >= 1) && MachinesListed(m, docs, cs) && d in docs && d.Nic?
    ensures at < |cs| && d.subnetName == SubnetNameAt(m, cs, at) && d.nsgName == NsgNameAt(m, cs, at)
  {
    hide Pick, SubnetNameAt, NsgNameAt, MachineList;
    PickIn(docs, Nics, d);
    var k :| 0 <= k < |Pick(docs, Nics)| && Pick(docs, Nics)[k] == d;
    at := MachineList(cs)[k].at;
  }

  // ---------- the carried security group ----------

  /** The group at hand at component `i` is that of its subnet's maker. */
  predicate RightGroup(cs: seq<Component>, i: nat)
    requires i < |cs|
  {
    First(cs, Pool(cs[i])) == LastMaker(cs[..i + 1])
  }

  /** No component comes between two that share an address pool, unless it shares it too. */
  predicate Consecutive(cs: seq<Component>) {
    forall i, j, k :: 0 <= i < j < k < |cs| && Pool(cs[i]) == Pool(cs[k]) ==> Pool(cs[j]) == Pool(cs[i])
  }

  lemma RightWhenConsecutive(cs: seq<Component>, i: nat)
    requires i < |cs| && Consecutive(cs)
    ensures RightGroup(cs, i)
  {
    hide First, LastMaker;
    FirstMakes(cs, i);
    LastMakerMakes(cs, i);
    var f, l := First(cs, Pool(cs[i])), LastMaker(cs[..i + 1]);
    if f < l {
      assert l < i ==> Pool(cs[l]) == Pool(cs[f]);
    }
  }

  lemma ConsecutiveWhenRight(cs: seq<Component>, i: nat, j: nat, k: nat)
    requires forall x :: 0 <= x < |cs| ==> RightGroup(cs, x)
    requires i < j < k < |cs| && Pool(cs[i]) == Pool(cs[k])
    ensures Pool(cs[j]) == Pool(cs[i])
  {
    hide First, LastMaker;
    FirstMakes(cs, i);
    FirstMakes(cs, j);
    FirstMakes(cs, k);
    LastMakerMakes(cs, j);
    LastMakerMakes(cs, k);
    assert RightGroup(cs, j) && RightGroup(cs, k);
  }

  lemma RightExactly(cs: seq<Component>)
    ensures (forall i :: 0 <= i < |cs| ==> RightGroup(cs, i)) <==> Consecutive(cs)
  {
    if Consecutive(cs) {
      forall i | 0 <= i < |cs| ensures RightGroup(cs, i) {
        RightWhenConsecutive(cs, i);
      }
    }
    if forall i :: 0 <= i < |cs| ==> RightGroup(cs, i) {
      forall i, j, k | 0 <= i < j < k < |cs| && Pool(cs[i]) == Pool(cs[k]) ensures Pool(cs[j]) == Pool(cs[i]) {
        ConsecutiveWhenRight(cs, i, j, k);
      }
    }
  }

  /**
   * The group at hand and the subnet are made by one component, or by two whose keys coincide up to case and
   * dashes.
   */
  predicate RightName(cs: seq<Component>, i: nat)
    requires i < |cs|
  {
    FirstMakes(cs, i);
    Norm(cs[First(cs, Pool(cs[i]))].key) == Norm(cs[LastMaker(cs[..i + 1])].key)
  }

  /** An interface's group is associated with its subnet exactly when their makers have one name. */
  lemma AssociatedExactly(m: Model, docs: seq<Doc>, cs: seq<Component>, i: nat)
    requires MakersListed(m, docs, cs) && i < |cs| && m.useGroups
    ensures Associated(docs, SubnetNameAt(m, cs, i), NsgNameAt(m, cs, i)) <==> RightName(cs, i)
  {
    hide Pick, Makers, First, LastMaker, IndexedName;
    FirstMakes(cs, i);
    LastMakerMakes(cs, i);
    var f, l := First(cs, Pool(cs[i])), LastMaker(cs[..i + 1]);
    assert cs[..i + 1][l] == cs[l];
    if RightName(cs, i) {
      MakerPresent(m, docs, cs, f);
      assert AssociationOf(m, cs[f]) in docs;
      IndexedNamesInjective(m.prefix, m.cluster, "nsg", cs[f].key, 0, cs[l].key, 0);
    }
    if Associated(docs, SubnetNameAt(m, cs, i), NsgNameAt(m, cs, i)) {
      var x :| 0 <= x < |docs| && docs[x].Association? && docs[x].subnetName == SubnetNameAt(m, cs, i)
               && docs[x].nsgName == NsgNameAt(m, cs, i);
      PickIn(docs, Associations, docs[x]);
      var k :| 0 <= k < |Makers(cs)| && docs[x] == AssociationOf(m, Makers(cs)[k]);
      var a := InMaker(cs, Makers(cs)[k]);
      IndexedNamesInjective(m.prefix, m.cluster, "subnet", cs[a].key, 0, cs[f].key, 0);
      IndexedNamesInjective(m.prefix, m.cluster, "nsg", cs[a].key, 0, cs[l].key, 0);
    }
  }

  /** Every interface has the group of its subnet. */
  ghost predicate WellWired(docs: seq<Doc>) {
    forall i :: 0 <= i < |docs| && docs[i].Nic? ==> Associated(docs, docs[i].subnetName, docs[i].nsgName)
  }

  /** Whatever the keys, the wiring is right exactly when the carried group always has the name of the subnet's own. */
  lemma WiringByName(m: Model)
    requires Build(m).Success? && m.useGroups
    ensures WellWired(Build(m).value)
       <==> forall i :: 0 <= i < |Enabled(m, |m.components|)| ==> RightName(Enabled(m, |m.components|), i)
  {
    hide Pick, Build, Enabled, MachineList, Makers, First, LastMaker, Named, MakersListed, SubnetNameAt, NsgNameAt,
         Associated, RightName;
    FinishedPlan(m);
    var docs, cs := Build(m).value, Enabled(m, |m.components|);
    forall i | 0 <= i < |cs|
      ensures Associated(docs, SubnetNameAt(m, cs, i), NsgNameAt(m, cs, i)) <==> RightName(cs, i)
    {
      AssociatedExactly(m, docs, cs, i);
    }
    if forall i :: 0 <= i < |cs| ==> RightName(cs, i) {
      forall i | 0 <= i < |docs| && docs[i].Nic? ensures Associated(docs, docs[i].subnetName, docs[i].nsgName) {
        var at := InterfaceOf(m, docs, cs, docs[i]);
      }
    }
    if WellWired(docs) {
      forall i | 0 <= i < |cs| ensures RightName(cs, i) {
        var k := FirstMachine(cs, i);
        PickIn(docs, Nics, Pick(docs, Nics)[k]);
      }
    }
  }

  /** With different keys a group has the right name only if it is the right one. */
  lemma NamesTellGroups(cs: seq<Component>, i: nat)
    requires i < |cs|
    ensures RightGroup(cs, i) ==> RightName(cs, i)
    ensures KeysDistinct(cs) ==> (RightName(cs, i) <==> RightGroup(cs, i))
  {
    hide First, LastMaker, Norm;
    FirstMakes(cs, i);
    LastMakerMakes(cs, i);
    var l := LastMaker(cs[..i + 1]);
    assert cs[..i + 1][l] == cs[l];
  }

  /** Whatever the keys, the wiring is right when the enabled components that share an address pool are consecutive. */
  lemma WiredWhenConsecutive(m: Model)
    requires Build(m).Success? && m.useGroups && Consecutive(Enabled(m, |m.components|))
    ensures WellWired(Build(m).value)
  {
    hide Build, Enabled, RightGroup, RightName, WellWired;
    var cs := Enabled(m, |m.components|);
    WiringByName(m);
    RightExactly(cs);
    forall i | 0 <= i < |cs| ensures RightName(cs, i) {
      NamesTellGroups(cs, i);
    }
  }

  /**
   * The security group is carried from one iteration to the next, so with different keys the wiring is
   * right exactly when the enabled components that share an address pool are consecutive.
   */
  lemma WiringExactly(m: Model)
    requires Build(m).Success? && m.useGroups && KeysDistinct(Enabled(m, |m.components|))
    ensures WellWired(Build(m).value) <==> Consecutive(Enabled(m, |m.components|))
  {
    hide Build, Enabled, RightGroup, RightName, Consecutive, KeysDistinct, WellWired;
    var cs := Enabled(m, |m.components|);
    WiringByName(m);
    RightExactly(cs);
    forall i | 0 <= i < |cs| ensures RightName(cs, i) <==> RightGroup(cs, i) {
      NamesTellGroups(cs, i);
    }
  }

  /** Three components, the first and the last on one address pool. */
  function Interleaved(): Model {
    var vm := VmConfig("", false, []);
    Model("", "c", true, false, true, [],
          [Component("a", 1, vm, ["p"], None), Component("b", 1, vm, ["q"], None), Component("c", 1, vm, ["p"], None)])
  }

  lemma MiswiredWhenInterleaved(m: Model, a: Component, b: Component, c: Component)
    requires m.components == [a, b, c] && m.useGroups && Buildable(m, a) && Buildable(m, b) && Buildable(m, c)
    requires a.count >= 1 && b.count >= 1 && c.count >= 1
    requires Norm(a.key) != Norm(b.key) && Norm(b.key) != Norm(c.key) && Norm(a.key) != Norm(c.key)
    requires Pool(a) == Pool(c) != Pool(b)
    ensures Build(m).Success? && !WellWired(Build(m).value)
  {
    hide Build, WellWired, Norm, MachinesListed, MakersListed, Enabled, Pool, Buildable;
    FinishedPlan(m);
    EnabledAll(m);
    var cs := m.components;
    WiringExactly(m);
    assert Pool(cs[0]) == Pool(cs[2]) && Pool(cs[1]) != Pool(cs[0]);
  }

  /** With interleaved pools the plan is built, and an interface has a group that is not its subnet's. */
  lemma InterleavedMiswired()
    ensures Build(Interleaved()).Success? && !WellWired(Build(Interleaved()).value)
  {
    hide Build, WellWired, Norm;
    var m := Interleaved();
    LettersDiffer();
    MiswiredWhenInterleaved(m, m.components[0], m.components[1], m.components[2]);
  }

  lemma LettersDiffer()
    ensures Norm("a") != Norm("b") && Norm("b") != Norm("c") && Norm("a") != Norm("c")
  {
    assert Norm("a")[0] == 'a' && Norm("b")[0] == 'b' && Norm("c")[0] == 'c';
  }

  lemma EnabledAll(m: Model)
    requires |m.components| == 3 && forall i :: 0 <= i < 3 ==> m.components[i].count >= 1
    ensures Enabled(m, 3) == m.components
  {
    assert Enabled(m, 1) == [m.components[0]];
    assert Enabled(m, 2) == [m.components[0], m.components[1]];
  }
}
