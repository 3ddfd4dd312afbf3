/** The public addresses and the availability sets of Azure machines. */
module AzureMachines {
  import opened Results
  import opened Naming
  import opened AzurePlan
  import opened AzureLaws
  import opened AzureWiring

  // ---------- public addresses ----------

  predicate IpPresent(docs: seq<Doc>, name: string) {
    exists i :: 0 <= i < |docs| && docs[i].PublicIp? && docs[i].name == name
  }

  /**
   * With public addresses there is one for each machine asked for, in the order of the interfaces, and each
   * interface names its own; without there is none, and no interface names one.
   */
  lemma PublicIpsConserved(m: Model)
    requires Build(m).Success?
    ensures var ips, nics := Pick(Build(m).value, PublicIps), Pick(Build(m).value, Nics);
            && |ips| == (if m.usePublicIps then Total(m, |m.components|) else 0)
            && |nics| == Total(m, |m.components|)
            && forall k :: 0 <= k < |nics| ==>
                 nics[k].Nic? && if m.usePublicIps then ips[k] == PublicIp(nics[k].publicIpName)
                                                   else nics[k].publicIpName == ""
  {
    hide Build, Pick, Named, SubnetNameAt, NsgNameAt, Enabled, MachineList;
    FinishedPlan(m);
    MachineCount(m, |m.components|);
  }

  /** Every interface names a public address of the plan, or there is none in the plan. */
  lemma AddressesClosed(m: Model)
    requires Build(m).Success?
    ensures var docs := Build(m).value;
            forall i :: 0 <= i < |docs| ==>
              && (docs[i].Nic? && m.usePublicIps ==> IpPresent(docs, docs[i].publicIpName))
              && (docs[i].PublicIp? ==> m.usePublicIps)
  {
    hide Build, Pick;
    PublicIpsConserved(m);
    var docs := Build(m).value;
    var ips, nics := Pick(docs, PublicIps), Pick(docs, Nics);
    forall i | 0 <= i < |docs|
      ensures docs[i].Nic? && m.usePublicIps ==> IpPresent(docs, docs[i].publicIpName)
      ensures docs[i].PublicIp? ==> m.usePublicIps
    {
      if docs[i].Nic? && m.usePublicIps {
        PickIn(docs, Nics, docs[i]);
        var k :| 0 <= k < |nics| && nics[k] == docs[i];
        PickIn(docs, PublicIps, ips[k]);
      }
      if docs[i].PublicIp? {
        PickIn(docs, PublicIps, docs[i]);
      }
    }
  }

  ghost predicate IpNamesDistinct(docs: seq<Doc>) {
    forall i, j :: 0 <= i < j < |Pick(docs, PublicIps)| ==> Pick(docs, PublicIps)[i] != Pick(docs, PublicIps)[j]
  }

  /** Public addresses are pairwise distinct exactly when the keys of the enabled components are. */
  lemma AddressesDistinct(m: Model)
    requires Build(m).Success? && m.usePublicIps
    ensures IpNamesDistinct(Build(m).value) <==> KeysDistinct(Enabled(m, |m.components|))
  {
    hide MachineList, Build, Enabled, Pick, Named;
    FinishedPlan(m);
    var docs, cs := Build(m).value, Enabled(m, |m.components|);
    var ms := MachineList(cs);
    if KeysDistinct(cs) {
      MachinesDistinct(cs);
      forall k, l | 0 <= k < l < |ms| ensures IpAt(m, cs, ms[k]) != IpAt(m, cs, ms[l]) {
        SameAddress(m, cs, ms[k], ms[l]);
      }
    } else {
      var i, j :| 0 <= i < j < |cs| && Norm(cs[i].key) == Norm(cs[j].key);
      var k := FirstMachine(cs, i);
      var l := FirstMachine(cs, j);
      SameAddress(m, cs, ms[k], ms[l]);
      var a, b := if k < l then k else l, if k < l then l else k;
      assert Pick(docs, PublicIps)[a] == Pick(docs, PublicIps)[b];
    }
  }

  lemma SameAddress(m: Model, cs: seq<Component>, x: Machine, y: Machine)
    requires x.at < |cs| && y.at < |cs|
    ensures IpAt(m, cs, x) == IpAt(m, cs, y) <==> Norm(cs[x.at].key) == Norm(cs[y.at].key) && x.index == y.index
  {
    hide IndexedName;
    IndexedNamesInjective(m.prefix, m.cluster, "pubip", cs[x.at].key, x.index, cs[y.at].key, y.index);
  }

  // ---------- availability sets ----------

  predicate SetIn(docs: seq<Doc>, docName: string) {
    exists i :: 0 <= i < |docs| && docs[i].AvailabilitySet? && docs[i].docName == docName
  }

  predicate NamesSet(docs: seq<Doc>, name: string) {
    exists i :: 0 <= i < |docs| && docs[i].AvailabilitySet? && docs[i].name == name
  }

  ghost predicate SetsOnce(docs: seq<Doc>) {
    forall i, j :: 0 <= i < j < |docs| && docs[i].AvailabilitySet? && docs[j].AvailabilitySet? ==>
      docs[i].docName != docs[j].docName
  }

  /** Some enabled component asks for a set, and the input defines it. */
  predicate SetAsked(m: Model, n: nat, docName: string)
    requires n <= |m.components|
  {
    docName in m.sets
        && exists c :: 0 <= c < n && m.components[c].count >= 1 && m.components[c].availabilitySet == Some(docName)
  }

  lemma NoSetAdded(docs: seq<Doc>, more: seq<Doc>, docName: string)
    requires forall i :: 0 <= i < |more| ==> !more[i].AvailabilitySet?
    ensures SetIn(docs + more, docName) <==> SetIn(docs, docName)
    ensures SetsOnce(docs) ==> SetsOnce(docs + more)
  {
    if i :| 0 <= i < |docs| && docs[i].AvailabilitySet? && docs[i].docName == docName {
      assert (docs + more)[i] == docs[i];
    }
  }

  lemma SetAdded(docs: seq<Doc>, d: Doc, docName: string)
    requires d.AvailabilitySet? && !SetIn(docs, d.docName)
    ensures SetIn(docs + [d], docName) <==> SetIn(docs, docName) || docName == d.docName
    ensures SetsOnce(docs) ==> SetsOnce(docs + [d])
  {
    assert (docs + [d])[|docs|] == d;
    if i :| 0 <= i < |docs| && docs[i].AvailabilitySet? && docs[i].docName == docName {
      assert (docs + [d])[i] == docs[i];
    }
  }

  lemma {:induction false} FoundSetIn(docs: seq<Doc>, docName: string)
    ensures FirstSet(docs, docName).Some? <==> SetIn(docs, docName)
  {
    if docs != [] {
      FoundSetIn(docs[1..], docName);
      if i :| 0 <= i < |docs| && docs[i].AvailabilitySet? && docs[i].docName == docName {
        assert i > 0 ==> docs[1..][i - 1] == docs[i];
      }
    }
  }

  lemma AddsSets(m: Model, w: Walk, c: Component, docName: string)
    requires c.count >= 1 && c.pools != [] && AddComponent(m, w, c).Success?
    ensures var r := AddComponent(m, w, c).value.docs;
            && (SetsOnce(w.docs) ==> SetsOnce(r))
            && (SetIn(r, docName) <==>
                  SetIn(w.docs, docName) || (c.availabilitySet == Some(docName) && docName in m.sets))
  {
    hide Machines, SetIn, SetsOnce, FirstSet, SetName, NewSubnet, FirstSubnet;
    var w1 := WithSubnet(m, w, c);
    NewSubnetHasNoSets(m, c);
    NoSetAdded(w.docs, NewSubnet(m, c), docName);
    var docs := w1.docs + NewSet(m, w1.docs, c);
    if c.availabilitySet.Some? {
      FoundSetIn(w1.docs, c.availabilitySet.value);
    }
    if NewSet(m, w1.docs, c) == [] {
      assert docs == w1.docs;
    } else {
      SetAdded(w1.docs, NewSet(m, w1.docs, c)[0], docName);
    }
    var subnet := FirstSubnet(w1.docs, c.pools[0]).value;
    var nsg := if m.useGroups then w1.nsg.value else "";
    var set' := if c.availabilitySet.Some? then FirstSet(docs, c.availabilitySet.value) else None;
    MachinesHaveNoSets(m, c, subnet, nsg, set', c.count);
    NoSetAdded(docs, Machines(m, c, subnet, nsg, set', c.count), docName);
  }

  lemma NewSubnetHasNoSets(m: Model, c: Component)
    requires c.pools != []
    ensures forall i :: 0 <= i < |NewSubnet(m, c)| ==> !NewSubnet(m, c)[i].AvailabilitySet?
  {
    hide Named;
  }

  lemma {:induction false} SetsOfPlan(m: Model, n: nat, docName: string)
    requires n <= |m.components| && Components(m, n).Success?
    ensures SetsOnce(Components(m, n).value.docs)
    ensures SetIn(Components(m, n).value.docs, docName) <==> SetAsked(m, n, docName)
  {
    hide SetIn, SetsOnce, AddComponent;
    if n == 0 {
      HeaderHasNoSets(m, docName);
    } else {
      SetsOfPlan(m, n - 1, docName);
      var w, c := Components(m, n - 1).value, m.components[n - 1];
      AddFails(m, w, c);
      if c.count >= 1 {
        AddsSets(m, w, c, docName);
      }
    }
  }

  lemma HeaderHasNoSets(m: Model, docName: string)
    ensures SetsOnce(Header(m)) && !SetIn(Header(m), docName)
  {
    hide ResourceName;
  }

  /**
   * The plan holds exactly the availability sets that the input defines and some enabled component asks for, each
   * once, and a machine that is in a set names one of them.
   */
  lemma SetsExactly(m: Model, docName: string)
    requires Build(m).Success?
    ensures var docs := Build(m).value;
            && SetsOnce(docs)
            && (SetIn(docs, docName) <==> SetAsked(m, |m.components|, docName))
            && forall i :: 0 <= i < |docs| && docs[i].Vm? && docs[i].setName.Some? ==>
                 NamesSet(docs, docs[i].setName.value)
  {
    hide Components, SetsOnce, SetAsked, NamesSet, SetIn;
    var w := Components(m, |m.components|).value;
    SetsOfPlan(m, |m.components|, docName);
    NoSetAdded(w.docs, [CloudInit], docName);
    forall i | 0 <= i < |Build(m).value| && Build(m).value[i].Vm? && Build(m).value[i].setName.Some?
      ensures NamesSet(Build(m).value, Build(m).value[i].setName.value)
    {
      SetOfMachine(m, Build(m).value[i]);
    }
  }

  lemma SetOfMachine(m: Model, d: Doc)
    requires Build(m).Success? && d in Build(m).value && d.Vm? && d.setName.Some?
    ensures NamesSet(Build(m).value, d.setName.value)
  {
    hide Components, Pick, MachineList, Named, SetName, Build, SetAsked;
    var n := |m.components|;
    var docs, cs := Build(m).value, Enabled(m, n);
    FinishedPlan(m);
    PickIn(docs, Vms, d);
    var k :| 0 <= k < |Pick(docs, Vms)| && Pick(docs, Vms)[k] == d;
    var c := cs[MachineList(cs)[k].at];
    assert d.setName == SetNameOf(m, c);
    AskedByEnabled(m, n, c);
    SetNamed(m, c.availabilitySet.value);
  }

  lemma AskedByEnabled(m: Model, n: nat, c: Component)
    requires n <= |m.components| && c in Enabled(m, n) && c.availabilitySet.Some? && c.availabilitySet.value in m.sets
    ensures SetAsked(m, n, c.availabilitySet.value)
  {
    if m.components[n - 1].count >= 1 && m.components[n - 1] == c {
      assert SetAsked(m, n, c.availabilitySet.value);
    } else {
      AskedByEnabled(m, n - 1, c);
    }
  }

  lemma SetNamed(m: Model, docName: string)
    requires Build(m).Success? && SetAsked(m, |m.components|, docName)
    ensures NamesSet(Build(m).value, SetName(m, docName))
  {
    hide Components, SetAsked, SetName;
    var n := |m.components|;
    PlanListed(m, n);
    SetsOfPlan(m, n, docName);
    var docs := Components(m, n).value.docs;
    var i :| 0 <= i < |docs| && docs[i].AvailabilitySet? && docs[i].docName == docName;
    assert Build(m).value[i] == docs[i];
  }

  // ---------- the fixed documents ----------

  /** One of the documents there is one of in every plan. */
  predicate IsFixed(d: Doc) {
    d.ResourceGroup? || d.Vnet? || d.StorageShare? || d.CloudInit?
  }

  predicate NoneFixed(docs: seq<Doc>) {
    forall i :: 0 <= i < |docs| ==> !IsFixed(docs[i])
  }

  lemma {:induction false} MachinesNotFixed(m: Model, c: Component, subnet: string, nsg: string, set': Option<string>,
                                            n: nat)
    ensures NoneFixed(Machines(m, c, subnet, nsg, set', n))
  {
    hide Named;
    if n != 0 {
      MachinesNotFixed(m, c, subnet, nsg, set', n - 1);
    }
  }

  lemma AddsNoFixed(m: Model, w: Walk, c: Component)
    requires AddComponent(m, w, c).Success?
    ensures var r := AddComponent(m, w, c).value.docs; w.docs <= r && NoneFixed(r[|w.docs|..])
  {
    hide Machines, FirstSet, SetName, FirstSubnet, Named;
    if c.count >= 1 {
      var w1 := WithSubnet(m, w, c);
      var docs := w1.docs + NewSet(m, w1.docs, c);
      var subnet := FirstSubnet(w1.docs, c.pools[0]).value;
      var nsg := if m.useGroups then w1.nsg.value else "";
      var set' := if c.availabilitySet.Some? then FirstSet(docs, c.availabilitySet.value) else None;
      MachinesNotFixed(m, c, subnet, nsg, set', c.count);
    }
  }

  lemma {:induction false} NoneFixedYet(m: Model, n: nat)
    requires n <= |m.components| && Components(m, n).Success?
    ensures var r := Components(m, n).value.docs; Header(m) <= r && NoneFixed(r[3..])
  {
    hide AddComponent;
    if n != 0 {
      NoneFixedYet(m, n - 1);
      var before, r := Components(m, n - 1).value.docs, Components(m, n).value.docs;
      AddsNoFixed(m, Components(m, n - 1).value, m.components[n - 1]);
      assert r[3..] == before[3..] + r[|before|..];
    }
  }

  /** Resource group, network and storage share come first, the cloud-init document last, and there is one of each. */
  lemma FixedDocuments(m: Model)
    requires Build(m).Success?
    ensures var docs := Build(m).value;
            && |docs| >= 4 && docs[0].ResourceGroup? && docs[1].Vnet? && docs[2].StorageShare?
            && docs[|docs| - 1].CloudInit? && NoneFixed(docs[3..|docs| - 1])
  {
    hide Components;
    NoneFixedYet(m, |m.components|);
    var docs := Components(m, |m.components|).value.docs;
    assert (docs + [CloudInit])[3..|docs|] == docs[3..];
  }
}
