/** Exactly when each check of an apply turns it down, stated on the files and the input alone. */
module ApplyGuards {
  import opened Results
  import opened Inventory
  import opened OsImages
  import opened ApplyEngine
  import opened ApplyGroups

  /** The groups of the inventory file have different roles. */
  predicate RolesDiffer(s: Files) {
    s.inventory.Some? ==> forall i, j :: 0 <= i < j < |s.inventory.value| ==>
      s.inventory.value[i].role != s.inventory.value[j].role
  }

  /** The cluster has the component, enabled. */
  predicate Enables(cs: seq<OsImages.Component>, key: string) {
    exists i :: 0 <= i < |cs| && cs[i].key == key && cs[i].count > 0
  }

  /** A group of the inventory and a component of the cluster have the name, and `n` hosts and count `k`. */
  predicate GroupAndCount(s: Files, cs: seq<OsImages.Component>, name: string, n: nat, k: int) {
    && s.inventory.Some?
    && (exists i :: 0 <= i < |s.inventory.value| && s.inventory.value[i].role == name
          && |s.inventory.value[i].hosts| == n)
    && exists j :: 0 <= j < |cs| && cs[j].key == name && cs[j].count == k
  }

  /** A cluster that is not of one machine asks for fewer masters than its inventory has. */
  ghost predicate FewerMasters(s: Files, input: Input) {
    !Enables(input.components, SINGLE)
        && exists n: nat, k: int :: GroupAndCount(s, input.components, MASTER, n, k) && n > k
  }

  /** The cluster asks for another number of postgresql machines than its inventory has. */
  ghost predicate OtherPostgres(s: Files, input: Input) {
    exists n: nat, k: int :: GroupAndCount(s, input.components, POSTGRES, n, k) && n != k
  }

  /** Two machines of different system families have been built. */
  ghost predicate MixedFamilies(s: Files, input: Input) {
    var b := Build(input.source, input.vms, input.components, s.manifest);
    && b.Success?
    && exists i, j :: 0 <= i < j < |b.value.docs| &&
         input.family(b.value.docs[i].image) != input.family(b.value.docs[j].image)
  }

  lemma {:induction false} SizeAt(items: seq<Item>, i: nat)
    requires i < |items| && forall x, y :: 0 <= x < y < |items| ==> items[x].role != items[y].role
    ensures GroupSize(items, items[i].role) == Some(|items[i].hosts|)
  {
    if i != 0 {
      SizeAt(items[1..], i - 1);
    }
  }

  lemma {:induction false} GroupOfSize(items: seq<Item>, role: string)
    ensures GroupSize(items, role).Some? ==>
              exists i :: 0 <= i < |items| && items[i].role == role && |items[i].hosts| == GroupSize(items, role).value
  {
    if items != [] {
      GroupOfSize(items[1..], role);
      if GroupSize(items, role).Some? && items[0].role != role {
        var i :| 0 <= i < |items| - 1 && items[1..][i].role == role
                 && |items[1..][i].hosts| == GroupSize(items, role).value;
        assert items[i + 1] == items[1..][i];
      }
    }
  }

  /** What the two searches of a guard find. */
  lemma SizeAndCount(s: Files, cs: seq<OsImages.Component>, name: string, n: nat, k: int)
    requires RolesDiffer(s) && KeysDiffer(cs)
    ensures GroupAndCount(s, cs, name, n, k)
       <==> s.inventory.Some? && GroupSize(s.inventory.value, name) == Some(n) && CountOf(cs, name) == Some(k)
  {
    hide GroupSize, CountOf;
    if GroupAndCount(s, cs, name, n, k) {
      var i :| 0 <= i < |s.inventory.value| && s.inventory.value[i].role == name && |s.inventory.value[i].hosts| == n;
      SizeAt(s.inventory.value, i);
      var j :| 0 <= j < |cs| && cs[j].key == name && cs[j].count == k;
      CountAt(cs, j);
    }
    if s.inventory.Some? {
      GroupOfSize(s.inventory.value, name);
    }
  }

  lemma SingleEnabled(cs: seq<OsImages.Component>)
    requires KeysDiffer(cs)
    ensures Enables(cs, SINGLE) <==> CountOf(cs, SINGLE).Some? && CountOf(cs, SINGLE).value > 0
  {
    hide CountOf;
    if i :| 0 <= i < |cs| && cs[i].key == SINGLE && cs[i].count > 0 {
      CountAt(cs, i);
    }
  }

  lemma GuardsRead(s: Files, input: Input)
    requires RolesDiffer(s) && KeysDiffer(input.components)
    ensures MasterShrinks(s.inventory, input.components) <==> FewerMasters(s, input)
    ensures PostgresChanges(s.inventory, input.components) <==> OtherPostgres(s, input)
  {
    hide GroupSize, CountOf, GroupAndCount, Enables;
    var cs := input.components;
    SingleEnabled(cs);
    forall name, n: nat, k
      ensures GroupAndCount(s, cs, name, n, k)
         <==> s.inventory.Some? && GroupSize(s.inventory.value, name) == Some(n) && CountOf(cs, name) == Some(k)
    {
      SizeAndCount(s, cs, name, n, k);
    }
  }

  lemma FamiliesRead(s: Files, input: Input)
    requires Build(input.source, input.vms, input.components, s.manifest).Success?
    ensures OneFamily(input.family, Build(input.source, input.vms, input.components, s.manifest).value.docs)
       <==> !MixedFamilies(s, input)
  {
    hide Build;
    var docs := Build(input.source, input.vms, input.components, s.manifest).value.docs;
    if i, j :| 0 <= i < |docs| && 0 <= j < |docs| && input.family(docs[i].image) != input.family(docs[j].image) {
      assert i < j || j < i;
    }
  }

  /** An apply is turned down for its masters exactly when it asks for fewer than there are. */
  lemma MastersRefusedExactly(s: Files, input: Input)
    requires RolesDiffer(s) && KeysDiffer(input.components)
    ensures Step(s, input).1 == Fail(MasterDownscale) <==> FewerMasters(s, input)
  {
    hide MasterShrinks, PostgresChanges, OneFamily, Build, InventoryOf;
    GuardsRead(s, input);
  }

  /** It is turned down for postgresql exactly when it gets past that and asks for another number than there are. */
  lemma PostgresRefusedExactly(s: Files, input: Input)
    requires RolesDiffer(s) && KeysDiffer(input.components)
    ensures Step(s, input).1 == Fail(PostgresScaled) <==> !FewerMasters(s, input) && OtherPostgres(s, input)
  {
    hide MasterShrinks, PostgresChanges, OneFamily, Build, InventoryOf;
    GuardsRead(s, input);
  }

  /** It is stopped for its systems exactly when it gets past both and two built machines differ in their family. */
  lemma MixedRefusedExactly(s: Files, input: Input)
    requires RolesDiffer(s) && KeysDiffer(input.components)
    ensures Step(s, input).1 == Fail(MixedSystems)
       <==> !FewerMasters(s, input) && !OtherPostgres(s, input) && MixedFamilies(s, input)
  {
    hide MasterShrinks, PostgresChanges, OneFamily, Build, InventoryOf;
    GuardsRead(s, input);
    if Build(input.source, input.vms, input.components, s.manifest).Success? {
      FamiliesRead(s, input);
    }
  }

  /**
   * An apply completes exactly when no check stops it, the machines and the configuration can be made and, unless it
   * is told not to configure them, the inventory can be.
   */
  lemma CompletesExactly(s: Files, input: Input)
    requires RolesDiffer(s) && KeysDiffer(input.components)
    ensures Step(s, input).1.Pass? <==>
              && !FewerMasters(s, input) && !OtherPostgres(s, input) && !MixedFamilies(s, input)
              && Build(input.source, input.vms, input.components, s.manifest).Success?
              && input.mappings.Some?
              && (!input.skipConfig ==> InventoryOf(Plain(input.components), input.ips, input.mappings.value).Success?)
  {
    hide MasterShrinks, PostgresChanges, OneFamily, Build, InventoryOf;
    GuardsRead(s, input);
    if Build(input.source, input.vms, input.components, s.manifest).Success? {
      FamiliesRead(s, input);
    }
  }

  /** Asking for at least as many masters as there are is never turned down for it. */
  lemma MastersMayGrow(s: Files, input: Input)
    requires RolesDiffer(s) && KeysDiffer(input.components)
    requires CountOf(input.components, MASTER).Some? && CountOf(input.components, MASTER).value >= Size(s, MASTER)
    ensures Step(s, input).1 != Fail(MasterDownscale)
  {
    hide GroupSize, CountOf, GroupAndCount, Enables, Step;
    MastersRefusedExactly(s, input);
    if n: nat, k: int :| GroupAndCount(s, input.components, MASTER, n, k) && n > k {
      SizeAndCount(s, input.components, MASTER, n, k);
    }
  }

  /** Applies keep the roles of the inventory different. */
  lemma RolesStayDifferent(s: Files, input: Input)
    requires RolesDiffer(s)
    ensures RolesDiffer(Step(s, input).0)
  {
    hide Step, Writes, InventoryOf;
    if Writes(s, input) {
      InventoryWritten(s, input);
      WrittenRolesDiffer(Plain(input.components), input.ips, input.mappings.value);
    } else {
      InventoryKept(s, input);
    }
  }

  lemma WrittenRolesDiffer(cs: seq<Inventory.Component>, ips: string -> seq<Host>, mappings: seq<RolesMapping>)
    requires InventoryOf(cs, ips, mappings).Success?
    ensures RolesDiffer(Files(None, Some(InventoryOf(cs, ips, mappings).value)))
  {
    GroupedIsCanonical(Collected(cs, ips, mappings, |cs|).value);
  }
}
