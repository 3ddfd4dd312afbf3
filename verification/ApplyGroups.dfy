/** Groups of the inventory over sequences of applies: the masters and the postgresql hosts. */
module ApplyGroups {
  import opened Results
  import opened Naming
  import opened Inventory
  import opened OsImages
  import opened ApplyEngine

  /** The components of a cluster have different keys. */
  predicate KeysDiffer(cs: seq<OsImages.Component>) {
    forall i, j :: 0 <= i < j < |cs| ==> cs[i].key != cs[j].key
  }

  /** A component is mapped to a feature of the role. */
  predicate Feeds(mapping: RolesMapping, key: string, role: string) {
    key in mapping && exists k :: 0 <= k < |mapping[key]| && ToRoleName(mapping[key][k]) == role
  }

  /** A role is fed by the component of its own name and by no other enabled component. */
  predicate FedByOwn(mapping: RolesMapping, cs: seq<OsImages.Component>, role: string) {
    && Feeds(mapping, role, role)
    && forall i :: 0 <= i < |cs| && cs[i].count >= 1 && cs[i].key != role ==> !Feeds(mapping, cs[i].key, role)
  }

  /** Every host that another enabled component brings to a role is one of the role's own. */
  predicate OwnHostsOnly(mapping: RolesMapping, cs: seq<OsImages.Component>, ips: string -> seq<Host>, role: string) {
    forall i, j :: 0 <= i < |cs| && cs[i].count >= 1 && Feeds(mapping, cs[i].key, role) && 0 <= j < |ips(cs[i].key)| ==>
      ips(cs[i].key)[j] in ips(role)
  }

  // ---------- sizes ----------

  lemma {:induction false} SetSize(a: seq<Host>)
    requires NoRepeats(a)
    ensures |set h | h in a| == |a|
  {
    if a != [] {
      SetSize(a[1..]);
      assert (set h | h in a) == (set h | h in a[1..]) + {a[0]};
    }
  }

  /** A list without repeats that has all of another is longer exactly when it has more. */
  lemma SizesOf(a: seq<Host>, b: seq<Host>)
    requires NoRepeats(a) && NoRepeats(b) && forall h: Host :: h in a ==> h in b
    ensures |a| <= |b|
    ensures |a| == |b| <==> forall h: Host :: h in b ==> h in a
  {
    SetSize(a);
    SetSize(b);
    var x, y := set h | h in a, set h | h in b;
    assert y == x + (y - x) && |y| == |x| + |y - x|;
    if |a| == |b| {
      assert y - x == {};
      forall h: Host | h in b ensures h in a {
        assert h in y && h !in y - x;
      }
    } else {
      assert y - x != {};
      var h :| h in y - x;
      assert h in b && h !in a;
    }
  }

  lemma {:induction false} GroupSizeOf(items: seq<Item>, i: nat)
    requires Canonical(items) && i < |items|
    ensures GroupSize(items, items[i].role) == Some(|items[i].hosts|)
  {
    if i != 0 {
      GroupSizeOf(items[1..], i - 1);
    }
  }

  lemma {:induction false} NoGroupSize(items: seq<Item>, role: string)
    requires forall i :: 0 <= i < |items| ==> items[i].role != role
    ensures GroupSize(items, role) == None
  {
    if items != [] {
      NoGroupSize(items[1..], role);
    }
  }

  lemma {:induction false} CountAt(cs: seq<OsImages.Component>, i: nat)
    requires KeysDiffer(cs) && i < |cs|
    ensures CountOf(cs, cs[i].key) == Some(cs[i].count)
  {
    if i != 0 {
      CountAt(cs[1..], i - 1);
    }
  }

  /** The hosts listed under a role, whose number is the size of its group. */
  lemma GroupOf(items: seq<Item>, role: string) returns (hosts: seq<Host>)
    requires Canonical(items)
    ensures NoRepeats(hosts) && forall h: Host :: Lists(items, role, h) <==> h in hosts
    ensures GroupSize(items, role) == if hosts == [] then None else Some(|hosts|)
  {
    if i :| 0 <= i < |items| && items[i].role == role {
      hosts := items[i].hosts;
      GroupSizeOf(items, i);
    } else {
      hosts := [];
      NoGroupSize(items, role);
    }
  }

  /** The enabled component at `i` feeds the role and has the host. */
  predicate BringsAt(cs: seq<OsImages.Component>, ips: string -> seq<Host>, mapping: RolesMapping, role: string,
                     h: Host, i: nat)
  {
    i < |cs| && cs[i].count >= 1 && Feeds(mapping, cs[i].key, role) && h in ips(cs[i].key)
  }

  lemma BroughtBy(cs: seq<OsImages.Component>, ips: string -> seq<Host>, mapping: RolesMapping, role: string, h: Host)
    ensures (exists i :: 0 <= i < |cs| && Brings(Plain(cs)[i], ips, mapping, role, h))
       <==> exists i: nat :: BringsAt(cs, ips, mapping, role, h, i)
  {
    if i: nat :| BringsAt(cs, ips, mapping, role, h, i) {
      assert Brings(Plain(cs)[i], ips, mapping, role, h);
    }
    if i :| 0 <= i < |cs| && Brings(Plain(cs)[i], ips, mapping, role, h) {
      assert BringsAt(cs, ips, mapping, role, h, i);
    }
  }

  /** The hosts of a role in the inventory. */
  lemma Members(cs: seq<OsImages.Component>, ips: string -> seq<Host>, mapping: RolesMapping, role: string)
    returns (hosts: seq<Host>)
    requires InventoryOf(Plain(cs), ips, [mapping]).Success?
    ensures NoRepeats(hosts)
    ensures forall h: Host :: h in hosts <==> exists i: nat :: BringsAt(cs, ips, mapping, role, h, i)
    ensures GroupSize(InventoryOf(Plain(cs), ips, [mapping]).value, role)
         == if hosts == [] then None else Some(|hosts|)
  {
    hide InventoryOf, Brings, BringsAt, GroupSize;
    var items := InventoryOf(Plain(cs), ips, [mapping]).value;
    InventoryCanonical(Plain(cs), ips, mapping);
    hosts := GroupOf(items, role);
    forall h: Host ensures h in hosts <==> exists i: nat :: BringsAt(cs, ips, mapping, role, h, i) {
      InventoryLists(Plain(cs), ips, mapping, role, h);
      BroughtBy(cs, ips, mapping, role, h);
    }
  }

  lemma InventoryCanonical(cs: seq<Inventory.Component>, ips: string -> seq<Host>, mapping: RolesMapping)
    requires InventoryOf(cs, ips, [mapping]).Success?
    ensures Canonical(InventoryOf(cs, ips, [mapping]).value)
  {
    GroupedIsCanonical(Collected(cs, ips, [mapping], |cs|).value);
  }

  /** A role fed by its own component alone has exactly the hosts that one asks for. */
  lemma OwnGroup(cs: seq<OsImages.Component>, ips: string -> seq<Host>, mapping: RolesMapping, role: string)
    requires KeysDiffer(cs) && CountOf(cs, role).Some? && FedByOwn(mapping, cs, role) && NoRepeats(ips(role))
    requires CountOf(cs, role).value >= 1 ==> |ips(role)| == CountOf(cs, role).value
    requires InventoryOf(Plain(cs), ips, [mapping]).Success?
    ensures var count := CountOf(cs, role).value;
            GroupSize(InventoryOf(Plain(cs), ips, [mapping]).value, role) == if count >= 1 then Some(count) else None
  {
    hide InventoryOf, Feeds, CountOf, GroupSize;
    var count := CountOf(cs, role).value;
    var hosts := Members(cs, ips, mapping, role);
    var o :| 0 <= o < |cs| && cs[o].key == role && cs[o].count == count;
    forall h: Host ensures h in hosts <==> count >= 1 && h in ips(role) {
      if h in hosts {
        var i: nat :| BringsAt(cs, ips, mapping, role, h, i);
        assert i == o;
      }
      if count >= 1 && h in ips(role) {
        assert BringsAt(cs, ips, mapping, role, h, o);
      }
    }
    if count >= 1 {
      forall h: Host | h in ips(role) ensures h in hosts {
        assert BringsAt(cs, ips, mapping, role, h, o);
      }
      SizesOf(ips(role), hosts);
    } else {
      SizesOf(hosts, []);
    }
  }

  /**
   * A group that its own component feeds has at least the hosts that one asks for, and no more exactly when other
   * enabled components bring only hosts it has.
   */
  lemma GroupAtLeast(cs: seq<OsImages.Component>, ips: string -> seq<Host>, mapping: RolesMapping, role: string)
    requires CountOf(cs, role).Some? && CountOf(cs, role).value >= 1 && Feeds(mapping, role, role)
    requires NoRepeats(ips(role)) && |ips(role)| == CountOf(cs, role).value
    requires InventoryOf(Plain(cs), ips, [mapping]).Success?
    ensures var n, count := GroupSize(InventoryOf(Plain(cs), ips, [mapping]).value, role), CountOf(cs, role).value;
            n.Some? && n.value >= count && (n.value == count <==> OwnHostsOnly(mapping, cs, ips, role))
  {
    hide InventoryOf, Feeds, CountOf, GroupSize;
    var count := CountOf(cs, role).value;
    var hosts := Members(cs, ips, mapping, role);
    var o :| 0 <= o < |cs| && cs[o].key == role && cs[o].count == count;
    forall h: Host | h in ips(role) ensures h in hosts {
      assert BringsAt(cs, ips, mapping, role, h, o);
    }
    assert ips(role)[0] in hosts;
    SizesOf(ips(role), hosts);
    if OwnHostsOnly(mapping, cs, ips, role) {
      forall h: Host | h in hosts ensures h in ips(role) {
        var i: nat :| BringsAt(cs, ips, mapping, role, h, i);
      }
    } else {
      var i, j :| 0 <= i < |cs| && cs[i].count >= 1 && Feeds(mapping, cs[i].key, role) && 0 <= j < |ips(cs[i].key)|
                  && ips(cs[i].key)[j] !in ips(role);
      assert BringsAt(cs, ips, mapping, role, ips(cs[i].key)[j], i);
    }
  }

  // ---------- one apply ----------

  /** The size of a group in the inventory; zero when there is none. */
  function Size(s: Files, role: string): nat {
    if s.inventory.None? then 0
    else match GroupSize(s.inventory.value, role) case None => 0 case Some(n) => n
  }

  /**
   * The cluster has the component of a role's name; where that is enabled, it gets as many different hosts as it
   * asks for and the feature mapping puts them under the role.
   */
  ghost predicate Staffed(input: Input, role: string) {
    var count := CountOf(input.components, role);
    && count.Some?
    && (count.value >= 1 ==>
          && NoRepeats(input.ips(role)) && |input.ips(role)| == count.value
          && (input.mappings.Some? ==>
                forall k :: 0 <= k < |input.mappings.value| ==> Feeds(input.mappings.value[k], role, role)))
  }

  /** Only a completed apply that configures the machines writes the inventory. */
  predicate Writes(s: Files, input: Input) {
    Step(s, input).1.Pass? && !input.skipConfig
  }

  lemma InventoryKept(s: Files, input: Input)
    requires !Writes(s, input)
    ensures Step(s, input).0.inventory == s.inventory
  {
    hide Build, InventoryOf, MasterShrinks, PostgresChanges, OneFamily;
  }

  lemma InventoryWritten(s: Files, input: Input)
    requires Writes(s, input)
    ensures !MasterShrinks(s.inventory, input.components) && !PostgresChanges(s.inventory, input.components)
    ensures input.mappings.Some?
    ensures var items := InventoryOf(Plain(input.components), input.ips, input.mappings.value);
            items.Success? && Step(s, input).0.inventory == Some(items.value)
  {
    hide Build, InventoryOf, MasterShrinks, PostgresChanges, OneFamily;
  }

  /** An inventory with hosts comes from the only feature mapping there is. */
  lemma OnlyMapping(cs: seq<OsImages.Component>, ips: string -> seq<Host>, mappings: seq<RolesMapping>, role: string)
    requires InventoryOf(Plain(cs), ips, mappings).Success?
    requires CountOf(cs, role).Some? && CountOf(cs, role).value >= 1 && ips(role) != []
    ensures |mappings| == 1 && mappings == [mappings[0]]
  {
    hide CountOf, Grouped;
    CollectedSucceeds(Plain(cs), ips, mappings, |cs|);
    var o :| 0 <= o < |cs| && cs[o].key == role && cs[o].count == CountOf(cs, role).value;
    assert Plain(cs)[o].count >= 1;
  }

  /** What a group counts after the inventory has been written for an enabled component of its name. */
  lemma SizeWritten(s: Files, input: Input, role: string)
    requires Writes(s, input) && Staffed(input, role) && CountOf(input.components, role).value >= 1
    ensures input.mappings.Some? && |input.mappings.value| == 1
    ensures var n, count := Size(Step(s, input).0, role), CountOf(input.components, role).value;
            && n >= count
            && (n == count <==> OwnHostsOnly(input.mappings.value[0], input.components, input.ips, role))
  {
    hide Step, InventoryOf, CountOf, GroupSize, Feeds, OwnHostsOnly, Writes, MasterShrinks, PostgresChanges;
    InventoryWritten(s, input);
    OnlyMapping(input.components, input.ips, input.mappings.value, role);
    GroupAtLeast(input.components, input.ips, input.mappings.value[0], role);
  }

  /** A cluster of more than one machine. */
  predicate NotSingle(input: Input) {
    CountOf(input.components, SINGLE).Some? ==> CountOf(input.components, SINGLE).value <= 0
  }

  lemma MastersStep(s: Files, input: Input)
    requires Staffed(input, MASTER) && NotSingle(input)
    ensures Size(s, MASTER) <= Size(Step(s, input).0, MASTER)
  {
    hide Step, Writes, InventoryOf, CountOf, GroupSize, Feeds, OwnHostsOnly;
    if Writes(s, input) {
      InventoryWritten(s, input);
      if CountOf(input.components, MASTER).value >= 1 {
        SizeWritten(s, input, MASTER);
      }
    } else {
      InventoryKept(s, input);
    }
  }

  /** An apply that writes the inventory keeps the group's size exactly when no other component brings it new hosts. */
  lemma PostgresStepExactly(s: Files, input: Input)
    requires Writes(s, input) && Staffed(input, POSTGRES) && Size(s, POSTGRES) > 0
    ensures input.mappings.Some? && |input.mappings.value| == 1
    ensures Size(Step(s, input).0, POSTGRES) == Size(s, POSTGRES)
       <==> OwnHostsOnly(input.mappings.value[0], input.components, input.ips, POSTGRES)
    ensures Size(Step(s, input).0, POSTGRES) >= Size(s, POSTGRES)
  {
    hide Step, Writes, InventoryOf, CountOf, GroupSize, Feeds, OwnHostsOnly;
    InventoryWritten(s, input);
    SizeWritten(s, input, POSTGRES);
  }

  // ---------- any sequence of applies ----------

  /** The files before and after each of a sequence of applies, completed or not. */
  ghost predicate Applies(files: seq<Files>, inputs: seq<Input>) {
    |files| == |inputs| + 1 && forall i :: 0 <= i < |inputs| ==> Step(files[i], inputs[i]).0 == files[i + 1]
  }

  /**
   * Over any applies at all the group of masters never shrinks while the cluster is one of several machines; other
   * components may put hosts into the group too.
   */
  lemma {:induction false} MastersNeverShrink(files: seq<Files>, inputs: seq<Input>, i: nat, j: nat)
    requires Applies(files, inputs) && i <= j < |files|
    requires forall k :: i <= k < j ==> Staffed(inputs[k], MASTER) && NotSingle(inputs[k])
    ensures Size(files[i], MASTER) <= Size(files[j], MASTER)
    decreases j
  {
    hide Step, Staffed, NotSingle, Size;
    if i < j {
      MastersNeverShrink(files, inputs, i, j - 1);
      MastersStep(files[j - 1], inputs[j - 1]);
    }
  }

  /** No component but postgresql itself brings hosts of its own to the postgresql group. */
  ghost predicate OwnPostgres(input: Input) {
    input.mappings.Some? ==> forall k :: 0 <= k < |input.mappings.value| ==>
      OwnHostsOnly(input.mappings.value[k], input.components, input.ips, POSTGRES)
  }

  /** Over any applies at all, once there are postgresql hosts their number stays. */
  lemma {:induction false} PostgresKeepsSize(files: seq<Files>, inputs: seq<Input>, i: nat, j: nat)
    requires Applies(files, inputs) && i <= j < |files| && Size(files[i], POSTGRES) > 0
    requires forall k :: i <= k < j ==> Staffed(inputs[k], POSTGRES) && OwnPostgres(inputs[k])
    ensures Size(files[j], POSTGRES) == Size(files[i], POSTGRES)
    decreases j
  {
    hide Step, Staffed, Size, Writes, OwnHostsOnly, CountOf;
    if i < j {
      PostgresKeepsSize(files, inputs, i, j - 1);
      if Writes(files[j - 1], inputs[j - 1]) {
        PostgresStepExactly(files[j - 1], inputs[j - 1]);
      } else {
        InventoryKept(files[j - 1], inputs[j - 1]);
        SameSize(files[j - 1], files[j]);
      }
    }
  }

  lemma SameSize(s: Files, s': Files)
    requires s.inventory == s'.inventory
    ensures Size(s, POSTGRES) == Size(s', POSTGRES)
  {
  }

  // ---------- the feature mapping of the program ----------

  const CUSTOM := "custom"
  /** The default feature mapping. */
  function Shipped(): RolesMapping {
    map[
      "kafka" := ["zookeeper", "jmx-exporter", "kafka", "kafka-exporter", "node-exporter", "filebeat", "firewall"],
      "rabbitmq" := ["rabbitmq", "node-exporter", "filebeat", "firewall"],
      "logging" := ["logging", "kibana", "node-exporter", "filebeat", "firewall"],
      "load_balancer" := ["haproxy", "haproxy-exporter", "node-exporter", "filebeat", "firewall"],
      "monitoring" := ["prometheus", "grafana", "node-exporter", "filebeat", "firewall"],
      POSTGRES := ["postgresql", "postgres-exporter", "node-exporter", "filebeat", "firewall"],
      CUSTOM := ["repository", "image-registry", "kubernetes-master", "node-exporter", "filebeat", "rabbitmq",
                 "postgresql", "prometheus", "grafana", "node-exporter", "logging", "firewall"],
      SINGLE := ["repository", "image-registry", "kubernetes-master", "helm", "applications", "rabbitmq",
                 "postgresql", "firewall", "vault"],
      MASTER := ["kubernetes-master", "helm", "applications", "node-exporter", "filebeat", "firewall", "vault"],
      "kubernetes_node" := ["kubernetes-node", "node-exporter", "filebeat", "firewall"],
      "ignite" := ["ignite", "node-exporter", "filebeat", "firewall"],
      "opendistro_for_elasticsearch" := ["opendistro-for-elasticsearch", "node-exporter", "filebeat", "firewall"],
      "repository" := ["repository", "image-registry", "firewall", "filebeat", "node-exporter"]
    ]
  }

  lemma Differ(s: string, t: string)
    requires |s| != |t| || exists i :: 0 <= i < |s| == |t| && s[i] != t[i] && s[i] != '-'
    ensures ToRoleName(s) != t
  {
    if |s| == |t| {
      var i :| 0 <= i < |s| && s[i] != t[i] && s[i] != '-';
      assert ToRoleName(s)[i] == s[i];
    }
  }

  lemma NoMaster(key: string)
    requires key in Shipped() && key != MASTER && key != CUSTOM && key != SINGLE
    ensures !Feeds(Shipped(), key, MASTER)
  {
    hide ToRoleName;
    var fs := Shipped()[key];
    forall k | 0 <= k < |fs| ensures ToRoleName(fs[k]) != MASTER {
      assert |fs[k]| == 17 ==> fs[k][0] == 'p';
      Differ(fs[k], MASTER);
    }
  }

  lemma NoPostgres(key: string)
    requires key in Shipped() && key != POSTGRES && key != CUSTOM && key != SINGLE
    ensures !Feeds(Shipped(), key, POSTGRES)
  {
    hide ToRoleName;
    var fs := Shipped()[key];
    forall k | 0 <= k < |fs| ensures ToRoleName(fs[k]) != POSTGRES {
      assert |fs[k]| == 10 ==> fs[k][1] != 'o';
      Differ(fs[k], POSTGRES);
    }
  }

  lemma Own()
    ensures Feeds(Shipped(), MASTER, MASTER) && Feeds(Shipped(), POSTGRES, POSTGRES)
  {
    MasterName();
    assert Shipped()[MASTER][0] == "kubernetes-master";
    assert ToRoleName("postgresql") == "postgresql";
    assert Shipped()[POSTGRES][0] == "postgresql";
  }

  lemma MasterName()
    ensures ToRoleName("kubernetes-master") == MASTER
  {
    var s := "kubernetes-master";
    assert s == "kubernetes" + "-master" && MASTER == "kubernetes" + "_master";
    assert ToRoleName("kubernetes") == "kubernetes" && ToRoleName("-master") == "_master";
    assert ToRoleName("kubernetes" + "-master") == ToRoleName("kubernetes") + ToRoleName("-master");
  }

  /** Neither the single machine nor the custom component is enabled. */
  predicate Usual(cs: seq<OsImages.Component>) {
    forall i :: 0 <= i < |cs| && (cs[i].key == SINGLE || cs[i].key == CUSTOM) ==> cs[i].count < 1
  }

  /** With the program's own mapping both guarded roles are fed by their own components. */
  lemma ShippedFedByOwn(cs: seq<OsImages.Component>)
    requires Usual(cs)
    ensures FedByOwn(Shipped(), cs, MASTER) && FedByOwn(Shipped(), cs, POSTGRES)
  {
    hide Shipped, ToRoleName, Feeds;
    Own();
    forall i | 0 <= i < |cs| && cs[i].count >= 1
      ensures cs[i].key != MASTER ==> !Feeds(Shipped(), cs[i].key, MASTER)
      ensures cs[i].key != POSTGRES ==> !Feeds(Shipped(), cs[i].key, POSTGRES)
    {
      NoFeeder(cs[i].key);
    }
  }

  lemma NoFeeder(key: string)
    requires key != CUSTOM && key != SINGLE
    ensures key != MASTER ==> !Feeds(Shipped(), key, MASTER)
    ensures key != POSTGRES ==> !Feeds(Shipped(), key, POSTGRES)
  {
    hide Shipped, ToRoleName;
    if key in Shipped() && key != MASTER {
      NoMaster(key);
    }
    if key in Shipped() && key != POSTGRES {
      NoPostgres(key);
    }
  }

  /**
   * With the program's own mapping and neither of these two components the guarded component need only get the
   * hosts it asks for.
   */
  lemma ShippedStaffed(input: Input, role: string)
    requires role == MASTER || role == POSTGRES
    requires input.mappings == Some([Shipped()]) && Usual(input.components)
    requires var count := CountOf(input.components, role);
             count.Some? && (count.value >= 1 ==> NoRepeats(input.ips(role)) && |input.ips(role)| == count.value)
    ensures Staffed(input, role) && (role == POSTGRES ==> OwnPostgres(input))
  {
    hide Shipped, ToRoleName, Feeds, CountOf;
    ShippedFedByOwn(input.components);
    if role == POSTGRES {
      OnlyOwnHosts(Shipped(), input.components, input.ips, POSTGRES);
    }
  }

  lemma OnlyOwnHosts(mapping: RolesMapping, cs: seq<OsImages.Component>, ips: string -> seq<Host>, role: string)
    requires FedByOwn(mapping, cs, role)
    ensures OwnHostsOnly(mapping, cs, ips, role)
  {
    hide Feeds;
  }

  /** The postgresql component with one host and the custom one with another, both enabled. */
  function WithCustom(own: Host, other: Host): Input {
    Input(Source(Aws, Default, (n, v) => Some("image")), [],
          [OsImages.Component(POSTGRES, 1, "vm"), OsImages.Component(CUSTOM, 1, "vm")], i => i, Some([Shipped()]),
          k => if k == POSTGRES then [own] else [other], false)
  }

  /** The custom component, once enabled, brings its host to the postgresql group, which the guard does not see. */
  lemma CustomGrows(own: Host, other: Host)
    requires own != other
    ensures var s := Files(None, Some([Item(POSTGRES, [own])]));
            && Staffed(WithCustom(own, other), POSTGRES) && Writes(s, WithCustom(own, other))
            && Size(s, POSTGRES) == 1 && Size(Step(s, WithCustom(own, other)).0, POSTGRES) > 1
  {
    hide Shipped, Feeds, Step, Writes, CountOf;
    var s, input := Files(None, Some([Item(POSTGRES, [own])])), WithCustom(own, other);
    var cs := input.components;
    Own();
    CustomFeeds();
    CustomCounts(own, other);
    CustomWrites(s, own, other);
    PostgresStepExactly(s, input);
    assert input.ips(cs[1].key)[0] == other;
  }

  lemma CustomFeeds()
    ensures CUSTOM in Shipped() && POSTGRES in Shipped() && Feeds(Shipped(), CUSTOM, POSTGRES)
  {
    assert ToRoleName("postgresql") == "postgresql";
    assert Shipped()[CUSTOM][6] == "postgresql";
  }

  lemma CustomCounts(own: Host, other: Host)
    ensures var cs := WithCustom(own, other).components;
            CountOf(cs, POSTGRES) == Some(1) && CountOf(cs, MASTER) == None
  {
    var cs := WithCustom(own, other).components;
    assert CountOf(cs[1..], MASTER) == CountOf(cs[1..][1..], MASTER);
  }

  lemma CustomWrites(s: Files, own: Host, other: Host)
    requires s == Files(None, Some([Item(POSTGRES, [own])]))
    ensures Writes(s, WithCustom(own, other))
  {
    hide Shipped, CountOf, Grouped, Build;
    var input := WithCustom(own, other);
    var cs := input.components;
    CustomFeeds();
    CustomCounts(own, other);
    CustomBuilds(own, other);
    CollectedSucceeds(Plain(cs), input.ips, [Shipped()], 2);
  }

  lemma CustomBuilds(own: Host, other: Host)
    ensures var input := WithCustom(own, other);
            var b := Build(input.source, [], input.components, None);
            b.Success? && forall i :: 0 <= i < |b.value.docs| ==> b.value.docs[i].image == "image"
  {
    hide Shipped;
    var input := WithCustom(own, other);
    var src, cs, d := input.source, input.components, VmDoc("vm", "image");
    assert Select(src, [], "vm", None) == Success(("image", []));
    assert BuildFirst(src, [], cs, None, 0) == Success(Built([], []));
    assert BuildFirst(src, [], cs, None, 1) == Success(Built([] + Repeat(d, 1), []));
    assert BuildFirst(src, [], cs, None, 2) == Success(Built([] + Repeat(d, 1) + Repeat(d, 1), []));
  }
}
