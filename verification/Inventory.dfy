/** The inventory: hosts listed under the roles of the components they serve. */
module Inventory {
  import opened Results
  import opened Naming

  /** A host; two hosts are equal only if they are one object. */
  class Host {
    const name: string
    const ip: string

    constructor (name: string, ip: string)
      ensures this.name == name && this.ip == ip
    {
      this.name, this.ip := name, ip;
    }
  }

  datatype Item = Item(role: string, hosts: seq<Host>)

  // ---------- grouping as a specification ----------

  /** The distinct hosts of a list in the order of their first occurrence. */
  function Distinct(hosts: seq<Host>): seq<Host> {
    if hosts == [] then []
    else
      var n := |hosts| - 1;
      var done := Distinct(hosts[..n]);
      if hosts[n] in done then done else done + [hosts[n]]
  }

  /** All hosts listed under a role, with repetitions. */
  function HostsUnder(items: seq<Item>, role: string): seq<Host> {
    if items == [] then []
    else
      var n := |items| - 1;
      HostsUnder(items[..n], role) + if items[n].role == role then items[n].hosts else []
  }

  /** The roles with at least one host in the order of their first host. */
  function Roles(items: seq<Item>): seq<string> {
    if items == [] then []
    else
      var n := |items| - 1;
      var done := Roles(items[..n]);
      if items[n].hosts == [] || items[n].role in done then done else done + [items[n].role]
  }

  function Grouped(items: seq<Item>): (r: seq<Item>)
    ensures |r| == |Roles(items)|
    ensures forall i :: 0 <= i < |r| ==> r[i] == Item(Roles(items)[i], Distinct(HostsUnder(items, Roles(items)[i])))
  {
    var roles := Roles(items);
    seq(|roles|, i requires 0 <= i < |roles| => Item(roles[i], Distinct(HostsUnder(items, roles[i]))))
  }

  // ---------- what grouping keeps ----------

  lemma {:induction false} DistinctMembers(hosts: seq<Host>)
    ensures forall h: Host :: h in Distinct(hosts) <==> h in hosts
  {
    if hosts != [] {
      var n := |hosts| - 1;
      DistinctMembers(hosts[..n]);
      assert hosts == hosts[..n] + [hosts[n]];
    }
  }

  /** `k` is the first position of a host. */
  predicate FirstAt(hosts: seq<Host>, h: Host, k: nat) {
    k < |hosts| && hosts[k] == h && forall j :: 0 <= j < k ==> hosts[j] != h
  }

  lemma FirstAtExtends(hosts: seq<Host>, n: nat, h: Host, k: nat)
    requires n <= |hosts| && FirstAt(hosts[..n], h, k)
    ensures FirstAt(hosts, h, k)
  {
    assert forall j :: 0 <= j < n ==> hosts[..n][j] == hosts[j];
  }

  /** No host twice, and the hosts in the order in which they were first seen. */
  lemma {:induction false} DistinctInOrder(hosts: seq<Host>) returns (at: seq<nat>)
    ensures var r := Distinct(hosts);
            && |at| == |r|
            && (forall i :: 0 <= i < |r| ==> FirstAt(hosts, r[i], at[i]))
            && (forall i, j :: 0 <= i < j < |r| ==> at[i] < at[j])
  {
    hide FirstAt;
    if hosts == [] {
      at := [];
    } else {
      var n := |hosts| - 1;
      at := DistinctInOrder(hosts[..n]);
      var r := Distinct(hosts[..n]);
      forall i | 0 <= i < |r| ensures FirstAt(hosts, r[i], at[i]) && at[i] < n {
        FirstAtExtends(hosts, n, r[i], at[i]);
        FirstAtBound(hosts[..n], r[i], at[i]);
      }
      if hosts[n] !in r {
        NewLast(hosts);
        at := at + [n];
      }
    }
  }

  lemma FirstAtBound(hosts: seq<Host>, h: Host, k: nat)
    requires FirstAt(hosts, h, k)
    ensures k < |hosts| && hosts[k] == h
  {
  }

  lemma NewLast(hosts: seq<Host>)
    requires hosts != [] && hosts[|hosts| - 1] !in Distinct(hosts[..|hosts| - 1])
    ensures FirstAt(hosts, hosts[|hosts| - 1], |hosts| - 1)
  {
    var n := |hosts| - 1;
    DistinctMembers(hosts[..n]);
    assert forall k :: 0 <= k < n ==> hosts[k] in hosts[..n];
  }

  ghost predicate NoRepeats(hosts: seq<Host>) {
    forall i, j :: 0 <= i < j < |hosts| ==> hosts[i] != hosts[j]
  }

  lemma DistinctHasNoRepeats(hosts: seq<Host>)
    ensures NoRepeats(Distinct(hosts))
  {
    var at := DistinctInOrder(hosts);
    var r := Distinct(hosts);
    forall i, j | 0 <= i < j < |r| ensures r[i] != r[j] {
      assert FirstAt(hosts, r[i], at[i]) && FirstAt(hosts, r[j], at[j]);
    }
  }

  lemma {:induction false} DistinctKeeps(hosts: seq<Host>)
    requires NoRepeats(hosts)
    ensures Distinct(hosts) == hosts
  {
    if hosts != [] {
      DistinctKeeps(hosts[..|hosts| - 1]);
    }
  }

  lemma {:induction false} UnderMembers(items: seq<Item>, role: string, h: Host)
    ensures h in HostsUnder(items, role)
        <==> exists i :: 0 <= i < |items| && items[i].role == role && h in items[i].hosts
  {
    if items != [] {
      UnderMembers(items[..|items| - 1], role, h);
    }
  }

  predicate HasHosts(items: seq<Item>, role: string) {
    exists i :: 0 <= i < |items| && items[i].role == role && items[i].hosts != []
  }

  lemma {:induction false} RoleMembers(items: seq<Item>, role: string)
    ensures role in Roles(items) <==> HasHosts(items, role)
  {
    if items != [] {
      var n := |items| - 1;
      RoleMembers(items[..n], role);
      assert HasHosts(items[..n], role) ==> HasHosts(items, role);
      if HasHosts(items, role) {
        var i :| 0 <= i < |items| && items[i].role == role && items[i].hosts != [];
        assert i < n ==> items[..n][i] == items[i];
      }
    }
  }

  /** `k` is the first position where a role has a host. */
  predicate FirstItem(items: seq<Item>, role: string, k: nat) {
    && k < |items| && items[k].role == role && items[k].hosts != []
    && forall j :: 0 <= j < k ==> items[j].role != role || items[j].hosts == []
  }

  lemma FirstItemExtends(items: seq<Item>, n: nat, role: string, k: nat)
    requires n <= |items| && FirstItem(items[..n], role, k)
    ensures FirstItem(items, role, k) && k < n
  {
    assert forall j :: 0 <= j < n ==> items[..n][j] == items[j];
  }

  lemma NewLastRole(items: seq<Item>)
    requires items != [] && items[|items| - 1].hosts != [] && items[|items| - 1].role !in Roles(items[..|items| - 1])
    ensures FirstItem(items, items[|items| - 1].role, |items| - 1)
  {
    var n := |items| - 1;
    RoleMembers(items[..n], items[n].role);
    assert forall k :: 0 <= k < n ==> items[..n][k] == items[k];
  }

  /** Each role once, in the order in which the roles first had a host. */
  lemma {:induction false} RolesInOrder(items: seq<Item>) returns (at: seq<nat>)
    ensures var r := Roles(items);
            && |at| == |r|
            && (forall i :: 0 <= i < |r| ==> FirstItem(items, r[i], at[i]))
            && (forall i, j :: 0 <= i < j < |r| ==> at[i] < at[j])
  {
    hide FirstItem;
    if items == [] {
      at := [];
    } else {
      var n := |items| - 1;
      at := RolesInOrder(items[..n]);
      var r := Roles(items[..n]);
      forall i | 0 <= i < |r| ensures FirstItem(items, r[i], at[i]) && at[i] < n {
        FirstItemExtends(items, n, r[i], at[i]);
      }
      if items[n].hosts != [] && items[n].role !in r {
        NewLastRole(items);
        at := at + [n];
      }
    }
  }

  /** A host is listed under a role after grouping exactly when it was before. */
  predicate Lists(items: seq<Item>, role: string, h: Host) {
    exists i :: 0 <= i < |items| && items[i].role == role && h in items[i].hosts
  }

  lemma GroupedLists(items: seq<Item>, role: string, h: Host)
    ensures Lists(Grouped(items), role, h) <==> Lists(items, role, h)
  {
    RoleMembers(items, role);
    UnderMembers(items, role, h);
    DistinctMembers(HostsUnder(items, role));
    if Lists(items, role, h) {
      var i :| 0 <= i < |items| && items[i].role == role && h in items[i].hosts;
      assert HasHosts(items, role);
      var k :| 0 <= k < |Roles(items)| && Roles(items)[k] == role;
      assert h in Grouped(items)[k].hosts;
    }
  }

  /** Roles distinct, none without hosts, no host twice under a role. */
  ghost predicate Canonical(items: seq<Item>) {
    && (forall i, j :: 0 <= i < j < |items| ==> items[i].role != items[j].role)
    && (forall i :: 0 <= i < |items| ==> items[i].hosts != [] && NoRepeats(items[i].hosts))
  }

  lemma GroupedIsCanonical(items: seq<Item>)
    ensures Canonical(Grouped(items))
  {
    hide Roles, Distinct, HostsUnder;
    var at := RolesInOrder(items);
    var roles := Roles(items);
    forall i, j | 0 <= i < j < |roles| ensures roles[i] != roles[j] {
      assert FirstItem(items, roles[i], at[i]) && FirstItem(items, roles[j], at[j]);
    }
    forall i | 0 <= i < |roles|
      ensures Distinct(HostsUnder(items, roles[i])) != [] && NoRepeats(Distinct(HostsUnder(items, roles[i])))
    {
      assert FirstItem(items, roles[i], at[i]);
      var hosts := HostsUnder(items, roles[i]);
      var h := items[at[i]].hosts[0];
      UnderMembers(items, roles[i], h);
      DistinctMembers(hosts);
      DistinctHasNoRepeats(hosts);
    }
  }

  lemma {:induction false} CanonicalRoles(items: seq<Item>)
    requires Canonical(items)
    ensures |Roles(items)| == |items| && forall i :: 0 <= i < |items| ==> Roles(items)[i] == items[i].role
  {
    if items != [] {
      CanonicalRoles(items[..|items| - 1]);
    }
  }

  lemma {:induction false} CanonicalUnder(items: seq<Item>, role: string)
    requires Canonical(items)
    ensures (forall i :: 0 <= i < |items| ==> items[i].role != role) ==> HostsUnder(items, role) == []
    ensures forall i :: 0 <= i < |items| && items[i].role == role ==> HostsUnder(items, role) == items[i].hosts
  {
    if items != [] {
      CanonicalUnder(items[..|items| - 1], role);
    }
  }

  lemma CanonicalStays(items: seq<Item>)
    requires Canonical(items)
    ensures Grouped(items) == items
  {
    CanonicalRoles(items);
    forall i | 0 <= i < |items| ensures Grouped(items)[i] == items[i] {
      CanonicalUnder(items, items[i].role);
      DistinctKeeps(items[i].hosts);
    }
  }

  /** Regrouping changes nothing. */
  lemma RegroupingChangesNothing(items: seq<Item>)
    ensures Grouped(Grouped(items)) == Grouped(items)
  {
    GroupedIsCanonical(items);
    CanonicalStays(Grouped(items));
  }

  // ---------- grouping as it runs ----------

  /** A dictionary from roles to host lists with its keys in insertion order. */
  class Groups {
    var keys: seq<string>
    var lists: map<string, seq<Host>>

    constructor ()
      ensures keys == [] && lists == map[]
    {
      keys, lists := [], map[];
    }

    /** The list of a role, empty and newly entered if the role is new. */
    method Get(role: string) returns (r: seq<Host>)
      modifies this
      ensures keys == if role in old(lists) then old(keys) else old(keys) + [role]
      ensures lists == old(lists)[role := r] && r == if role in old(lists) then old(lists)[role] else []
    {
      if role !in lists {
        keys, lists := keys + [role], lists[role := []];
      }
      r := lists[role];
    }

    /** The dictionary holds the grouping of the items. */
    ghost predicate Holds(items: seq<Item>)
      reads this
    {
      Group(keys, lists, items)
    }

    /** The body of the inner loop: one host of an item. */
    method Add(role: string, host: Host, ghost items: seq<Item>, ghost hosts: seq<Host>, ghost n: nat)
      requires n < |hosts| && hosts[n] == host && Holds(items + [Item(role, hosts[..n])])
      modifies this
      ensures Holds(items + [Item(role, hosts[..n + 1])])
    {
      hide Group;
      HostAdded(keys, lists, items, role, hosts, n);
      var list := Get(role);
      if host !in list {
        list := Get(role);
        lists := lists[role := list + [host]];
      }
      assert lists == old(lists)[role := lists[role]];
    }
  }

  ghost predicate Group(keys: seq<string>, lists: map<string, seq<Host>>, items: seq<Item>) {
    && keys == Roles(items)
    && (forall k :: k in lists <==> k in keys)
    && forall k :: k in lists ==> lists[k] == Distinct(HostsUnder(items, k))
  }

  lemma HostAdded(keys: seq<string>, lists: map<string, seq<Host>>, items: seq<Item>, role: string, hosts: seq<Host>,
                  n: nat)
    requires n < |hosts| && Group(keys, lists, items + [Item(role, hosts[..n])])
    ensures var list := if role in lists then lists[role] else [];
            Group(if role in lists then keys else keys + [role],
                  lists[role := if hosts[n] in list then list else list + [hosts[n]]],
                  items + [Item(role, hosts[..n + 1])])
  {
    hide Roles, HostsUnder, Distinct;
    var before, after := items + [Item(role, hosts[..n])], items + [Item(role, hosts[..n + 1])];
    OneMoreHost(items, role, hosts, n, role);
    if role !in Roles(before) {
      NoHostsUnder(before, role);
      DistinctNone();
    }
    DistinctSnoc(HostsUnder(before, role), hosts[n]);
    forall k | k in lists && k != role ensures lists[k] == Distinct(HostsUnder(after, k)) {
      OneMoreHost(items, role, hosts, n, k);
    }
  }

  lemma DistinctNone()
    ensures Distinct([]) == []
  {
  }

  lemma OneMoreHost(items: seq<Item>, role: string, hosts: seq<Host>, n: nat, k: string)
    requires n < |hosts|
    ensures var before, after := items + [Item(role, hosts[..n])], items + [Item(role, hosts[..n + 1])];
            && Roles(after) == (if role in Roles(before) then Roles(before) else Roles(before) + [role])
            && HostsUnder(after, k) == if k == role then HostsUnder(before, k) + [hosts[n]] else HostsUnder(before, k)
  {
    var before, after := items + [Item(role, hosts[..n])], items + [Item(role, hosts[..n + 1])];
    assert before[..|items|] == items && after[..|items|] == items;
    assert hosts[..n + 1] == hosts[..n] + [hosts[n]];
  }

  lemma DistinctSnoc(hosts: seq<Host>, h: Host)
    ensures Distinct(hosts + [h]) == if h in Distinct(hosts) then Distinct(hosts) else Distinct(hosts) + [h]
  {
    assert (hosts + [h])[..|hosts|] == hosts;
  }

  lemma NoHostsUnder(items: seq<Item>, role: string)
    requires role !in Roles(items)
    ensures HostsUnder(items, role) == []
  {
    RoleMembers(items, role);
    if HostsUnder(items, role) != [] {
      UnderMembers(items, role, HostsUnder(items, role)[0]);
    }
  }

  lemma EmptyHeld(groups: Groups, items: seq<Item>, role: string)
    requires groups.Holds(items)
    ensures groups.Holds(items + [Item(role, [])])
  {
    hide Roles, HostsUnder, Distinct;
    forall k
      ensures Roles(items + [Item(role, [])]) == Roles(items)
          && HostsUnder(items + [Item(role, [])], k) == HostsUnder(items, k)
    {
      EmptyItem(items, role, k);
    }
    EmptyItem(items, role, role);
  }

  lemma EmptyItem(items: seq<Item>, role: string, k: string)
    ensures Roles(items + [Item(role, [])]) == Roles(items)
        && HostsUnder(items + [Item(role, [])], k) == HostsUnder(items, k)
  {
    assert (items + [Item(role, [])])[..|items|] == items;
  }

  lemma NoneHeld()
    ensures Roles([]) == []
  {
  }

  method GroupDuplicated(inventory: seq<Item>) returns (result: seq<Item>)
    ensures result == Grouped(inventory)
  {
    hide Roles, HostsUnder, Distinct;
    var groups := new Groups();
    NoneHeld();
    for i := 0 to |inventory|
      invariant groups.Holds(inventory[..i]) && fresh(groups)
    {
      var item := inventory[i];
      EmptyHeld(groups, inventory[..i], item.role);
      assert item.hosts[..0] == [];
      for j := 0 to |item.hosts|
        invariant groups.Holds(inventory[..i] + [Item(item.role, item.hosts[..j])])
      {
        groups.Add(item.role, item.hosts[j], inventory[..i], item.hosts, j);
      }
      assert item.hosts[..|item.hosts|] == item.hosts;
      assert inventory[..i + 1] == inventory[..i] + [Item(item.role, item.hosts)];
    }
    assert inventory[..|inventory|] == inventory;
    result := [];
    for i := 0 to |groups.keys|
      invariant |result| == i && forall k :: 0 <= k < i ==> result[k] == Grouped(inventory)[k]
    {
      var key := groups.keys[i];
      assert key in groups.keys;
      result := result + [Item(key, groups.lists[key])];
    }
  }

  // ---------- the inventory of a cluster ----------

  datatype Component = Component(key: string, count: int)

  datatype InventoryError = NotSingleMapping(count: nat) | NotMapped(key: string)

  /** A mapping from component keys to features. */
  type RolesMapping = map<string, seq<string>>

  /** `get_roles_for_feature` over the feature mapping documents of the configuration. */
  function RolesFor(mappings: seq<RolesMapping>, key: string): Result<seq<string>, InventoryError> {
    if |mappings| != 1 then Failure(NotSingleMapping(|mappings|))
    else if key !in mappings[0] then Failure(NotMapped(key))
    else Success(mappings[0][key])
  }

  function ItemsFor(roles: seq<string>, hosts: seq<Host>): (r: seq<Item>)
    ensures |r| == |roles| && forall i :: 0 <= i < |roles| ==> r[i] == Item(ToRoleName(roles[i]), hosts)
  {
    seq(|roles|, i requires 0 <= i < |roles| => Item(ToRoleName(roles[i]), hosts))
  }

  /** The items of the first `n` components; `ips` gives the hosts of a component. */
  function Collected(cs: seq<Component>, ips: string -> seq<Host>, mappings: seq<RolesMapping>, n: nat)
    : Result<seq<Item>, InventoryError>
    requires n <= |cs|
  {
    if n == 0 then Success([])
    else
      var done :- Collected(cs, ips, mappings, n - 1);
      var c := cs[n - 1];
      if c.count < 1 || ips(c.key) == [] then Success(done)
      else
        var roles :- RolesFor(mappings, c.key);
        Success(done + ItemsFor(roles, ips(c.key)))
  }

  function InventoryOf(cs: seq<Component>, ips: string -> seq<Host>, mappings: seq<RolesMapping>)
    : Result<seq<Item>, InventoryError>
  {
    var items :- Collected(cs, ips, mappings, |cs|);
    Success(Grouped(items))
  }

  lemma {:induction false} CollectedStaysFailed(cs: seq<Component>, ips: string -> seq<Host>,
                                                mappings: seq<RolesMapping>, i: nat, n: nat)
    requires i <= n <= |cs| && Collected(cs, ips, mappings, i).Failure?
    ensures Collected(cs, ips, mappings, n) == Collected(cs, ips, mappings, i)
  {
    if i < n {
      CollectedStaysFailed(cs, ips, mappings, i, n - 1);
    }
  }

  method GetInventory(cs: seq<Component>, ips: string -> seq<Host>, mappings: seq<RolesMapping>)
    returns (r: Result<seq<Item>, InventoryError>)
    ensures r == InventoryOf(cs, ips, mappings)
  {
    hide Grouped, ToRoleName;
    var inventory: seq<Item> := [];
    for i := 0 to |cs|
      invariant Collected(cs, ips, mappings, i) == Success(inventory)
    {
      if cs[i].count < 1 {
        continue;
      }
      var hosts := ips(cs[i].key);
      if |hosts| > 0 {
        var roles := RolesFor(mappings, cs[i].key);
        if roles.Failure? {
          CollectedStaysFailed(cs, ips, mappings, i + 1, |cs|);
          return Failure(roles.error);
        }
        ghost var before := inventory;
        for j := 0 to |roles.value|
          invariant inventory == before + ItemsFor(roles.value, hosts)[..j]
        {
          inventory := inventory + [Item(ToRoleName(roles.value[j]), hosts)];
        }
        assert ItemsFor(roles.value, hosts)[..|roles.value|] == ItemsFor(roles.value, hosts);
      }
    }
    var groups := GroupDuplicated(inventory);
    r := Success(groups);
  }

  /** A component that brings a host to a role. */
  predicate Brings(c: Component, ips: string -> seq<Host>, mapping: RolesMapping, role: string, h: Host) {
    && c.count >= 1 && c.key in mapping && h in ips(c.key)
    && exists k :: 0 <= k < |mapping[c.key]| && ToRoleName(mapping[c.key][k]) == role
  }

  lemma {:induction false} CollectedLists(cs: seq<Component>, ips: string -> seq<Host>, mapping: RolesMapping, n: nat,
                                          role: string, h: Host)
    requires n <= |cs| && Collected(cs, ips, [mapping], n).Success?
    ensures Lists(Collected(cs, ips, [mapping], n).value, role, h)
        <==> exists i :: 0 <= i < n && Brings(cs[i], ips, mapping, role, h)
  {
    if n != 0 {
      CollectedLists(cs, ips, mapping, n - 1, role, h);
      var c, before, after := cs[n - 1], Collected(cs, ips, [mapping], n - 1).value,
          Collected(cs, ips, [mapping], n).value;
      if c.count >= 1 && ips(c.key) != [] {
        ListsAppend(before, ItemsFor(mapping[c.key], ips(c.key)), role, h);
        ItemsForLists(mapping[c.key], ips(c.key), role, h);
      }
    }
  }

  lemma ListsAppend(a: seq<Item>, b: seq<Item>, role: string, h: Host)
    ensures Lists(a + b, role, h) <==> Lists(a, role, h) || Lists(b, role, h)
  {
    if Lists(a, role, h) {
      var i :| 0 <= i < |a| && a[i].role == role && h in a[i].hosts;
      assert (a + b)[i] == a[i];
    }
    if Lists(b, role, h) {
      var i :| 0 <= i < |b| && b[i].role == role && h in b[i].hosts;
      assert (a + b)[|a| + i] == b[i];
    }
  }

  lemma ItemsForLists(roles: seq<string>, hosts: seq<Host>, role: string, h: Host)
    ensures Lists(ItemsFor(roles, hosts), role, h)
        <==> h in hosts && exists k :: 0 <= k < |roles| && ToRoleName(roles[k]) == role
  {
    hide ToRoleName;
    if exists k :: 0 <= k < |roles| && ToRoleName(roles[k]) == role {
      var k :| 0 <= k < |roles| && ToRoleName(roles[k]) == role;
      assert ItemsFor(roles, hosts)[k].role == role;
    }
  }

  /**
   * A host is in the inventory under a role exactly when an enabled component that has the host maps
   * to a feature of that role; every role and every host of a role is there once.
   */
  lemma InventoryLists(cs: seq<Component>, ips: string -> seq<Host>, mapping: RolesMapping, role: string, h: Host)
    requires InventoryOf(cs, ips, [mapping]).Success?
    ensures Lists(InventoryOf(cs, ips, [mapping]).value, role, h)
        <==> exists i :: 0 <= i < |cs| && Brings(cs[i], ips, mapping, role, h)
    ensures Canonical(InventoryOf(cs, ips, [mapping]).value)
  {
    var items := Collected(cs, ips, [mapping], |cs|).value;
    CollectedLists(cs, ips, mapping, |cs|, role, h);
    GroupedLists(items, role, h);
    GroupedIsCanonical(items);
  }

  /** When the inventory can be made: the components with hosts are mapped, by the only mapping there is. */
  lemma {:induction false} CollectedSucceeds(cs: seq<Component>, ips: string -> seq<Host>, mappings: seq<RolesMapping>,
                                             n: nat)
    requires n <= |cs|
    ensures Collected(cs, ips, mappings, n).Success?
       <==> forall i :: 0 <= i < n && cs[i].count >= 1 && ips(cs[i].key) != [] ==>
           |mappings| == 1 && cs[i].key in mappings[0]
  {
    if n != 0 {
      CollectedSucceeds(cs, ips, mappings, n - 1);
    }
  }
}
