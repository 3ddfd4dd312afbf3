/** The order of the inventory: by component, and by feature of a component. */
module InventoryOrder {
  import opened Results
  import opened Naming
  import opened Inventory

  /** The `feature`-th feature of the `component`-th component. */
  datatype Spot = Spot(component: nat, feature: nat)

  predicate Before(a: Spot, b: Spot) {
    a.component < b.component || (a.component == b.component && a.feature < b.feature)
  }

  /** The component is enabled, has hosts and is mapped to such a feature. */
  predicate Counts(cs: seq<Component>, ips: string -> seq<Host>, mapping: RolesMapping, x: Spot) {
    && x.component < |cs|
    && var c := cs[x.component];
       c.count >= 1 && ips(c.key) != [] && c.key in mapping && x.feature < |mapping[c.key]|
  }

  /** The item of a feature of a component. */
  function ItemAt(cs: seq<Component>, ips: string -> seq<Host>, mapping: RolesMapping, x: Spot): Item
    requires Counts(cs, ips, mapping, x)
  {
    var key := cs[x.component].key;
    Item(ToRoleName(mapping[key][x.feature]), ips(key))
  }

  /** The items are those of the features of the first `n` components, in order, each once. */
  ghost predicate Spots(cs: seq<Component>, ips: string -> seq<Host>, mapping: RolesMapping, n: nat, items: seq<Item>,
                        from: seq<Spot>)
  {
    && |from| == |items|
    && (forall k :: 0 <= k < |from| ==>
          from[k].component < n && Counts(cs, ips, mapping, from[k]) && items[k] == ItemAt(cs, ips, mapping, from[k]))
    && (forall k, l :: 0 <= k < l < |from| ==> Before(from[k], from[l]))
    && forall x: Spot :: x.component < n && Counts(cs, ips, mapping, x) ==> x in from
  }

  function SpotsOf(component: nat, features: nat): (r: seq<Spot>)
    ensures |r| == features && forall k :: 0 <= k < features ==> r[k] == Spot(component, k)
  {
    seq(features, k requires 0 <= k => Spot(component, k))
  }

  /** The list of hosts by role goes through components and their features in order and leaves out nothing. */
  lemma {:induction false} CollectedInOrder(cs: seq<Component>, ips: string -> seq<Host>, mapping: RolesMapping,
                                            n: nat) returns (from: seq<Spot>)
    requires n <= |cs| && Collected(cs, ips, [mapping], n).Success?
    ensures Spots(cs, ips, mapping, n, Collected(cs, ips, [mapping], n).value, from)
  {
    hide ToRoleName;
    if n == 0 {
      from := [];
    } else {
      from := CollectedInOrder(cs, ips, mapping, n - 1);
      var c := cs[n - 1];
      if c.count >= 1 && ips(c.key) != [] {
        ComponentSpots(cs, ips, mapping, n, Collected(cs, ips, [mapping], n - 1).value, from);
        from := from + SpotsOf(n - 1, |mapping[c.key]|);
      }
    }
  }

  lemma BeforeLast(from: seq<Spot>, more: seq<Spot>, component: nat)
    requires forall k, l :: 0 <= k < l < |from| ==> Before(from[k], from[l])
    requires forall k :: 0 <= k < |from| ==> from[k].component < component
    requires forall k :: 0 <= k < |more| ==> more[k] == Spot(component, k)
    ensures forall k, l :: 0 <= k < l < |from + more| ==> Before((from + more)[k], (from + more)[l])
  {
  }

  lemma ComponentSpots(cs: seq<Component>, ips: string -> seq<Host>, mapping: RolesMapping, n: nat, items: seq<Item>,
                       from: seq<Spot>)
    requires 0 < n <= |cs| && Spots(cs, ips, mapping, n - 1, items, from)
    requires var c := cs[n - 1]; c.count >= 1 && ips(c.key) != [] && c.key in mapping
    ensures var c := cs[n - 1];
            Spots(cs, ips, mapping, n, items + ItemsFor(mapping[c.key], ips(c.key)),
                  from + SpotsOf(n - 1, |mapping[c.key]|))
  {
    hide ToRoleName, Before;
    var c := cs[n - 1];
    BeforeLast(from, SpotsOf(n - 1, |mapping[c.key]|), n - 1);
    var more := SpotsOf(n - 1, |mapping[c.key]|);
    forall x: Spot | x.component < n && Counts(cs, ips, mapping, x) ensures x in from + more {
      if x.component == n - 1 {
        assert more[x.feature] == x;
      }
    }
  }

  /** `x` is the first feature of the role, in the order of components and features. */
  ghost predicate FirstSpot(cs: seq<Component>, ips: string -> seq<Host>, mapping: RolesMapping, role: string, x: Spot)
  {
    && Counts(cs, ips, mapping, x) && ItemAt(cs, ips, mapping, x).role == role
    && forall y :: Counts(cs, ips, mapping, y) && Before(y, x) ==> ItemAt(cs, ips, mapping, y).role != role
  }

  /** The groups of the inventory are in the order in which components and their features first bring their role. */
  lemma InventoryInOrder(cs: seq<Component>, ips: string -> seq<Host>, mapping: RolesMapping) returns (at: seq<Spot>)
    requires InventoryOf(cs, ips, [mapping]).Success?
    ensures var r := InventoryOf(cs, ips, [mapping]).value;
            && |at| == |r|
            && (forall i :: 0 <= i < |r| ==> FirstSpot(cs, ips, mapping, r[i].role, at[i]))
            && (forall i, j :: 0 <= i < j < |r| ==> Before(at[i], at[j]))
  {
    hide Counts, Roles, Distinct, HostsUnder, ItemAt, FirstSpot, FirstItem, Before;
    var items := Collected(cs, ips, [mapping], |cs|).value;
    var from := CollectedInOrder(cs, ips, mapping, |cs|);
    var firsts := RolesInOrder(items);
    var roles := Roles(items);
    forall i | 0 <= i < |roles| ensures firsts[i] < |from| && FirstSpot(cs, ips, mapping, roles[i], from[firsts[i]]) {
      FirstSpotAt(cs, ips, mapping, items, from, roles[i], firsts[i]);
    }
    at := seq(|roles|, i requires 0 <= i < |roles| => from[firsts[i]]);
  }

  lemma FirstSpotAt(cs: seq<Component>, ips: string -> seq<Host>, mapping: RolesMapping, items: seq<Item>,
                    from: seq<Spot>, role: string, k: nat)
    requires Spots(cs, ips, mapping, |cs|, items, from) && FirstItem(items, role, k)
    ensures k < |from| && FirstSpot(cs, ips, mapping, role, from[k])
  {
    hide ToRoleName;
    forall y | Counts(cs, ips, mapping, y) && Before(y, from[k]) ensures ItemAt(cs, ips, mapping, y).role != role {
      var l :| 0 <= l < |from| && from[l] == y;
      assert l < k;
    }
  }

  /** Under a role the hosts are in the order in which those components first bring them. */
  lemma HostsInOrder(cs: seq<Component>, ips: string -> seq<Host>, mapping: RolesMapping, i: nat)
    returns (from: seq<Spot>, items: seq<Item>, at: seq<nat>)
    requires InventoryOf(cs, ips, [mapping]).Success? && i < |InventoryOf(cs, ips, [mapping]).value|
    ensures Spots(cs, ips, mapping, |cs|, items, from)
    ensures var group := InventoryOf(cs, ips, [mapping]).value[i];
            && |at| == |group.hosts|
            && (forall k :: 0 <= k < |at| ==> FirstAt(HostsUnder(items, group.role), group.hosts[k], at[k]))
            && (forall k, l :: 0 <= k < l < |at| ==> at[k] < at[l])
  {
    hide Spots, FirstAt, Roles, Distinct, HostsUnder;
    items := Collected(cs, ips, [mapping], |cs|).value;
    from := CollectedInOrder(cs, ips, mapping, |cs|);
    at := DistinctInOrder(HostsUnder(items, Roles(items)[i]));
  }
}
