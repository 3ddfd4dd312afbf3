/** The rules of the security groups: the defaults and the union of what the components bring. */
module AwsRules {
  import opened Results
  import opened Naming
  import opened AwsPlan
  import opened AwsLaws

  function Keys(rules: seq<Rule>): set<RuleKey> {
    set i | 0 <= i < |rules| :: KeyOf(rules[i])
  }

  /** `more` extends `rules` by rules new to it and to one another, up to case on the five fields. */
  ghost predicate ExtendsApart(rules: seq<Rule>, more: seq<Rule>) {
    && rules <= more
    && (forall i :: |rules| <= i < |more| ==> KeyOf(more[i]) !in Keys(rules))
    && (forall i, j :: |rules| <= i < j < |more| ==> KeyOf(more[i]) != KeyOf(more[j]))
  }

  lemma KeysAppend(a: seq<Rule>, b: seq<Rule>)
    ensures Keys(a + b) == Keys(a) + Keys(b)
  {
    forall k | k in Keys(a) + Keys(b) ensures k in Keys(a + b) {
      if k in Keys(a) {
        var i :| 0 <= i < |a| && KeyOf(a[i]) == k;
        assert (a + b)[i] == a[i];
      } else {
        var i :| 0 <= i < |b| && KeyOf(b[i]) == k;
        assert (a + b)[|a| + i] == b[i];
      }
    }
  }

  lemma ExtendsApartTransitive(a: seq<Rule>, b: seq<Rule>, c: seq<Rule>)
    requires ExtendsApart(a, b) && ExtendsApart(b, c)
    ensures ExtendsApart(a, c)
  {
    KeysAppend(a, b[|a|..]);
    assert b == a + b[|a|..];
    forall i, j | |a| <= i < j < |c| ensures KeyOf(c[i]) != KeyOf(c[j]) {
      if i < |b| <= j {
        assert KeyOf(b[i]) in Keys(b);
      }
    }
  }

  /** The rule loop adds exactly the rules whose key is not there yet. */
  lemma {:induction false} AddedRules(rules: seq<Rule>, more: seq<Rule>, n: nat)
    requires n <= |more|
    ensures ExtendsApart(rules, AddRules(rules, more, n))
    ensures Keys(AddRules(rules, more, n)) == Keys(rules) + Keys(more[..n])
  {
    hide KeyOf, Keys, ExtendsApart, RuleExists;
    if n == 0 {
      NothingAdded(rules);
      assert more[..0] == [];
    } else {
      AddedRules(rules, more, n - 1);
      var done, rule := AddRules(rules, more, n - 1), more[n - 1];
      assert more[..n] == more[..n - 1] + [rule];
      KeysSnoc(more[..n - 1], rule);
      KeysSnoc(done, rule);
      ExistsInKeys(done, rule);
      if !RuleExists(done, rule) {
        ApartSnoc(rules, done, rule);
      }
    }
  }

  /** `at` are, in order, the positions in `more` of the first rules of each key that `rules` has not. */
  ghost predicate FirstsOf(rules: seq<Rule>, more: seq<Rule>, at: seq<nat>) {
    && (forall k :: 0 <= k < |at| ==> at[k] < |more|)
    && (forall k, l :: 0 <= k < l < |at| ==> at[k] < at[l])
    && (forall k :: 0 <= k < |at| ==> IsFirst(more, at[k]) && KeyOf(more[at[k]]) !in Keys(rules))
  }

  /** No earlier rule has the key. */
  ghost predicate IsFirst(more: seq<Rule>, i: nat)
    requires i < |more|
  {
    forall q :: 0 <= q < i ==> KeyOf(more[q]) != KeyOf(more[i])
  }

  /** What is added are the offered rules themselves, in their order, the first of every new key. */
  lemma {:induction false} AddedInOrder(rules: seq<Rule>, more: seq<Rule>, n: nat) returns (at: seq<nat>)
    requires n <= |more|
    ensures FirstsOf(rules, more, at) && forall k :: 0 <= k < |at| ==> at[k] < n
    ensures var r := AddRules(rules, more, n);
            |r| == |rules| + |at| && rules <= r && forall k :: 0 <= k < |at| ==> r[|rules| + k] == more[at[k]]
  {
    hide KeyOf, Keys, RuleExists, IsFirst;
    if n == 0 {
      at := [];
    } else {
      at := AddedInOrder(rules, more, n - 1);
      var done, rule := AddRules(rules, more, n - 1), more[n - 1];
      if !RuleExists(done, rule) {
        ExistsInKeys(done, rule);
        AddedRules(rules, more, n - 1);
        NewIsFirst(more, n - 1);
        at := at + [n - 1];
      }
    }
  }

  lemma NewIsFirst(more: seq<Rule>, i: nat)
    requires i < |more| && KeyOf(more[i]) !in Keys(more[..i])
    ensures IsFirst(more, i)
  {
    hide KeyOf;
    forall q | 0 <= q < i ensures KeyOf(more[q]) != KeyOf(more[i]) {
      assert more[..i][q] == more[q];
      assert KeyOf(more[..i][q]) in Keys(more[..i]);
    }
  }

  /** Equal text, case aside. */
  predicate SameText(s: string, t: string) {
    |s| == |t| && forall i :: 0 <= i < |s| ==> LowerChar(s[i]) == LowerChar(t[i])
  }

  lemma SameLower(s: string, t: string)
    ensures Lower(s) == Lower(t) <==> SameText(s, t)
  {
    if Lower(s) == Lower(t) {
      forall i | 0 <= i < |s| ensures LowerChar(s[i]) == LowerChar(t[i]) {
        assert Lower(s)[i] == Lower(t)[i];
      }
    }
  }

  /** Two rules count as one exactly when they agree on the five fields, case aside. */
  lemma SameKeyExactly(a: Rule, b: Rule)
    ensures KeyOf(a) == KeyOf(b) <==>
              && SameText(a.direction, b.direction) && SameText(a.protocol, b.protocol)
              && SameText(a.source, b.source) && SameText(a.destination, b.destination)
              && match (a.port, b.port)
                 case (Text(s), Text(t)) => SameText(s, t)
                 case (Number(i), Number(j)) => i == j
                 case _ => false
  {
    SameLower(a.direction, b.direction);
    SameLower(a.protocol, b.protocol);
    SameLower(a.source, b.source);
    SameLower(a.destination, b.destination);
    if a.port.Text? && b.port.Text? {
      SameLower(a.port.text, b.port.text);
    }
  }

  lemma NothingAdded(rules: seq<Rule>)
    ensures ExtendsApart(rules, rules) && Keys([]) == {}
  {
  }

  lemma KeysSnoc(rules: seq<Rule>, rule: Rule)
    ensures Keys(rules + [rule]) == Keys(rules) + {KeyOf(rule)}
  {
    hide KeyOf;
    KeysAppend(rules, [rule]);
    assert [rule][0] == rule;
    assert Keys([rule]) == {KeyOf(rule)};
  }

  lemma ExistsInKeys(rules: seq<Rule>, rule: Rule)
    ensures RuleExists(rules, rule) <==> KeyOf(rule) in Keys(rules)
  {
    hide KeyOf;
  }

  lemma ApartSnoc(rules: seq<Rule>, done: seq<Rule>, rule: Rule)
    requires ExtendsApart(rules, done) && KeyOf(rule) !in Keys(done)
    ensures ExtendsApart(rules, done + [rule])
  {
    hide KeyOf;
    forall i | 0 <= i < |done| ensures KeyOf(done[i]) in Keys(done) {}
    KeysMonotone(rules, done);
  }

  lemma KeysMonotone(a: seq<Rule>, b: seq<Rule>)
    requires a <= b
    ensures Keys(a) <= Keys(b)
  {
    assert b == a + b[|a|..];
    KeysAppend(a, b[|a|..]);
  }

  // ---------- the rules one CIDR has collected ----------

  /** A component's rules offered once per definition of the CIDR among its first `n`. */
  function RulesAfter(rules: seq<Rule>, defs: seq<SubnetDef>, cidr: string, more: seq<Rule>, n: nat): seq<Rule>
    requires n <= |defs|
  {
    if n == 0 then rules
    else
      var done := RulesAfter(rules, defs, cidr, more, n - 1);
      if defs[n - 1].addressPool == cidr then AddRules(done, more, |more|) else done
  }

  function GroupRules(m: Model, cidr: string, n: nat): seq<Rule>
    requires n <= |m.components|
  {
    if n == 0 then m.groupRules
    else
      var done := GroupRules(m, cidr, n - 1);
      var c := m.components[n - 1];
      if c.count < 1 then done else RulesAfter(done, c.subnets, cidr, c.vm.rules, |c.subnets|)
  }

  /** An enabled component with a subnet definition of that CIDR. */
  predicate Uses(c: Component, cidr: string) {
    c.count >= 1 && exists i :: 0 <= i < |c.subnets| && c.subnets[i].addressPool == cidr
  }

  predicate Mentions(defs: seq<SubnetDef>, cidr: string, n: nat)
    requires n <= |defs|
  {
    exists i :: 0 <= i < n && defs[i].addressPool == cidr
  }

  lemma {:induction false} RulesAfterKeys(rules: seq<Rule>, defs: seq<SubnetDef>, cidr: string, more: seq<Rule>, n: nat)
    requires n <= |defs|
    ensures ExtendsApart(rules, RulesAfter(rules, defs, cidr, more, n))
    ensures Keys(RulesAfter(rules, defs, cidr, more, n)) == Keys(rules) +
        if Mentions(defs, cidr, n) then Keys(more) else {}
  {
    if n != 0 {
      RulesAfterKeys(rules, defs, cidr, more, n - 1);
      if defs[n - 1].addressPool == cidr {
        var done := RulesAfter(rules, defs, cidr, more, n - 1);
        AddedRules(done, more, |more|);
        assert more[..|more|] == more;
        ExtendsApartTransitive(rules, done, AddRules(done, more, |more|));
      }
      assert Mentions(defs, cidr, n) <==> Mentions(defs, cidr, n - 1) || defs[n - 1].addressPool == cidr;
    }
  }

  /** Which keys a CIDR has collected, whatever the order of the components. */
  ghost predicate Collected(m: Model, cidr: string, n: nat, key: RuleKey)
    requires n <= |m.components|
  {
    || key in Keys(m.groupRules)
    || exists c :: 0 <= c < n && Uses(m.components[c], cidr) && key in Keys(m.components[c].vm.rules)
  }

  /**
   * The rules collected for a CIDR are its defaults followed by pairwise different rules; their
   * keys are those of the defaults and of every enabled component using the CIDR, no others.
   */
  lemma {:induction false} CollectedRules(m: Model, cidr: string, n: nat)
    requires n <= |m.components|
    ensures ExtendsApart(m.groupRules, GroupRules(m, cidr, n))
    ensures forall key :: key in Keys(GroupRules(m, cidr, n)) <==> Collected(m, cidr, n, key)
  {
    if n != 0 {
      CollectedRules(m, cidr, n - 1);
      var c := m.components[n - 1];
      if c.count >= 1 {
        var done := GroupRules(m, cidr, n - 1);
        RulesAfterKeys(done, c.subnets, cidr, c.vm.rules, |c.subnets|);
        ExtendsApartTransitive(m.groupRules, done, GroupRules(m, cidr, n));
      }
      assert Uses(c, cidr) <==> c.count >= 1 && Mentions(c.subnets, cidr, |c.subnets|);
      forall key ensures key in Keys(GroupRules(m, cidr, n)) <==> Collected(m, cidr, n, key) {
        CollectedStep(m, cidr, n, key);
      }
    }
  }

  /** The collected rules beyond the defaults are rules of enabled components using the CIDR. */
  lemma {:induction false} CollectedFrom(m: Model, cidr: string, n: nat, i: nat)
    requires n <= |m.components| && |m.groupRules| <= i < |GroupRules(m, cidr, n)|
    ensures exists c :: 0 <= c < n && Uses(m.components[c], cidr)
                && GroupRules(m, cidr, n)[i] in m.components[c].vm.rules
  {
    if n != 0 {
      var c, done := m.components[n - 1], GroupRules(m, cidr, n - 1);
      CollectedRules(m, cidr, n - 1);
      if c.count >= 1 {
        OfferedOrBefore(done, c.subnets, cidr, c.vm.rules, |c.subnets|, i);
      }
      if i < |done| && GroupRules(m, cidr, n)[i] == done[i] {
        CollectedFrom(m, cidr, n - 1, i);
      } else {
        assert Uses(c, cidr) && GroupRules(m, cidr, n)[i] in c.vm.rules;
      }
    }
  }

  lemma {:induction false} OfferedOrBefore(rules: seq<Rule>, defs: seq<SubnetDef>, cidr: string, more: seq<Rule>,
                                           n: nat,
                                           i: nat)
    requires n <= |defs| && i < |RulesAfter(rules, defs, cidr, more, n)|
    ensures var r := RulesAfter(rules, defs, cidr, more, n);
            (i < |rules| && r[i] == rules[i]) || (Mentions(defs, cidr, n) && r[i] in more)
  {
    if n != 0 {
      var done := RulesAfter(rules, defs, cidr, more, n - 1);
      var r := RulesAfter(rules, defs, cidr, more, n);
      if defs[n - 1].addressPool == cidr {
        var at := AddedInOrder(done, more, |more|);
        assert i >= |done| ==> r[i] == more[at[i - |done|]];
      }
      if i < |done| {
        OfferedOrBefore(rules, defs, cidr, more, n - 1, i);
      }
    }
  }

  lemma CollectedStep(m: Model, cidr: string, n: nat, key: RuleKey)
    requires 0 < n <= |m.components|
    ensures Collected(m, cidr, n, key) <==>
              Collected(m, cidr, n - 1, key)
                  || (Uses(m.components[n - 1], cidr) && key in Keys(m.components[n - 1].vm.rules))
  {
  }

  /** The collected keys depend on the components as a multiset, not on their order. */
  lemma OrderDoesNotMatter(m: Model, m': Model, cidr: string)
    requires multiset(m.components) == multiset(m'.components) && m.groupRules == m'.groupRules
    ensures Keys(GroupRules(m, cidr, |m.components|)) == Keys(GroupRules(m', cidr, |m'.components|))
  {
    CollectedRules(m, cidr, |m.components|);
    CollectedRules(m', cidr, |m'.components|);
    forall key ensures Collected(m, cidr, |m.components|, key) <==> Collected(m', cidr, |m'.components|, key) {
      if Collected(m, cidr, |m.components|, key) {
        CollectedAnyOrder(m, m', cidr, key);
      }
      if Collected(m', cidr, |m'.components|, key) {
        CollectedAnyOrder(m', m, cidr, key);
      }
    }
  }

  lemma CollectedAnyOrder(m: Model, m': Model, cidr: string, key: RuleKey)
    requires multiset(m.components) == multiset(m'.components) && m.groupRules == m'.groupRules
    requires Collected(m, cidr, |m.components|, key)
    ensures Collected(m', cidr, |m'.components|, key)
  {
    if key !in Keys(m.groupRules) {
      var c :| 0 <= c < |m.components| && Uses(m.components[c], cidr) && key in Keys(m.components[c].vm.rules);
      assert m.components[c] in multiset(m.components);
      assert m.components[c] in m'.components;
      var d :| 0 <= d < |m'.components| && m'.components[d] == m.components[c];
    }
  }

  // ---------- the groups of the plan hold what their CIDR has collected ----------

  ghost predicate GroupCidrsDistinct(docs: seq<Doc>) {
    forall i, j :: 0 <= i < j < |GroupsIn(docs)| ==> GroupsIn(docs)[i].cidr != GroupsIn(docs)[j].cidr
  }

  /** Replacing the one group of a CIDR, seen in the list of groups. */
  lemma {:induction false} GroupReplaced(docs: seq<Doc>, g: nat, d: Doc)
    requires g < |docs| && docs[g].SecurityGroup? && d.SecurityGroup? && d.cidr == docs[g].cidr
    requires GroupCidrsDistinct(docs)
    ensures |GroupsIn(docs[g := d])| == |GroupsIn(docs)|
    ensures forall k :: 0 <= k < |GroupsIn(docs)| ==>
              GroupsIn(docs[g := d])[k] == if GroupsIn(docs)[k].cidr == d.cidr then d else GroupsIn(docs)[k]
  {
    var front, last := docs[..|docs| - 1], docs[|docs| - 1];
    var gs, fs := GroupsIn(docs), GroupsIn(front);
    assert fs <= gs;
    if g == |docs| - 1 {
      assert docs[g := d][..|docs| - 1] == front;
      assert gs == fs + [last];
      assert forall k :: 0 <= k < |fs| ==> gs[k].cidr != gs[|fs|].cidr;
    } else {
      assert docs[g := d][..|docs| - 1] == front[g := d];
      assert forall k :: 0 <= k < |fs| ==> fs[k] == gs[k];
      assert GroupCidrsDistinct(front);
      GroupReplaced(front, g, d);
      var k' := GroupListed(front, g);
      if last.SecurityGroup? {
        assert gs == fs + [last];
        assert gs[k'].cidr != gs[|fs|].cidr;
      }
    }
  }

  lemma {:induction false} OfferedRules(docs: seq<Doc>, defs: seq<SubnetDef>, rules: seq<Rule>, n: nat)
    requires n <= |defs| && GroupCidrsDistinct(docs)
    ensures var after := OfferAll(docs, defs, rules, n);
            && |GroupsIn(after)| == |GroupsIn(docs)|
            && forall k :: 0 <= k < |GroupsIn(docs)| ==>
                 && GroupsIn(after)[k].cidr == GroupsIn(docs)[k].cidr
                 && GroupsIn(after)[k].rules
                      == RulesAfter(GroupsIn(docs)[k].rules, defs, GroupsIn(docs)[k].cidr, rules, n)
  {
    if n != 0 {
      OfferedRules(docs, defs, rules, n - 1);
      var before, cidr := OfferAll(docs, defs, rules, n - 1), defs[n - 1].addressPool;
      OfferOnce(before, cidr, rules);
    }
  }

  lemma OfferOnce(docs: seq<Doc>, cidr: string, rules: seq<Rule>)
    requires GroupCidrsDistinct(docs)
    ensures var after := OfferRules(docs, cidr, rules);
            && |GroupsIn(after)| == |GroupsIn(docs)|
            && forall k :: 0 <= k < |GroupsIn(docs)| ==>
                 && GroupsIn(after)[k].cidr == GroupsIn(docs)[k].cidr
                 && GroupsIn(after)[k].rules ==
                      if GroupsIn(docs)[k].cidr == cidr then AddRules(GroupsIn(docs)[k].rules, rules, |rules|)
                          else GroupsIn(docs)[k].rules
  {
    var at := FirstGroup(docs, cidr);
    if at.Some? {
      var g := docs[at.value];
      GroupReplaced(docs, at.value, g.(rules := AddRules(g.rules, rules, |rules|)));
      var k := GroupListed(docs, at.value);
    } else {
      forall k | 0 <= k < |GroupsIn(docs)| ensures GroupsIn(docs)[k].cidr != cidr {
        var i := ListedGroup(docs, k);
      }
    }
  }

  /** Every group holds what its CIDR has collected. */
  ghost predicate HoldsCollected(m: Model, docs: seq<Doc>, n: nat)
    requires n <= |m.components|
  {
    forall k :: 0 <= k < |GroupsIn(docs)| ==> GroupsIn(docs)[k].rules == GroupRules(m, GroupsIn(docs)[k].cidr, n)
  }

  /** A CIDR nobody has used has collected only the defaults. */
  lemma {:induction false} UnusedCollectsNothing(m: Model, cidr: string, n: nat)
    requires n <= |m.components| && !HasCidr(Creations(m, n), cidr)
    ensures GroupRules(m, cidr, n) == m.groupRules
  {
    if n != 0 {
      var c, before := m.components[n - 1], Creations(m, n - 1);
      if c.count >= 1 {
        CreatedCovers(before, c.key, c.subnets, |c.subnets|, cidr);
        NoMention(m.groupRules, c.subnets, cidr, c.vm.rules, |c.subnets|);
      }
      UnusedCollectsNothing(m, cidr, n - 1);
    }
  }

  /** What has been created after a walk: what was before, and every CIDR walked over. */
  lemma {:induction false} CreatedCovers(cs: seq<Creation>, key: string, defs: seq<SubnetDef>, n: nat, cidr: string)
    requires n <= |defs|
    ensures HasCidr(CreationsOf(cs, key, defs, n), cidr) <==> HasCidr(cs, cidr) || Mentions(defs, cidr, n)
  {
    if n != 0 {
      CreatedCovers(cs, key, defs, n - 1, cidr);
      CreatedCovers(cs, key, defs, n - 1, defs[n - 1].addressPool);
      var done, r := CreationsOf(cs, key, defs, n - 1), CreationsOf(cs, key, defs, n);
      assert HasCidr(done, cidr) ==> HasCidr(r, cidr) by {
        if HasCidr(done, cidr) {
          var i :| 0 <= i < |done| && done[i].cidr == cidr;
          assert r[i].cidr == cidr;
        }
      }
      if !HasCidr(done, defs[n - 1].addressPool) {
        assert r[|done|].cidr == defs[n - 1].addressPool;
      }
    }
  }

  lemma {:induction false} NoMention(rules: seq<Rule>, defs: seq<SubnetDef>, cidr: string, more: seq<Rule>, n: nat)
    requires n <= |defs| && !Mentions(defs, cidr, n)
    ensures RulesAfter(rules, defs, cidr, more, n) == rules
  {
    if n != 0 {
      NoMention(rules, defs, cidr, more, n - 1);
    }
  }

  /** The walk leaves old groups alone and gives new ones the default rules. */
  lemma {:induction false} WalkedGroups(m: Model, key: string, docs: seq<Doc>, defs: seq<SubnetDef>, n: nat)
    requires n <= |defs|
    ensures var after := GroupsIn(WalkSubnets(m, key, docs, defs, n).docs);
            && GroupsIn(docs) <= after
            && forall k :: |GroupsIn(docs)| <= k < |after| ==> after[k].rules == m.groupRules
  {
    if n != 0 {
      WalkedGroups(m, key, docs, defs, n - 1);
      WalkedGroup(m, key, WalkSubnets(m, key, docs, defs, n - 1), defs[n - 1]);
    }
  }

  lemma WalkedGroup(m: Model, key: string, w: Walk, d: SubnetDef)
    ensures var before, after := GroupsIn(w.docs), GroupsIn(WalkSubnet(m, key, w, d).docs);
            before <= after && forall k :: |before| <= k < |after| ==> after[k].rules == m.groupRules
  {
    if FirstSubnet(w.docs, d.addressPool).None? {
      hide GroupsIn, SubnetsIn, AssociationsIn, SubnetName, GroupName, AssociationName, RouteTableName;
      var s := Subnet(SubnetName(m, key, w.next), d.addressPool, d.zone);
      TripleListed(w.docs, s, SecurityGroup(GroupName(m, key, w.next), d.addressPool, m.groupRules),
                   RouteAssociation(AssociationName(m, key, w.next), s.name, RouteTableName(m)));
    }
  }

  lemma {:induction false} GroupsHoldCollected(m: Model, n: nat)
    requires n <= |m.components|
    ensures HoldsCollected(m, Components(m, n).docs, n)
  {
    if n == 0 {
      HeaderHasNone(m);
    } else {
      GroupsHoldCollected(m, n - 1);
      if m.components[n - 1].count >= 1 {
        ComponentHoldsCollected(m, n);
      }
    }
  }

  lemma ComponentHoldsCollected(m: Model, n: nat)
    requires 0 < n <= |m.components| && m.components[n - 1].count >= 1
    requires HoldsCollected(m, Components(m, n - 1).docs, n - 1)
    ensures HoldsCollected(m, Components(m, n).docs, n)
  {
    hide SubnetsIn, GroupsIn, AssociationsIn, WalkSubnets, OfferAll, RulesAfter;
    var p, c := Components(m, n - 1), m.components[n - 1];
    var k := |c.subnets|;
    var w := WalkSubnets(m, c.key, p.docs, c.subnets, k);
    WalkedHoldCollected(m, n);
    var docs := OfferAll(w.docs, c.subnets, c.vm.rules, k);
    OfferedRules(w.docs, c.subnets, c.vm.rules, k);
    TailAdded(m, p, c);
    var tail := Components(m, n).docs[|docs|..];
    InAppend(docs, tail);
    NoneListed(tail);
  }

  lemma WalkedHoldCollected(m: Model, n: nat)
    requires 0 < n <= |m.components| && m.components[n - 1].count >= 1
    requires HoldsCollected(m, Components(m, n - 1).docs, n - 1)
    ensures var c := m.components[n - 1];
            var w := WalkSubnets(m, c.key, Components(m, n - 1).docs, c.subnets, |c.subnets|);
            HoldsCollected(m, w.docs, n - 1) && GroupCidrsDistinct(w.docs)
  {
    hide SubnetsIn, GroupsIn, AssociationsIn, GroupRules, WalkSubnets, CreationsOf, SubnetName, GroupName,
         AssociationName, RouteTableName;
    var c, before, docs := m.components[n - 1], Creations(m, n - 1), Components(m, n - 1).docs;
    var k := |c.subnets|;
    var w := WalkSubnets(m, c.key, docs, c.subnets, k);
    var cs := CreationsOf(before, c.key, c.subnets, k);
    PlanShaped(m, n - 1);
    WalkShaped(m, c.key, docs, before, c.subnets, k);
    CreationsDistinct(m, n);
    WalkedGroups(m, c.key, docs, c.subnets, k);
    CreationsNumbered(before, c.key, c.subnets, k);
    forall i | 0 <= i < |cs| ensures GroupsIn(w.docs)[i].rules == GroupRules(m, GroupsIn(w.docs)[i].cidr, n - 1) {
      if i < |before| {
        assert GroupsIn(w.docs)[i] == GroupsIn(docs)[i];
      } else {
        assert !HasCidr(before, cs[i].cidr);
        UnusedCollectsNothing(m, cs[i].cidr, n - 1);
      }
    }
  }

  // ---------- two orders of the components ----------

  /** The CIDRs made are those the enabled components use. */
  lemma {:induction false} CreatedExactly(m: Model, n: nat, cidr: string)
    requires n <= |m.components|
    ensures HasCidr(Creations(m, n), cidr) <==> exists c :: 0 <= c < n && Uses(m.components[c], cidr)
  {
    hide HasCidr, CreationsOf;
    if n == 0 {
      assert !HasCidr([], cidr) by { NoCidr(cidr); }
    } else {
      CreatedExactly(m, n - 1, cidr);
      var c := m.components[n - 1];
      CreatedCovers(Creations(m, n - 1), c.key, c.subnets, |c.subnets|, cidr);
      assert Uses(c, cidr) <==> c.count >= 1 && Mentions(c.subnets, cidr, |c.subnets|);
    }
  }

  lemma NoCidr(cidr: string)
    ensures !HasCidr([], cidr)
  {
  }

  lemma UsedAnyOrder(m: Model, m': Model, cidr: string)
    requires multiset(m.components) == multiset(m'.components)
    requires exists c :: 0 <= c < |m.components| && Uses(m.components[c], cidr)
    ensures exists c :: 0 <= c < |m'.components| && Uses(m'.components[c], cidr)
  {
    hide Uses;
    var c :| 0 <= c < |m.components| && Uses(m.components[c], cidr);
    assert m.components[c] in multiset(m.components);
    assert m.components[c] in m'.components;
    var d :| 0 <= d < |m'.components| && m'.components[d] == m.components[c];
  }

  /** A security group of a plan has the rules its CIDR has collected. */
  lemma GroupCollected(m: Model, i: nat)
    requires i < |Components(m, |m.components|).docs| && Components(m, |m.components|).docs[i].SecurityGroup?
    ensures var g := Components(m, |m.components|).docs[i];
            && g.rules == GroupRules(m, g.cidr, |m.components|) && HasCidr(Creations(m, |m.components|), g.cidr)
  {
    hide GroupRules, Components, Creations;
    var n := |m.components|;
    var docs := Components(m, n).docs;
    GroupsHoldCollected(m, n);
    PlanShaped(m, n);
    var k := GroupListed(docs, i);
    assert Creations(m, n)[k].cidr == docs[i].cidr;
  }

  /**
   * Two plans of the same components in different orders have security groups for the same CIDRs, and the
   * groups of a CIDR have the same rules up to case.
   */
  lemma PlansAgree(m: Model, m': Model, i: nat) returns (j: nat)
    requires multiset(m.components) == multiset(m'.components) && m.groupRules == m'.groupRules
    requires i < |Components(m, |m.components|).docs| && Components(m, |m.components|).docs[i].SecurityGroup?
    ensures j < |Components(m', |m'.components|).docs|
    ensures var g, g' := Components(m, |m.components|).docs[i], Components(m', |m'.components|).docs[j];
            g'.SecurityGroup? && g'.cidr == g.cidr && Keys(g'.rules) == Keys(g.rules)
  {
    hide GroupRules, Components, Creations, HasCidr, Keys, Uses;
    var n' := |m'.components|;
    var cidr := Components(m, |m.components|).docs[i].cidr;
    GroupCollected(m, i);
    CreatedExactly(m, |m.components|, cidr);
    UsedAnyOrder(m, m', cidr);
    CreatedExactly(m', n', cidr);
    PlanShaped(m', n');
    FoundWhenCreated(m', Components(m', n').docs, Creations(m', n'), cidr);
    j := FirstGroup(Components(m', n').docs, cidr).value;
    GroupCollected(m', j);
    OrderDoesNotMatter(m, m', cidr);
  }
}
