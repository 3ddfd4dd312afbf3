/** When the search for an equal rule ends with an error, read off the model. */
module AwsPorts {
  import opened Results
  import opened Naming
  import opened AwsPlan
  import opened AwsLaws
  import opened AwsRules

  // ---------- one list of rules offered to one group ----------

  /**
   * The offer of `more[k]` reads the port of the `i`-th rule of the group's own and those offered before it: they
   * clash, and none before that is equal to the offered one.
   */
  predicate Reads(rules: seq<Rule>, more: seq<Rule>, k: nat, i: nat) {
    && k < |more| && i < |rules| + k
    && Clash((rules + more)[i], more[k]) && NoneEqual(rules + more, more[k], i)
  }

  /** One of the offered rules reads a port, and that or its own is no text. */
  ghost predicate ReadsSome(rules: seq<Rule>, more: seq<Rule>) {
    exists k: nat, i: nat :: Reads(rules, more, k, i)
  }

  lemma {:induction false} AddRulesGrows(rules: seq<Rule>, more: seq<Rule>, k: nat, n: nat)
    requires k <= n <= |more|
    ensures AddRules(rules, more, k) <= AddRules(rules, more, n)
  {
    if k < n {
      AddRulesGrows(rules, more, k, n - 1);
    }
  }

  /** Where a rule of the list came from. */
  lemma {:induction false} CameFrom(rules: seq<Rule>, more: seq<Rule>, n: nat, i: nat) returns (t: nat)
    requires n <= |more| && |rules| <= i < |AddRules(rules, more, n)|
    ensures t < n && AddRules(rules, more, n)[i] == more[t] && AddRules(rules, more, n)[..i] == AddRules(rules, more, t)
    decreases n
  {
    var before := AddRules(rules, more, n - 1);
    if i < |before| {
      t := CameFrom(rules, more, n - 1, i);
      AddRulesGrows(rules, more, n - 1, n);
      assert AddRules(rules, more, n)[..i] == before[..i];
    } else {
      t := n - 1;
      assert AddRules(rules, more, n)[..i] == before;
    }
  }

  /** No rule equal to `rule` has joined exactly when none has been offered. */
  lemma SameUnequal(rules: seq<Rule>, more: seq<Rule>, t: nat, rule: Rule)
    requires t <= |more|
    ensures var now := AddRules(rules, more, t);
            NoneEqual(now, rule, |now|) <==> NoneEqual(rules + more, rule, |rules| + t)
  {
    hide AddRules, KeyOf;
    var now := AddRules(rules, more, t);
    AddedRules(rules, more, t);
    KeysAppend(rules, more[..t]);
    assert rules + more[..t] == (rules + more)[..|rules| + t];
    UnequalKeys(now, rule, |now|);
    UnequalKeys(rules + more, rule, |rules| + t);
    assert now[..|now|] == now;
  }

  lemma UnequalKeys(rules: seq<Rule>, rule: Rule, n: nat)
    requires n <= |rules|
    ensures NoneEqual(rules, rule, n) <==> KeyOf(rule) !in Keys(rules[..n])
  {
    hide KeyOf;
    if j :| 0 <= j < n && KeyOf(rules[j]) == KeyOf(rule) {
      assert rules[..n][j] == rules[j];
    }
  }

  lemma NoneEqualPrefix(a: seq<Rule>, b: seq<Rule>, rule: Rule, n: nat)
    requires n <= |a| && n <= |b| && a[..n] == b[..n]
    ensures NoneEqual(a, rule, n) <==> NoneEqual(b, rule, n)
  {
    hide KeyOf;
    assert forall j :: 0 <= j < n ==> a[j] == a[..n][j] && b[j] == b[..n][j];
  }

  lemma RaisesReads(rules: seq<Rule>, more: seq<Rule>, k: nat) returns (i: nat)
    requires k < |more| && SearchRaises(AddRules(rules, more, k), more[k])
    ensures Reads(rules, more, k, i)
  {
    hide AddRules, KeyOf, Clash;
    var now := AddRules(rules, more, k);
    var p :| 0 <= p < |now| && Clash(now[p], more[k]) && NoneEqual(now, more[k], p);
    AddedRules(rules, more, k);
    if p < |rules| {
      i := p;
      assert now[..p] == rules[..p] == (rules + more)[..p];
      NoneEqualPrefix(now, rules + more, more[k], p);
    } else {
      var t := CameFrom(rules, more, k, p);
      i := |rules| + t;
      var then' := AddRules(rules, more, t);
      NoneEqualPrefix(now, then', more[k], p);
      SameUnequal(rules, more, t, more[k]);
    }
  }

  /** The first rule equal to `rule`. */
  lemma {:induction false} FirstEqual(rules: seq<Rule>, rule: Rule, n: nat) returns (p: nat)
    requires n < |rules| && KeyOf(rules[n]) == KeyOf(rule)
    ensures p < |rules| && KeyOf(rules[p]) == KeyOf(rule) && NoneEqual(rules, rule, p)
  {
    hide KeyOf;
    p := n;
    if !NoneEqual(rules, rule, n) {
      var j :| 0 <= j < n && KeyOf(rules[j]) == KeyOf(rule);
      p := FirstEqual(rules, rule, j);
    }
  }

  lemma ReadsRaises(rules: seq<Rule>, more: seq<Rule>, k: nat, i: nat)
    requires Reads(rules, more, k, i)
    ensures OfferRaises(rules, more, k + 1)
  {
    hide AddRules, KeyOf, Clash, RuleExists;
    var now, rule := AddRules(rules, more, k), more[k];
    AddedRules(rules, more, k);
    if i < |rules| {
      assert now[..i] == rules[..i] == (rules + more)[..i];
      NoneEqualPrefix(now, rules + more, rule, i);
      assert now[i] == rules[i];
      assert SearchRaises(now, rule);
    } else {
      OfferedClash(rules, more, k, i - |rules|);
    }
  }

  /** The clashing rule was offered too: it has joined, it raised itself, or an equal one stands for it. */
  lemma OfferedClash(rules: seq<Rule>, more: seq<Rule>, k: nat, t: nat)
    requires t < k < |more| && Clash(more[t], more[k]) && NoneEqual(rules + more, more[k], |rules| + t)
    ensures SearchRaises(AddRules(rules, more, k), more[k]) || SearchRaises(AddRules(rules, more, t), more[t])
  {
    hide AddRules, KeyOf, Clash;
    var then', now := AddRules(rules, more, t), AddRules(rules, more, k);
    SameUnequal(rules, more, t, more[k]);
    AddRulesGrows(rules, more, t, k);
    AddRulesGrows(rules, more, t + 1, k);
    if RuleExists(then', more[t]) {
      var j :| 0 <= j < |then'| && KeyOf(then'[j]) == KeyOf(more[t]);
      var p := FirstEqual(then', more[t], j);
      EqualClashes(then'[p], more[t], more[k]);
      NoneEqualPrefix(then', now, more[k], p);
    } else {
      Joined(rules, more, t);
      NoneEqualPrefix(then', now, more[k], |then'|);
      assert now[|then'|] == AddRules(rules, more, t + 1)[|then'|];
    }
  }

  lemma Joined(rules: seq<Rule>, more: seq<Rule>, t: nat)
    requires t < |more| && !RuleExists(AddRules(rules, more, t), more[t])
    ensures AddRules(rules, more, t + 1) == AddRules(rules, more, t) + [more[t]]
  {
  }

  /** A rule equal to one that clashes clashes too, with it or with the other. */
  lemma EqualClashes(p: Rule, a: Rule, b: Rule)
    requires KeyOf(p) == KeyOf(a) && Clash(a, b)
    ensures Clash(p, b) || Clash(p, a)
  {
    hide Lower;
  }

  /** Offering the rules ends with an error exactly when one of them reads a port that is no text. */
  lemma OfferRaisesExactly(rules: seq<Rule>, more: seq<Rule>)
    ensures OfferRaises(rules, more, |more|) <==> ReadsSome(rules, more)
  {
    hide AddRules, SearchRaises, Reads;
    if k :| 0 <= k < |more| && SearchRaises(AddRules(rules, more, k), more[k]) {
      var i := RaisesReads(rules, more, k);
    }
    if k: nat, i: nat :| Reads(rules, more, k, i) {
      assert k < |more| by { InBounds(rules, more, k, i); }
      ReadsRaises(rules, more, k, i);
    }
  }

  lemma InBounds(rules: seq<Rule>, more: seq<Rule>, k: nat, i: nat)
    requires Reads(rules, more, k, i)
    ensures k < |more|
  {
  }

  // ---------- all rules offered for a CIDR ----------

  /** The rules of a component, once for each of its first `n` definitions of the CIDR. */
  function OffersOf(defs: seq<SubnetDef>, cidr: string, rules: seq<Rule>, n: nat): seq<Rule>
    requires n <= |defs|
  {
    if n == 0 then []
    else OffersOf(defs, cidr, rules, n - 1) + if defs[n - 1].addressPool == cidr then rules else []
  }

  /** The rules the first `n` components offer for a CIDR, in order. */
  function Offers(m: Model, cidr: string, n: nat): seq<Rule>
    requires n <= |m.components|
  {
    if n == 0 then []
    else
      var c := m.components[n - 1];
      Offers(m, cidr, n - 1) + if c.count < 1 then [] else OffersOf(c.subnets, cidr, c.vm.rules, |c.subnets|)
  }

  lemma {:induction false} AddRulesAppend(rules: seq<Rule>, a: seq<Rule>, b: seq<Rule>, n: nat)
    requires n <= |b|
    ensures AddRules(rules, a + b, |a| + n) == AddRules(AddRules(rules, a, |a|), b, n)
    decreases n
  {
    if n == 0 {
      AddRulesPrefix(rules, a, b, |a|);
    } else {
      AddRulesAppend(rules, a, b, n - 1);
    }
  }

  lemma {:induction false} AddRulesPrefix(rules: seq<Rule>, a: seq<Rule>, b: seq<Rule>, n: nat)
    requires n <= |a|
    ensures AddRules(rules, a + b, n) == AddRules(rules, a, n)
  {
    if n != 0 {
      AddRulesPrefix(rules, a, b, n - 1);
    }
  }

  lemma OfferRaisesAppend(rules: seq<Rule>, a: seq<Rule>, b: seq<Rule>)
    ensures OfferRaises(rules, a + b, |a + b|)
       <==> OfferRaises(rules, a, |a|) || OfferRaises(AddRules(rules, a, |a|), b, |b|)
  {
    hide AddRules, SearchRaises;
    forall k | 0 <= k < |a| ensures AddRules(rules, a + b, k) == AddRules(rules, a, k) && (a + b)[k] == a[k] {
      AddRulesPrefix(rules, a, b, k);
    }
    forall k | 0 <= k < |b|
      ensures AddRules(rules, a + b, |a| + k) == AddRules(AddRules(rules, a, |a|), b, k) && (a + b)[|a| + k] == b[k]
    {
      AddRulesAppend(rules, a, b, k);
    }
    if OfferRaises(rules, a + b, |a + b|) {
      var k :| 0 <= k < |a + b| && SearchRaises(AddRules(rules, a + b, k), (a + b)[k]);
      if k >= |a| {
        assert |a| + (k - |a|) == k;
        assert SearchRaises(AddRules(AddRules(rules, a, |a|), b, k - |a|), b[k - |a|]);
      }
    }
    if OfferRaises(AddRules(rules, a, |a|), b, |b|) {
      var k :| 0 <= k < |b| && SearchRaises(AddRules(AddRules(rules, a, |a|), b, k), b[k]);
      assert SearchRaises(AddRules(rules, a + b, |a| + k), (a + b)[|a| + k]);
    }
  }

  lemma NoOfferRaises(rules: seq<Rule>)
    ensures !OfferRaises(rules, [], 0)
  {
  }

  lemma {:induction false} RulesAfterOffers(rules: seq<Rule>, defs: seq<SubnetDef>, cidr: string, more: seq<Rule>,
                                            n: nat)
    requires n <= |defs|
    ensures RulesAfter(rules, defs, cidr, more, n)
         == AddRules(rules, OffersOf(defs, cidr, more, n), |OffersOf(defs, cidr, more, n)|)
  {
    if n != 0 {
      RulesAfterOffers(rules, defs, cidr, more, n - 1);
      var before := OffersOf(defs, cidr, more, n - 1);
      if defs[n - 1].addressPool == cidr {
        AddRulesAppend(rules, before, more, |more|);
      } else {
        assert before + [] == before;
      }
    }
  }

  /** What a CIDR has collected is what has been offered for it. */
  lemma {:induction false} CollectedOffers(m: Model, cidr: string, n: nat)
    requires n <= |m.components|
    ensures GroupRules(m, cidr, n) == AddRules(m.groupRules, Offers(m, cidr, n), |Offers(m, cidr, n)|)
  {
    hide AddRules;
    if n == 0 {
      NothingOffered(m.groupRules);
    } else {
      CollectedOffers(m, cidr, n - 1);
      var c, before := m.components[n - 1], Offers(m, cidr, n - 1);
      if c.count >= 1 {
        var more := OffersOf(c.subnets, cidr, c.vm.rules, |c.subnets|);
        RulesAfterOffers(GroupRules(m, cidr, n - 1), c.subnets, cidr, c.vm.rules, |c.subnets|);
        AddRulesAppend(m.groupRules, before, more, |more|);
      } else {
        assert before + [] == before;
      }
    }
  }

  lemma NothingOffered(rules: seq<Rule>)
    ensures AddRules(rules, [], 0) == rules
  {
  }

  /** The offers for one CIDR among the first `n` definitions end with an error. */
  lemma {:induction false} OffersOfRaise(rules: seq<Rule>, defs: seq<SubnetDef>, cidr: string, more: seq<Rule>, n: nat)
    requires n <= |defs|
    ensures OfferRaises(rules, OffersOf(defs, cidr, more, n), |OffersOf(defs, cidr, more, n)|)
       <==> exists i :: 0 <= i < n && defs[i].addressPool == cidr
                        && OfferRaises(RulesAfter(rules, defs, cidr, more, i), more, |more|)
  {
    hide OfferRaises, AddRules, RulesAfter;
    if n == 0 {
      NoOfferRaises(rules);
    } else {
      OffersOfRaise(rules, defs, cidr, more, n - 1);
      var before := OffersOf(defs, cidr, more, n - 1);
      RulesAfterOffers(rules, defs, cidr, more, n - 1);
      if defs[n - 1].addressPool == cidr {
        OfferRaisesAppend(rules, before, more);
      } else {
        assert before + [] == before;
      }
    }
  }

  // ---------- the plan ----------

  /** The rules a component meets at its `i`-th definition. */
  lemma RulesMet(m: Model, n: nat, i: nat)
    requires 0 < n <= |m.components| && m.components[n - 1].count >= 1 && i < |m.components[n - 1].subnets|
    ensures var c := m.components[n - 1];
            var w := WalkSubnets(m, c.key, Components(m, n - 1).docs, c.subnets, |c.subnets|);
            var cidr := c.subnets[i].addressPool;
            RulesAt(OfferAll(w.docs, c.subnets, c.vm.rules, i), cidr)
              == RulesAfter(GroupRules(m, cidr, n - 1), c.subnets, cidr, c.vm.rules, i)
  {
    hide Components, WalkSubnets, OfferAll, GroupRules, RulesAfter, GroupsIn, Creations, FirstGroup;
    var c := m.components[n - 1];
    var w := WalkSubnets(m, c.key, Components(m, n - 1).docs, c.subnets, |c.subnets|);
    var cidr, offered := c.subnets[i].addressPool, OfferAll(w.docs, c.subnets, c.vm.rules, i);
    GroupsHoldCollected(m, n - 1);
    WalkedHoldCollected(m, n);
    OfferedRules(w.docs, c.subnets, c.vm.rules, i);
    GroupMet(m, n, i);
    var at := FirstGroup(offered, cidr).value;
    var k := GroupListed(offered, at);
  }

  /** The group of a definition's CIDR is there when the component's rules are offered. */
  lemma GroupMet(m: Model, n: nat, i: nat)
    requires 0 < n <= |m.components| && m.components[n - 1].count >= 1 && i < |m.components[n - 1].subnets|
    ensures var c := m.components[n - 1];
            var w := WalkSubnets(m, c.key, Components(m, n - 1).docs, c.subnets, |c.subnets|);
            FirstGroup(OfferAll(w.docs, c.subnets, c.vm.rules, i), c.subnets[i].addressPool).Some?
  {
    hide Components, OfferAll, Creations, CreationsOf, WalkSubnets, Shaped;
    var c, docs := m.components[n - 1], Components(m, n - 1).docs;
    var k := |c.subnets|;
    var w, cidr := WalkSubnets(m, c.key, docs, c.subnets, k), c.subnets[i].addressPool;
    var cs := CreationsOf(Creations(m, n - 1), c.key, c.subnets, k);
    PlanShaped(m, n - 1);
    WalkShaped(m, c.key, docs, Creations(m, n - 1), c.subnets, k);
    CreatedCovers(Creations(m, n - 1), c.key, c.subnets, k, cidr);
    FoundWhenCreated(m, w.docs, cs, cidr);
    var at := FirstGroup(w.docs, cidr).value;
    OfferKeepsOthers(w.docs, c.subnets, c.vm.rules, i);
    var after := OfferAll(w.docs, c.subnets, c.vm.rules, i);
    assert after[at].SecurityGroup? && after[at].cidr == cidr;
  }

  /** The offers of one component for some CIDR end with an error. */
  lemma ComponentRaisesExactly(m: Model, n: nat)
    requires 0 < n <= |m.components|
    ensures ComponentRaises(m, Components(m, n - 1), m.components[n - 1])
       <==> exists cidr :: m.components[n - 1].count >= 1 && OffersRaise(m, n, cidr)
  {
    hide Components, WalkSubnets, OfferAll, GroupRules, RulesAfter, OfferRaises, RulesAt, OffersOf;
    var c := m.components[n - 1];
    if c.count >= 1 {
      var docs := WalkSubnets(m, c.key, Components(m, n - 1).docs, c.subnets, |c.subnets|).docs;
      forall i | 0 <= i < |c.subnets|
        ensures RulesAt(OfferAll(docs, c.subnets, c.vm.rules, i), c.subnets[i].addressPool)
             == RulesAfter(GroupRules(m, c.subnets[i].addressPool, n - 1), c.subnets, c.subnets[i].addressPool,
                           c.vm.rules, i)
      {
        RulesMet(m, n, i);
      }
      if i :| 0 <= i < |c.subnets| && OfferRaises(
           RulesAt(OfferAll(docs, c.subnets, c.vm.rules, i), c.subnets[i].addressPool), c.vm.rules, |c.vm.rules|) {
        var cidr := c.subnets[i].addressPool;
        OffersOfRaise(GroupRules(m, cidr, n - 1), c.subnets, cidr, c.vm.rules, |c.subnets|);
        assert OffersRaise(m, n, cidr);
      }
      if cidr :| OffersRaise(m, n, cidr) {
        OffersOfRaise(GroupRules(m, cidr, n - 1), c.subnets, cidr, c.vm.rules, |c.subnets|);
      }
    }
  }

  /** The `n`-th component's offers for a CIDR end with an error, on what the CIDR has collected by then. */
  predicate OffersRaise(m: Model, n: nat, cidr: string)
    requires 0 < n <= |m.components|
  {
    var c := m.components[n - 1];
    var more := OffersOf(c.subnets, cidr, c.vm.rules, |c.subnets|);
    OfferRaises(GroupRules(m, cidr, n - 1), more, |more|)
  }

  /** All offers for a CIDR by the first `n` components end with an error. */
  predicate CidrRaises(m: Model, n: nat, cidr: string)
    requires n <= |m.components|
  {
    OfferRaises(m.groupRules, Offers(m, cidr, n), |Offers(m, cidr, n)|)
  }

  lemma CidrRaisesStep(m: Model, n: nat, cidr: string)
    requires 0 < n <= |m.components|
    ensures CidrRaises(m, n, cidr)
       <==> CidrRaises(m, n - 1, cidr) || (m.components[n - 1].count >= 1 && OffersRaise(m, n, cidr))
  {
    hide OfferRaises, AddRules, GroupRules, OffersOf;
    var c, before := m.components[n - 1], Offers(m, cidr, n - 1);
    CollectedOffers(m, cidr, n - 1);
    if c.count >= 1 {
      OfferRaisesAppend(m.groupRules, before, OffersOf(c.subnets, cidr, c.vm.rules, |c.subnets|));
    } else {
      assert before + [] == before;
    }
  }

  lemma {:induction false} RaisesByCidr(m: Model, n: nat)
    requires n <= |m.components|
    ensures Raises(m, n) <==> exists cidr :: CidrRaises(m, n, cidr)
  {
    hide ComponentRaises, Components, CidrRaises, OffersRaise;
    if n == 0 {
      forall cidr ensures !CidrRaises(m, 0, cidr) {
        NothingRaised(m, cidr);
      }
    } else {
      RaisesByCidr(m, n - 1);
      ComponentRaisesExactly(m, n);
      RaisesNext(m, n);
      forall cidr
        ensures CidrRaises(m, n, cidr)
           <==> CidrRaises(m, n - 1, cidr) || (m.components[n - 1].count >= 1 && OffersRaise(m, n, cidr))
      {
        CidrRaisesStep(m, n, cidr);
      }
      if Raises(m, n - 1) {
        var cidr :| CidrRaises(m, n - 1, cidr);
        assert CidrRaises(m, n, cidr);
      } else if cidr :| m.components[n - 1].count >= 1 && OffersRaise(m, n, cidr) {
        assert CidrRaises(m, n, cidr);
      }
    }
  }

  lemma NothingRaised(m: Model, cidr: string)
    ensures !CidrRaises(m, 0, cidr)
  {
    NoOfferRaises(m.groupRules);
  }

  lemma RaisesNext(m: Model, n: nat)
    requires 0 < n <= |m.components|
    ensures Raises(m, n) <==> Raises(m, n - 1) || ComponentRaises(m, Components(m, n - 1), m.components[n - 1])
  {
    hide ComponentRaises, Components;
  }

  /**
   * Of the rules that the enabled components offer for some CIDR one reads the port of a rule before it, a default
   * or an offered one of its direction and protocol, and one of the two ports is no text.
   */
  ghost predicate PortsMeet(m: Model) {
    exists cidr :: ReadsSome(m.groupRules, Offers(m, cidr, |m.components|))
  }

  /** A rule search ends with an error exactly when ports that are not both text meet. */
  lemma RaisesExactly(m: Model)
    ensures Raises(m, |m.components|) <==> PortsMeet(m)
  {
    hide Raises, ReadsSome, Offers, OfferRaises;
    var n := |m.components|;
    RaisesByCidr(m, n);
    forall cidr ensures CidrRaises(m, n, cidr) <==> ReadsSome(m.groupRules, Offers(m, cidr, n)) {
      OfferRaisesExactly(m.groupRules, Offers(m, cidr, n));
    }
  }

  /** Every port of the rules that components bring and groups start with is text. */
  ghost predicate TextPorts(m: Model) {
    && (forall i :: 0 <= i < |m.groupRules| ==> m.groupRules[i].port.Text?)
    && forall c, i :: 0 <= c < |m.components| && 0 <= i < |m.components[c].vm.rules| ==>
         m.components[c].vm.rules[i].port.Text?
  }

  lemma {:induction false} OffersOfText(defs: seq<SubnetDef>, cidr: string, rules: seq<Rule>, n: nat)
    requires n <= |defs| && forall i :: 0 <= i < |rules| ==> rules[i].port.Text?
    ensures forall i :: 0 <= i < |OffersOf(defs, cidr, rules, n)| ==> OffersOf(defs, cidr, rules, n)[i].port.Text?
  {
    if n != 0 {
      OffersOfText(defs, cidr, rules, n - 1);
    }
  }

  lemma {:induction false} OffersText(m: Model, cidr: string, n: nat)
    requires n <= |m.components| && TextPorts(m)
    ensures forall i :: 0 <= i < |Offers(m, cidr, n)| ==> Offers(m, cidr, n)[i].port.Text?
  {
    if n != 0 {
      OffersText(m, cidr, n - 1);
      var c := m.components[n - 1];
      OffersOfText(c.subnets, cidr, c.vm.rules, |c.subnets|);
    }
  }

  lemma TextNeverMeets(m: Model)
    requires TextPorts(m)
    ensures !PortsMeet(m)
  {
    hide KeyOf, Offers, NoneEqual;
    forall cidr ensures !ReadsSome(m.groupRules, Offers(m, cidr, |m.components|)) {
      OffersText(m, cidr, |m.components|);
    }
  }

  /** One component with two rules of one direction and protocol, the second with a number as its port. */
  function SecondPortNumber(): Model {
    var rules := [Rule("ssh", "", "Inbound", "Tcp", Text("22"), "*", "*"),
                  Rule("exporter", "", "Inbound", "Tcp", Number(9100), "*", "*")];
    Model("", "c", "", "", [], [],
          [Component("m", 1, [SubnetDef("10.1.1.0/24", "a")], VmSpec(rules, false, false, "s"))])
  }

  /** The run over it ends with an error. */
  lemma NumberRaises()
    ensures Build(SecondPortNumber()) == Failure(PortNotText)
  {
    hide Raises, Components;
    var m := SecondPortNumber();
    var c := m.components[0];
    var rules, cidr := c.vm.rules, c.subnets[0].addressPool;
    assert OffersOf(c.subnets, cidr, rules, 0) == [] && OffersOf(c.subnets, cidr, rules, 1) == [] + rules;
    assert Offers(m, cidr, 0) == [] && Offers(m, cidr, 1) == [] + ([] + rules) == rules;
    assert [] + rules == rules;
    assert Reads([], rules, 1, 0);
    RaisesExactly(m);
  }
}
