/** Resource names, and when two of them coincide. */
module Naming {
  import opened Results

  /** Lower case, for the ASCII letters names are made of. */
  function LowerChar(c: char): char {
    if 'A' <= c <= 'Z' then (c as int - 'A' as int + 'a' as int) as char else c
  }

  function Lower(s: string): string {
    seq(|s|, i requires 0 <= i < |s| => LowerChar(s[i]))
  }

  function Replace(s: string, old': char, new': char): string {
    seq(|s|, i requires 0 <= i < |s| => if s[i] == old' then new' else s[i])
  }

  function ToRoleName(feature: string): string {
    Replace(feature, '-', '_')
  }

  function ToFeatureName(role: string): string {
    Replace(role, '_', '-')
  }

  function ResourceName(prefix: string, cluster: string, kind: string, component: Option<string>): string {
    ToFeatureName(
      if prefix == "" || prefix == "default" then
        match component
        case None => Lower(cluster) + "-" + Lower(kind)
        case Some(c) => Lower(cluster) + "-" + Lower(c) + "-" + Lower(kind)
      else
        match component
        case None => Lower(prefix) + "-" + Lower(cluster) + "-" + Lower(kind)
        case Some(c) => Lower(prefix) + "-" + Lower(cluster) + "-" + Lower(c) + "-" + Lower(kind))
  }

  /** The form in which names are compared: lower case, dashes for underscores. */
  function Norm(s: string): string {
    ToFeatureName(Lower(s))
  }

  lemma NormAppend(a: string, b: string)
    ensures Norm(a + b) == Norm(a) + Norm(b)
    ensures Lower(a + b) == Lower(a) + Lower(b)
    ensures ToFeatureName(a + b) == ToFeatureName(a) + ToFeatureName(b)
  {
  }

  /** What all names of a cluster start with. */
  function Stem(prefix: string, cluster: string): string {
    if prefix == "" || prefix == "default" then Norm(cluster) + "-" else Norm(prefix) + "-" + Norm(cluster) + "-"
  }

  /** The name of a component's resource spelt out in normal form. */
  lemma ComponentName(prefix: string, cluster: string, kind: string, c: string)
    ensures ResourceName(prefix, cluster, kind, Some(c)) == Stem(prefix, cluster) + (Norm(c) + "-" + Norm(kind))
  {
    assert ToFeatureName("-") == "-";
    var tail := Lower(c) + "-" + Lower(kind);
    NormAppend(Lower(c) + "-", Lower(kind));
    NormAppend(Lower(c), "-");
    NormAppend(Lower(cluster) + "-", tail);
    NormAppend(Lower(cluster), "-");
    assert Lower(cluster) + "-" + Lower(c) + "-" + Lower(kind) == Lower(cluster) + "-" + tail;
    if prefix != "" && prefix != "default" {
      var rest := Lower(cluster) + "-" + tail;
      NormAppend(Lower(prefix) + "-", rest);
      NormAppend(Lower(prefix), "-");
      assert Lower(prefix) + "-" + Lower(cluster) + "-" + Lower(c) + "-" + Lower(kind) == Lower(prefix) + "-" + rest;
    }
  }

  // ---------- decimal numbers ----------

  function Digit(d: nat): char
    requires d < 10
  {
    ('0' as int + d) as char
  }

  /** `str(n)` */
  function Decimal(n: nat): (s: string)
    ensures s != [] && '-' !in s
    ensures forall i :: 0 <= i < |s| ==> '0' <= s[i] <= '9'
  {
    if n < 10 then [Digit(n)] else Decimal(n / 10) + [Digit(n % 10)]
  }

  function Value(s: string): nat
    requires forall i :: 0 <= i < |s| ==> '0' <= s[i] <= '9'
  {
    if s == [] then 0 else 10 * Value(s[..|s| - 1]) + (s[|s| - 1] as int - '0' as int)
  }

  lemma {:induction false} ValueOfDecimal(n: nat)
    ensures Value(Decimal(n)) == n
  {
    var s := Decimal(n);
    if n < 10 {
      assert s[..0] == [];
    } else {
      ValueOfDecimal(n / 10);
      assert s[..|s| - 1] == Decimal(n / 10);
    }
  }

  lemma {:induction false} DecimalNormal(n: nat)
    ensures Norm(Decimal(n)) == Decimal(n)
  {
  }

  // ---------- when names coincide ----------

  lemma {:induction false} LastDash(a: string, s: string, b: string, t: string)
    requires '-' !in s && '-' !in t && a + "-" + s == b + "-" + t
    ensures a == b && s == t
  {
    var x := a + "-" + s;
    assert x[|a|] == '-' && x[|b|] == '-';
    assert forall i :: |a| < i < |x| ==> x[i] == s[i - |a| - 1];
    assert forall i :: |b| < i < |x| ==> x[i] == t[i - |b| - 1];
    assert |a| == |b|;
    assert a == x[..|a|] && b == x[..|b|];
    assert s == x[|a| + 1..] && t == x[|b| + 1..];
  }

  /** `<kind>-<index>` resources of a component. */
  function IndexedName(prefix: string, cluster: string, kind: string, c: string, i: nat): string {
    ResourceName(prefix, cluster, kind + "-" + Decimal(i), Some(c))
  }

  /** The resources named after `<component>-<index>`. */
  function NumberedName(prefix: string, cluster: string, kind: string, c: string, i: nat): string {
    ResourceName(prefix, cluster, kind, Some(c + "-" + Decimal(i)))
  }

  lemma IndexedSpelling(prefix: string, cluster: string, kind: string, c: string, i: nat)
    ensures IndexedName(prefix, cluster, kind, c, i)
         == Stem(prefix, cluster) + (Norm(c) + ("-" + Norm(kind))) + "-" + Decimal(i)
  {
    var tail := kind + "-" + Decimal(i);
    ComponentName(prefix, cluster, tail, c);
    NormAppend(kind + "-", Decimal(i));
    NormAppend(kind, "-");
    assert Norm("-") == "-";
    DecimalNormal(i);
    assert Norm(tail) == Norm(kind) + "-" + Decimal(i);
    assert Stem(prefix, cluster) + (Norm(c) + "-" + (Norm(kind) + "-" + Decimal(i)))
        == Stem(prefix, cluster) + (Norm(c) + ("-" + Norm(kind))) + "-" + Decimal(i);
  }

  lemma NumberedSpelling(prefix: string, cluster: string, kind: string, c: string, i: nat)
    ensures NumberedName(prefix, cluster, kind, c, i)
         == Stem(prefix, cluster) + ((Norm(c) + "-" + Decimal(i)) + ("-" + Norm(kind)))
  {
    ComponentName(prefix, cluster, kind, c + "-" + Decimal(i));
    NormAppend(c + "-", Decimal(i));
    NormAppend(c, "-");
    assert Norm("-") == "-";
    DecimalNormal(i);
    assert Norm(c + "-" + Decimal(i)) == Norm(c) + "-" + Decimal(i);
    assert (Norm(c) + "-" + Decimal(i)) + "-" + Norm(kind) == (Norm(c) + "-" + Decimal(i)) + ("-" + Norm(kind));
  }

  /** Equal concatenations with one end in common have the other end in common. */
  lemma Cancel(x: string, a: string, b: string, y: string)
    ensures x + a == x + b ==> a == b
    ensures a + y == b + y ==> a == b
  {
    assert (x + a)[|x|..] == a && (x + b)[|x|..] == b;
    assert (a + y)[..|a + y| - |y|] == a && (b + y)[..|b + y| - |y|] == b;
  }

  /** Two indexed names of one kind coincide exactly when the components do in normal form, and the indices. */
  lemma IndexedNamesInjective(prefix: string, cluster: string, kind: string, c: string, i: nat, d: string, j: nat)
    ensures IndexedName(prefix, cluster, kind, c, i) == IndexedName(prefix, cluster, kind, d, j)
       <==> Norm(c) == Norm(d) && i == j
  {
    IndexedSpelling(prefix, cluster, kind, c, i);
    IndexedSpelling(prefix, cluster, kind, d, j);
    var k := "-" + Norm(kind);
    var stem := Stem(prefix, cluster);
    if IndexedName(prefix, cluster, kind, c, i) == IndexedName(prefix, cluster, kind, d, j) {
      LastDash(stem + (Norm(c) + k), Decimal(i), stem + (Norm(d) + k), Decimal(j));
      Cancel(stem, Norm(c) + k, Norm(d) + k, "");
      Cancel("", Norm(c), Norm(d), k);
      ValueOfDecimal(i);
      ValueOfDecimal(j);
    }
  }

  lemma NumberedNamesInjective(prefix: string, cluster: string, kind: string, c: string, i: nat, d: string, j: nat)
    ensures NumberedName(prefix, cluster, kind, c, i) == NumberedName(prefix, cluster, kind, d, j)
       <==> Norm(c) == Norm(d) && i == j
  {
    NumberedSpelling(prefix, cluster, kind, c, i);
    NumberedSpelling(prefix, cluster, kind, d, j);
    var k := "-" + Norm(kind);
    var x, y := Norm(c) + "-" + Decimal(i), Norm(d) + "-" + Decimal(j);
    if NumberedName(prefix, cluster, kind, c, i) == NumberedName(prefix, cluster, kind, d, j) {
      Cancel(Stem(prefix, cluster), x + k, y + k, "");
      Cancel("", x, y, k);
      LastDash(Norm(c), Decimal(i), Norm(d), Decimal(j));
      ValueOfDecimal(i);
      ValueOfDecimal(j);
    }
  }

  lemma ComponentNamesInjective(prefix: string, cluster: string, kind: string, c: string, d: string)
    ensures ResourceName(prefix, cluster, kind, Some(c)) == ResourceName(prefix, cluster, kind, Some(d))
        <==> Norm(c) == Norm(d)
  {
    ComponentName(prefix, cluster, kind, c);
    ComponentName(prefix, cluster, kind, d);
    var k := "-" + Norm(kind);
    assert Norm(c) + "-" + Norm(kind) == Norm(c) + k && Norm(d) + "-" + Norm(kind) == Norm(d) + k;
    if ResourceName(prefix, cluster, kind, Some(c)) == ResourceName(prefix, cluster, kind, Some(d)) {
      Cancel(Stem(prefix, cluster), Norm(c) + k, Norm(d) + k, "");
      Cancel("", Norm(c), Norm(d), k);
    }
  }
}
