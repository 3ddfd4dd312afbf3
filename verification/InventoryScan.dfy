/** What the readers make of any text, stated on its lines and characters. */
module InventoryScan {
  import opened Results
  import opened InventoryText
  import opened InventoryReading

  // ---------- addresses ----------

  predicate Octet(s: string) {
    1 <= |s| <= 3 && forall i :: 0 <= i < |s| ==> IsDigit(s[i])
  }

  predicate Dotted(s: string, a: string, b: string, c: string, d: string) {
    Octet(a) && Octet(b) && Octet(c) && Octet(d) && s == a + ("." + (b + ("." + (c + ("." + d)))))
  }

  lemma OctetThenDot(a: string, rest: string)
    requires Octet(a)
    ensures AfterDot(a + ("." + rest)) == Some(rest)
  {
    var s := a + ("." + rest);
    assert s[|a|] == '.';
    assert forall i :: 0 <= i < |a| ==> s[i] == a[i];
    assert Digits(s) == |a|;
    assert s[|a| + 1..] == rest;
  }

  lemma DotThenOctet(s: string) returns (a: string)
    requires AfterDot(s).Some?
    ensures Octet(a) && s == a + ("." + AfterDot(s).value)
  {
    a := s[..Digits(s)];
  }

  lemma OctetFirst(d: string, t: string)
    requires Octet(d)
    ensures |d| <= Digits(d + t) <= 3
  {
    assert forall i :: 0 <= i < |d| ==> (d + t)[i] == d[i];
  }

  /** A dotted text at the start is an address, which may go on behind it. */
  lemma DottedFirst(s: string, a: string, b: string, c: string, d: string, t: string)
    requires Dotted(s, a, b, c, d)
    ensures AfterQuad(s + t).Some? && |AfterQuad(s + t).value| <= |t|
    ensures t == "" ==> AfterQuad(s + t) == Some("")
  {
    hide AfterDot, Digits;
    var z := d + t;
    var y := c + ("." + z);
    var x := b + ("." + y);
    assert s + t == a + ("." + x);
    OctetThenDot(a, x);
    OctetThenDot(b, y);
    OctetThenDot(c, z);
    OctetFirst(d, t);
  }

  /** An address at the start is a dotted text. */
  lemma StartDotted(s: string) returns (a: string, b: string, c: string, d: string)
    requires AfterQuad(s).Some?
    ensures var rest := AfterQuad(s).value;
            |rest| <= |s| && s[|s| - |rest|..] == rest && Dotted(s[..|s| - |rest|], a, b, c, d)
  {
    hide AfterDot;
    var x := AfterDot(s).value;
    var y := AfterDot(x).value;
    var z := AfterDot(y).value;
    a := DotThenOctet(s);
    b := DotThenOctet(x);
    c := DotThenOctet(y);
    d := z[..Digits(z)];
    var rest := z[Digits(z)..];
    assert z == d + rest;
    var q := a + ("." + (b + ("." + (c + ("." + d)))));
    assert s == q + rest;
  }

  /** An address is four groups of one to three digits with dots between them. */
  lemma QuadExactly(s: string)
    ensures IsQuad(s) <==> exists a, b, c, d :: Dotted(s, a, b, c, d)
  {
    hide Dotted, AfterQuad;
    if IsQuad(s) {
      var a, b, c, d := StartDotted(s);
      assert s[..|s|] == s;
    }
    if a, b, c, d :| Dotted(s, a, b, c, d) {
      DottedFirst(s, a, b, c, d, "");
      assert s + "" == s;
    }
  }

  /** Some address starts the text, the longest one being what the reader cuts off. */
  lemma StartsExactly(s: string)
    ensures AfterQuad(s).Some? <==> exists k :: 0 <= k <= |s| && IsQuad(s[..k])
    ensures AfterQuad(s).Some? ==>
              var n := |s| - |AfterQuad(s).value|;
              n >= 0 && IsQuad(s[..n]) && forall k :: 0 <= k <= |s| && IsQuad(s[..k]) ==> k <= n
  {
    hide Dotted, AfterQuad, IsQuad;
    if AfterQuad(s).Some? {
      var a, b, c, d := StartDotted(s);
      QuadExactly(s[..|s| - |AfterQuad(s).value|]);
    }
    forall k | 0 <= k <= |s| && IsQuad(s[..k]) ensures AfterQuad(s).Some? && k <= |s| - |AfterQuad(s).value| {
      QuadExactly(s[..k]);
      var a, b, c, d :| Dotted(s[..k], a, b, c, d);
      DottedFirst(s[..k], a, b, c, d, s[k..]);
      assert s[..k] + s[k..] == s;
    }
  }

  /** An address starts at `i`. */
  predicate QuadFrom(s: string, i: nat)
    requires i <= |s|
  {
    exists k :: i <= k <= |s| && IsQuad(s[i..k])
  }

  /** `q` is the first address in the text, as long as it goes. */
  ghost predicate QuadAt(s: string, q: string, i: nat) {
    && i + |q| <= |s| && s[i..i + |q|] == q && IsQuad(q)
    && (forall j :: 0 <= j < i ==> !QuadFrom(s, j))
    && forall k :: i <= k <= |s| && IsQuad(s[i..k]) ==> k <= i + |q|
  }

  lemma StartsFrom(s: string, i: nat)
    requires i <= |s|
    ensures QuadFrom(s, i) <==> AfterQuad(s[i..]).Some?
  {
    hide IsQuad, AfterQuad;
    StartsExactly(s[i..]);
    if k :| i <= k <= |s| && IsQuad(s[i..k]) {
      assert s[i..][..k - i] == s[i..k];
    }
    if k :| 0 <= k <= |s[i..]| && IsQuad(s[i..][..k]) {
      assert s[i..][..k] == s[i..i + k];
    }
  }

  /** The address the reader finds is the first and longest in the line, and it finds one if there is one. */
  lemma {:induction false} FirstQuadExactly(s: string)
    ensures match FirstQuad(s)
            case None => forall i :: 0 <= i <= |s| ==> !QuadFrom(s, i)
            case Some(q) => exists i: nat :: QuadAt(s, q, i)
  {
    hide IsQuad, AfterQuad, QuadAt, QuadFrom;
    FirstQuadFrom(s, 0);
    assert s[0..] == s;
  }

  lemma {:induction false} FirstQuadFrom(s: string, n: nat)
    requires n <= |s| && forall j :: 0 <= j < n ==> !QuadFrom(s, j)
    ensures match FirstQuad(s[n..])
            case None => forall i :: 0 <= i <= |s| ==> !QuadFrom(s, i)
            case Some(q) => exists i: nat :: QuadAt(s, q, i)
    decreases |s| - n
  {
    hide IsQuad, AfterQuad, QuadFrom, QuadAt;
    StartsFrom(s, n);
    if n == |s| {
      StartsExactly(s[n..]);
      NothingStarts();
    } else if AfterQuad(s[n..]).Some? {
      QuadHere(s, n);
    } else {
      assert s[n..][1..] == s[n + 1..];
      assert FirstQuad(s[n..]) == FirstQuad(s[n + 1..]);
      FirstQuadFrom(s, n + 1);
    }
  }

  lemma QuadHere(s: string, n: nat)
    requires n < |s| && AfterQuad(s[n..]).Some? && forall j :: 0 <= j < n ==> !QuadFrom(s, j)
    ensures FirstQuad(s[n..]).Some? && QuadAt(s, FirstQuad(s[n..]).value, n)
  {
    hide IsQuad, AfterQuad, QuadFrom;
    var t := s[n..];
    StartsExactly(t);
    var q := t[..|t| - |AfterQuad(t).value|];
    forall k | n <= k <= |s| && IsQuad(s[n..k]) ensures k <= n + |q| {
      assert t[..k - n] == s[n..k];
    }
    assert s[n..n + |q|] == q;
  }

  lemma NothingStarts()
    ensures AfterQuad("").None?
  {
  }

  // ---------- the parts of a line ----------

  /** The part before a comment is all up to the first '#'. */
  lemma {:induction false} BeforeExactly(s: string, c: char)
    ensures var p := Before(s, c); p <= s && c !in p && (p == s || s[|p|] == c)
  {
    if s != "" && s[0] != c {
      BeforeExactly(s[1..], c);
      assert s == [s[0]] + s[1..];
    }
  }

  /** A heading is a name between the bracket that starts the line and the next closing one. */
  lemma HeadingExactly(line: string, name: string)
    ensures Heading(line) == Some(name) <==>
              name != "" && ']' !in name && |name| + 2 <= |line| && line[..|name| + 2] == "[" + name + "]"
  {
    if line != "" && line[0] == '[' {
      BeforeExactly(line[1..], ']');
      if |name| + 2 <= |line| && line[..|name| + 2] == "[" + name + "]" && ']' !in name {
        var t := line[|name| + 2..];
        assert line[1..] == name + [']'] + t by {
          assert line == ("[" + name + "]") + t;
        }
        BeforeFirst(name, ']', t);
      }
    }
  }

  /** The first word starts behind the leading space and ends before the next. */
  lemma {:induction false} FirstWordExactly(s: string)
    ensures exists i: nat :: WordAt(s, FirstWord(s), i)
  {
    hide WordAt, IsSpace;
    if s == "" {
      NoWord();
      assert WordAt(s, FirstWord(s), 0);
    } else if IsSpace(s[0]) {
      FirstWordExactly(s[1..]);
      var i: nat :| WordAt(s[1..], FirstWord(s[1..]), i);
      SpaceBefore(s, FirstWord(s), i);
    } else {
      WordExactly(s);
      WordFirst(s, FirstWord(s));
    }
  }

  lemma NoWord()
    ensures WordAt("", "", 0)
  {
  }

  lemma WordFirst(s: string, w: string)
    requires w <= s && w != "" && (forall c | c in w :: !IsSpace(c)) && (w == s || IsSpace(s[|w|]))
    ensures WordAt(s, w, 0)
  {
    hide IsSpace;
  }

  lemma SpaceBefore(s: string, w: string, i: nat)
    requires s != "" && IsSpace(s[0]) && WordAt(s[1..], w, i)
    ensures WordAt(s, w, i + 1)
  {
    hide IsSpace;
    assert forall j :: 1 <= j < |s| ==> s[j] == s[1..][j - 1];
    assert s[1..][i..i + |w|] == s[i + 1..i + 1 + |w|];
  }

  predicate WordAt(s: string, w: string, i: nat) {
    && i + |w| <= |s| && s[i..i + |w|] == w
    && (forall j :: 0 <= j < i ==> IsSpace(s[j])) && (forall c | c in w :: !IsSpace(c))
    && if i + |w| < |s| then w != "" && IsSpace(s[i + |w|]) else w == "" ==> i == |s|
  }

  lemma {:induction false} WordExactly(s: string)
    ensures var w := Word(s); w <= s && (forall c | c in w :: !IsSpace(c)) && (w == s || IsSpace(s[|w|]))
  {
    if s != "" && !IsSpace(s[0]) {
      WordExactly(s[1..]);
      assert s == [s[0]] + s[1..];
    }
  }

  // ---------- all lines ----------

  function HeadingOf(line: string): Option<string> {
    Heading(Before(line, '#'))
  }

  /** The line gives a host of the address. */
  predicate GivesIp(line: string, ip: string) {
    HeadingOf(line).None? && FirstQuad(Before(line, '#')) == Some(ip)
  }

  function NameOn(line: string): string {
    FirstWord(Before(line, '#'))
  }

  /** The last heading before the `k`-th line, if any, is that of `g`. */
  ghost predicate Under(lines: seq<string>, k: nat, g: Option<string>)
    requires k <= |lines|
  {
    match g
    case None => forall j :: 0 <= j < k ==> HeadingOf(lines[j]).None?
    case Some(_) =>
      exists j :: 0 <= j < k && HeadingOf(lines[j]) == g && forall l :: j < l < k ==> HeadingOf(lines[l]).None?
  }

  /** Of the lines among the first `n` that give the address under a heading, or under none, the last has the name. */
  ghost predicate LastUnder(lines: seq<string>, n: nat, g: Option<string>, ip: string, name: string)
    requires n <= |lines|
  {
    exists k :: 0 <= k < n && GivesIp(lines[k], ip) && NameOn(lines[k]) == name && Under(lines, k, g)
      && forall j :: k < j < n && Under(lines, j, g) ==> !GivesIp(lines[j], ip)
  }

  /** Of the lines among the first `n` that give the address the first has the name. */
  ghost predicate FirstOf(lines: seq<string>, n: nat, ip: string, name: string)
    requires n <= |lines|
  {
    exists k :: 0 <= k < n && GivesIp(lines[k], ip) && NameOn(lines[k]) == name
      && forall j :: 0 <= j < k ==> !GivesIp(lines[j], ip)
  }

  /** What the readers' hashes hold for an address under a heading, or under none. */
  function Held(s: State, g: Option<string>, ip: string): Option<string> {
    match g
    case None => if ip in s.ungrouped then Some(s.ungrouped[ip]) else None
    case Some(h) => if h in s.groups && ip in s.groups[h] then Some(s.groups[h][ip]) else None
  }

  function HeldByAll(s: State, ip: string): Option<string> {
    if ip in s.all then Some(s.all[ip]) else None
  }

  lemma StepHolds(s: State, line: string, g: Option<string>, ip: string)
    ensures var r := Step(s, line);
            && r.current == (if HeadingOf(line).Some? then HeadingOf(line) else s.current)
            && Held(r, g, ip) == (if GivesIp(line, ip) && s.current == g then Some(NameOn(line)) else Held(s, g, ip))
            && HeldByAll(r, ip) ==
                 if GivesIp(line, ip) && HeldByAll(s, ip).None? then Some(NameOn(line)) else HeldByAll(s, ip)
  {
    hide Before, Heading, FirstQuad, FirstWord;
  }

  lemma OneLine(s: State, line: string)
    ensures ReadFrom(s, [line]) == Step(s, line)
  {
    hide Step;
    assert [line][1..] == [];
  }

  lemma UnderNext(lines: seq<string>, k: nat, g: Option<string>)
    requires k < |lines|
    ensures Under(lines, k + 1, g) <==>
              if HeadingOf(lines[k]).Some? then HeadingOf(lines[k]) == g else Under(lines, k, g)
  {
    hide HeadingOf;
  }

  lemma LastNext(lines: seq<string>, n: nat, g: Option<string>, ip: string, name: string)
    requires n < |lines|
    ensures LastUnder(lines, n + 1, g, ip, name) <==>
              if GivesIp(lines[n], ip) && Under(lines, n, g) then name == NameOn(lines[n])
              else LastUnder(lines, n, g, ip, name)
  {
    hide GivesIp, NameOn, Under;
  }

  lemma FirstNext(lines: seq<string>, n: nat, ip: string, name: string)
    requires n < |lines|
    ensures FirstOf(lines, n + 1, ip, name) <==>
              FirstOf(lines, n, ip, name)
              || (GivesIp(lines[n], ip) && NameOn(lines[n]) == name && forall j :: 0 <= j < n ==>
                  !GivesIp(lines[j], ip))
  {
    hide GivesIp, NameOn;
  }

  lemma {:induction false} NoneFirst(lines: seq<string>, n: nat, ip: string)
    requires n <= |lines|
    ensures (forall j :: 0 <= j < n ==> !GivesIp(lines[j], ip)) <==> forall name :: !FirstOf(lines, n, ip, name)
  {
    hide GivesIp, NameOn;
    if n != 0 {
      NoneFirst(lines, n - 1, ip);
      if forall j :: 0 <= j < n - 1 ==> !GivesIp(lines[j], ip) {
        FirstNext(lines, n - 1, ip, NameOn(lines[n - 1]));
      } else {
        var name :| FirstOf(lines, n - 1, ip, name);
        FirstNext(lines, n - 1, ip, name);
      }
    }
  }

  /**
   * The readers on any lines: under each heading, and under none, an address has the name of the last line that gives
   * it there; among all hosts it has the name of the first line that gives it.
   */
  lemma {:induction false} ReadExactly(lines: seq<string>, n: nat, g: Option<string>, ip: string, name: string)
    requires n <= |lines|
    ensures var s := ReadFrom(INITIAL, lines[..n]);
            && (s.current == g <==> Under(lines, n, g))
            && (Held(s, g, ip) == Some(name) <==> LastUnder(lines, n, g, ip, name))
            && (HeldByAll(s, ip) == Some(name) <==> FirstOf(lines, n, ip, name))
    decreases n
  {
    hide Step, GivesIp, NameOn, HeadingOf, Under, LastUnder, FirstOf, Held, HeldByAll;
    if n == 0 {
      NothingYet(lines, g, ip, name);
    } else {
      var s, line := ReadFrom(INITIAL, lines[..n - 1]), lines[n - 1];
      assert lines[..n] == lines[..n - 1] + [line];
      ReadAppend(INITIAL, lines[..n - 1], [line]);
      OneLine(s, line);
      StepHolds(s, line, g, ip);
      ReadExactly(lines, n - 1, g, ip, name);
      UnderNext(lines, n - 1, g);
      LastNext(lines, n - 1, g, ip, name);
      forall other ensures HeldByAll(s, ip) == Some(other) <==> FirstOf(lines, n - 1, ip, other) {
        ReadExactly(lines, n - 1, g, ip, other);
      }
      AllNext(lines, n - 1, ip, name, HeldByAll(s, ip));
    }
  }

  /** What one more line does to the first name of an address. */
  lemma AllNext(lines: seq<string>, n: nat, ip: string, name: string, held: Option<string>)
    requires n < |lines| && forall other :: held == Some(other) <==> FirstOf(lines, n, ip, other)
    ensures FirstOf(lines, n + 1, ip, name) <==>
              (if GivesIp(lines[n], ip) && held.None? then Some(NameOn(lines[n])) else held) == Some(name)
  {
    hide GivesIp, NameOn, FirstOf;
    FirstNext(lines, n, ip, name);
    NoneFirst(lines, n, ip);
    if held.Some? {
      assert FirstOf(lines, n, ip, held.value);
    }
  }

  lemma NothingYet(lines: seq<string>, g: Option<string>, ip: string, name: string)
    ensures var s := ReadFrom(INITIAL, lines[..0]);
            && (s.current == g <==> Under(lines, 0, g))
            && Held(s, g, ip) == None && HeldByAll(s, ip) == None
            && !LastUnder(lines, 0, g, ip, name) && !FirstOf(lines, 0, ip, name)
  {
  }
}
