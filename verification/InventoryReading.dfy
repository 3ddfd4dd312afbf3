/** Reading a printed inventory back, line by line, gives every role its hosts. */
module InventoryReading {
  import opened Results
  import opened Inventory
  import opened InventoryText

  // ---------- addresses in texts ----------

  predicate Separator(c: char) {
    !IsDigit(c) && c != '.'
  }

  lemma DigitsBefore(s: string, t: string)
    requires t != [] && Separator(t[0])
    ensures Digits(s + t) == Digits(s)
  {
  }

  lemma AfterDotBefore(s: string, t: string)
    requires t != [] && Separator(t[0])
    ensures AfterDot(s + t) == match AfterDot(s) case None => None case Some(r) => Some(r + t)
  {
    var n := Digits(s);
    assert Digits(s + t) == n;
    if n < |s| {
      assert (s + t)[n + 1..] == s[n + 1..] + t;
    }
  }

  lemma AfterQuadBefore(s: string, t: string)
    requires t != [] && Separator(t[0])
    ensures AfterQuad(s + t) == match AfterQuad(s) case None => None case Some(r) => Some(r + t)
  {
    hide AfterDot, Digits;
    AfterDotBefore(s, t);
    if AfterDot(s).Some? {
      var a := AfterDot(s).value;
      AfterDotBefore(a, t);
      if AfterDot(a).Some? {
        var b := AfterDot(a).value;
        AfterDotBefore(b, t);
        if AfterDot(b).Some? {
          var c := AfterDot(b).value;
          var n := Digits(c);
          DigitsBefore(c, t);
          assert (c + t)[n..] == c[n..] + t;
        }
      }
    }
  }

  /** A separator keeps the addresses on its two sides apart. */
  lemma {:induction false} FirstQuadBefore(s: string, t: string)
    requires t != [] && Separator(t[0])
    ensures FirstQuad(s + t) == if FirstQuad(s).None? then FirstQuad(t) else FirstQuad(s)
  {
    hide AfterQuad;
    if s == [] {
      assert s + t == t;
    } else {
      AfterQuadBefore(s, t);
      if AfterQuad(s).Some? {
        var r := AfterQuad(s).value;
        assert (s + t)[..|s + t| - |r + t|] == s[..|s| - |r|];
      }
      assert (s + t)[1..] == s[1..] + t;
      FirstQuadBefore(s[1..], t);
    }
  }

  lemma {:induction false} SkipNoDigits(s: string, t: string)
    requires forall c | c in s :: !IsDigit(c)
    ensures FirstQuad(s + t) == FirstQuad(t)
  {
    if s == [] {
      assert s + t == t;
    } else {
      assert !IsDigit(s[0]);
      assert (s + t)[1..] == s[1..] + t;
      SkipNoDigits(s[1..], t);
    }
  }

  lemma {:induction false} NoDotNoQuad(s: string)
    requires '.' !in s
    ensures FirstQuad(s).None?
  {
    if s != [] {
      NoDotNoQuad(s[1..]);
    }
  }

  lemma AfterDotChars(s: string)
    requires AfterDot(s).Some? && forall c | c in AfterDot(s).value :: !Separator(c)
    ensures forall c | c in s :: !Separator(c)
  {
    var n := Digits(s);
    assert s == s[..n] + [s[n]] + s[n + 1..];
  }

  lemma QuadChars(s: string)
    requires IsQuad(s)
    ensures s != "" && forall c | c in s :: !Separator(c)
  {
    var a := AfterDot(s).value;
    var b := AfterDot(a).value;
    var c := AfterDot(b).value;
    assert |c| == Digits(c);
    AfterDotChars(b);
    AfterDotChars(a);
    AfterDotChars(s);
  }

  // ---------- lines ----------

  lemma {:induction false} BeforeAll(s: string, c: char)
    requires c !in s
    ensures Before(s, c) == s
  {
    if s != [] {
      BeforeAll(s[1..], c);
    }
  }

  lemma {:induction false} BeforeFirst(s: string, c: char, t: string)
    requires c !in s
    ensures Before(s + [c] + t, c) == s
  {
    if s == [] {
      assert s + [c] + t == [c] + t;
    } else {
      assert (s + [c] + t)[1..] == s[1..] + [c] + t;
      BeforeFirst(s[1..], c, t);
    }
  }

  lemma CommentStep(s: State, line: string)
    requires line != [] && line[0] == '#'
    ensures Step(s, line) == s
  {
  }

  /** A line without a heading or an address changes nothing. */
  lemma QuietStep(s: State, line: string)
    requires '#' !in line && (line == "" || line[0] != '[') && FirstQuad(line).None?
    ensures Step(s, line) == s
  {
    BeforeAll(line, '#');
  }

  lemma HeadingStep(s: State, role: string)
    requires role != "" && ']' !in role && '#' !in role
    ensures Step(s, "[" + role + "]" + "\n") == s.(current := Some(role))
  {
    var line := "[" + role + "]" + "\n";
    BeforeAll(line, '#');
    assert line[1..] == role + [']'] + "\n";
    BeforeFirst(role, ']', "\n");
  }

  predicate GoodName(name: string) {
    && name != "" && FirstQuad(name).None?
    && forall c | c in name :: !IsSpace(c) && c != '[' && c != '#'
  }

  lemma {:induction false} WordOf(name: string, rest: string)
    requires (forall c | c in name :: !IsSpace(c)) && rest != [] && IsSpace(rest[0])
    ensures Word(name + rest) == name
  {
    if name == [] {
      assert name + rest == rest;
    } else {
      assert (name + rest)[1..] == name[1..] + rest;
      WordOf(name[1..], rest);
    }
  }

  function HostLine(h: Host): string {
    h.name + " ansible_host=" + h.ip
  }

  lemma HostStep(s: State, h: Host)
    requires GoodName(h.name) && IsQuad(h.ip)
    ensures Step(s, HostLine(h) + "\n") == AddHost(s, h.ip, h.name)
  {
    hide FirstQuad, AfterQuad, Word, Before;
    var line := HostLine(h) + "\n";
    QuadChars(h.ip);
    assert '#' !in line;
    BeforeAll(line, '#');
    var rest := " ansible_host=" + (h.ip + "\n");
    assert line == h.name + rest;
    AddressFound(h.name, h.ip);
    WordOf(h.name, rest);
    assert line[0] == h.name[0] && h.name[0] in h.name;
  }

  lemma AddressFound(name: string, ip: string)
    requires FirstQuad(name).None? && IsQuad(ip)
    ensures FirstQuad(name + (" ansible_host=" + (ip + "\n"))) == Some(ip)
  {
    hide AfterQuad;
    FirstQuadBefore(name, " ansible_host=" + (ip + "\n"));
    SkipNoDigits(" ansible_host=", ip + "\n");
    QuadChars(ip);
    AfterQuadBefore(ip, "\n");
    assert (ip + "\n")[..|ip|] == ip;
  }

  // ---------- the lines of a printed inventory ----------

  function HostLines(hosts: seq<Host>): seq<string> {
    if hosts == [] then [] else [HostLine(hosts[0]) + "\n"] + HostLines(hosts[1..])
  }

  function ItemLines(item: Item): seq<string> {
    ["\n", "[" + item.role + "]" + "\n"] + HostLines(item.hosts)
  }

  function AllLines(items: seq<Item>): seq<string> {
    if items == [] then [] else ItemLines(items[0]) + AllLines(items[1..])
  }

  lemma {:induction false} ConcatAppend(a: seq<string>, b: seq<string>)
    ensures Concat(a + b) == Concat(a) + Concat(b)
  {
    if a == [] {
      assert a + b == b;
    } else {
      assert (a + b)[1..] == a[1..] + b;
      ConcatAppend(a[1..], b);
    }
  }

  lemma {:induction false} HostsTextLines(hosts: seq<Host>)
    ensures HostsText(hosts) + "\n" == "\n" + Concat(HostLines(hosts))
  {
    if hosts != [] {
      var h, rest := hosts[0], HostsText(hosts[1..]);
      HostsTextLines(hosts[1..]);
      assert HostsText(hosts) + "\n" == "\n" + HostLine(h) + (rest + "\n");
      assert HostLines(hosts)[1..] == HostLines(hosts[1..]);
    }
  }

  lemma ItemTextLines(item: Item)
    ensures ItemText(item) == Concat(ItemLines(item))
  {
    hide HostsText, HostLines, Concat;
    var head, hosts, lines := "\n[" + item.role + "]", HostsText(item.hosts), Concat(HostLines(item.hosts));
    HostsTextLines(item.hosts);
    ConcatAppend(["\n", "[" + item.role + "]" + "\n"], HostLines(item.hosts));
    HeadText(item.role);
    assert head + hosts + "\n" == head + (hosts + "\n");
    assert head + ("\n" + lines) == head + "\n" + lines;
  }

  lemma {:induction false} ItemsTextLines(items: seq<Item>)
    ensures ItemsText(items) == Concat(AllLines(items))
  {
    hide ItemText, ItemLines, Concat;
    if items == [] {
      ConcatNone();
    } else {
      ItemsTextLines(items[1..]);
      ItemTextLines(items[0]);
      ConcatAppend(ItemLines(items[0]), AllLines(items[1..]));
    }
  }

  lemma ConcatNone()
    ensures Concat([]) == ""
  {
  }

  lemma HeadText(role: string)
    ensures Concat(["\n", "[" + role + "]" + "\n"]) == "\n[" + role + "]" + "\n"
  {
    var last := "[" + role + "]" + "\n";
    assert ["\n", last][1..] == [last] && [last][1..] == [];
    assert Concat([last]) == last;
    assert Concat(["\n", last]) == "\n" + last;
  }

  // ---------- what is asked of the printed inventory ----------

  predicate GoodItem(item: Item) {
    && item.role != "" && '[' !in item.role && ']' !in item.role && '#' !in item.role && '\n' !in item.role
    && item.hosts != []
    && (forall i :: 0 <= i < |item.hosts| ==> GoodName(item.hosts[i].name) && IsQuad(item.hosts[i].ip))
    && (forall i, j :: 0 <= i < j < |item.hosts| ==> item.hosts[i].ip != item.hosts[j].ip)
  }

  /** Every role printable and with hosts, no role twice. */
  predicate GoodItems(items: seq<Item>) {
    && (forall i :: 0 <= i < |items| ==> GoodItem(items[i]))
    && (forall i, j :: 0 <= i < j < |items| ==> items[i].role != items[j].role)
  }

  predicate GoodVariable(v: string) {
    '\n' !in v && '#' !in v && '[' !in v && FirstQuad(v).None?
  }

  predicate GoodAdmin(admin: Admin) {
    GoodVariable(admin.name) && GoodVariable(admin.path)
  }

  // ---------- reading the items ----------

  function AddHosts(s: State, hosts: seq<Host>): State
    decreases |hosts|
  {
    if hosts == [] then s else AddHosts(AddHost(s, hosts[0].ip, hosts[0].name), hosts[1..])
  }

  function AddItems(s: State, items: seq<Item>): State
    decreases |items|
  {
    if items == [] then s else AddItems(AddHosts(s.(current := Some(items[0].role)), items[0].hosts), items[1..])
  }

  lemma {:induction false} ReadHosts(s: State, hosts: seq<Host>)
    requires forall i :: 0 <= i < |hosts| ==> GoodName(hosts[i].name) && IsQuad(hosts[i].ip)
    ensures ReadFrom(s, HostLines(hosts)) == AddHosts(s, hosts)
    decreases |hosts|
  {
    hide Step, AddHost, GoodName, IsQuad;
    if hosts != [] {
      HostStep(s, hosts[0]);
      assert HostLines(hosts)[1..] == HostLines(hosts[1..]);
      ReadHosts(AddHost(s, hosts[0].ip, hosts[0].name), hosts[1..]);
    }
  }

  lemma ReadTwo(s: State, a: string, b: string)
    ensures ReadFrom(s, [a, b]) == Step(Step(s, a), b)
  {
    hide Step;
    assert [a, b][1..] == [b];
    ReadOne(Step(s, a), b);
  }

  lemma BlankStep(s: State)
    ensures Step(s, "\n") == s
  {
    QuietStep(s, "\n");
  }

  lemma ReadItem(s: State, item: Item)
    requires GoodItem(item)
    ensures ReadFrom(s, ItemLines(item)) == AddHosts(s.(current := Some(item.role)), item.hosts)
  {
    hide Step, AddHost, ReadFrom, HostLines, AddHosts;
    var head := "[" + item.role + "]" + "\n";
    ReadAppend(s, ["\n", head], HostLines(item.hosts));
    ReadTwo(s, "\n", head);
    BlankStep(s);
    HeadingStep(s, item.role);
    ReadHosts(s.(current := Some(item.role)), item.hosts);
  }

  lemma {:induction false} ReadItems(s: State, items: seq<Item>)
    requires forall i :: 0 <= i < |items| ==> GoodItem(items[i])
    ensures ReadFrom(s, AllLines(items)) == AddItems(s, items)
    decreases |items|
  {
    hide Step, AddHost, ItemLines, AddHosts, GoodItem;
    if items != [] {
      ReadItem(s, items[0]);
      ReadAppend(s, ItemLines(items[0]), AllLines(items[1..]));
      ReadItems(AddHosts(s.(current := Some(items[0].role)), items[0].hosts), items[1..]);
    }
  }

  // ---------- the fixed lines ----------

  lemma {:induction false} ReadNothing(s: State, lines: seq<string>)
    requires forall i :: 0 <= i < |lines| ==> Step(s, lines[i]) == s
    ensures ReadFrom(s, lines) == s
    decreases |lines|
  {
    hide Step;
    if lines != [] {
      ReadNothing(s, lines[1..]);
    }
  }

  lemma PreambleRead(s: State)
    ensures ReadFrom(s, Ended(PREAMBLE)) == s
  {
    hide Step;
    var lines := Ended(PREAMBLE);
    forall i | 0 <= i < |lines| ensures Step(s, lines[i]) == s {
      if i == 3 || i == 6 {
        BlankStep(s);
        assert lines[i] == "\n";
      } else {
        CommentStep(s, lines[i]);
      }
    }
    ReadNothing(s, lines);
  }

  /** A quiet line ended by a line feed is quiet. */
  lemma QuietEnded(s: State, line: string)
    requires '#' !in line && (line == "" || line[0] != '[') && FirstQuad(line).None?
    ensures Step(s, line + "\n") == s
  {
    hide FirstQuad;
    FirstQuadBefore(line, "\n");
    NoDotNoQuad("\n");
    QuietStep(s, line + "\n");
  }

  lemma VariableQuiet(s: State, label': string, v: string)
    requires label' != "" && label'[0] != '[' && '#' !in label' && (forall c | c in label' :: !IsDigit(c))
        && GoodVariable(v)
    ensures Step(s, label' + v + "\n") == s
  {
    hide FirstQuad, Step;
    SkipNoDigits(label', v);
    QuietEnded(s, label' + v);
  }

  /** The fixed lines that are not comments hold no address and are no headings. */
  lemma CommonArgsPlain()
    ensures FirstQuad(COMMON_ARGS).None? && '#' !in COMMON_ARGS && COMMON_ARGS != "" && COMMON_ARGS[0] != '['
  {
    hide FirstQuad;
    assert '.' !in COMMON_ARGS;
    NoDotNoQuad(COMMON_ARGS);
  }

  lemma ExtraArgsPlain()
    ensures FirstQuad(EXTRA_ARGS).None? && EXTRA_ARGS != "" && EXTRA_ARGS[0] != '['
  {
    hide FirstQuad;
    assert '.' !in EXTRA_ARGS;
    NoDotNoQuad(EXTRA_ARGS);
  }

  lemma ExtraArgsNoComment()
    ensures '#' !in EXTRA_ARGS
  {
  }

  lemma CommentsMarked()
    ensures forall c | c in [SSH_OPTIONS, SSH_TODO, SSH_COMMON, SSH_EXTRA] :: c != "" && c[0] == '#'
  {
  }

  lemma LabelsPlain()
    ensures var l := "ansible_user="; l[0] != '[' && '#' !in l && (forall c | c in l :: !IsDigit(c))
    ensures var l := "ansible_ssh_" + "private_key_" + "file=";
            l[0] != '[' && '#' !in l && (forall c | c in l :: !IsDigit(c))
  {
  }

  lemma AllVarsStep(s: State)
    ensures Step(s, "[all:vars]" + "\n") == s.(current := Some("all:vars"))
  {
    hide Step;
    var role := "all:vars";
    assert "[" + role + "]" == "[all:vars]";
    HeadingStep(s, role);
  }

  lemma ClosingRead(s: State, admin: Admin)
    requires GoodAdmin(admin)
    ensures ReadFrom(s, Ended(Closing(admin)) + [EXTRA_ARGS]) == s.(current := Some("all:vars"))
  {
    hide Step, ReadFrom, FirstQuad;
    var lines := Ended(Closing(admin)) + [EXTRA_ARGS];
    var s' := s.(current := Some("all:vars"));
    assert lines == lines[..3] + ([lines[3]] + lines[4..]);
    ReadAppend(s, lines[..3], [lines[3]] + lines[4..]);
    forall i | 0 <= i < 3 ensures Step(s, lines[i]) == s {
      if i == 2 {
        CommentStep(s, lines[i]);
      } else {
        BlankStep(s);
        assert lines[i] == "\n";
      }
    }
    ReadNothing(s, lines[..3]);
    ReadAppend(s, [lines[3]], lines[4..]);
    AllVarsStep(s);
    ReadOne(s, lines[3]);
    LabelsPlain();
    CommonArgsPlain();
    ExtraArgsPlain();
    ExtraArgsNoComment();
    CommentsMarked();
    forall i | 4 <= i < |lines| ensures Step(s', lines[i]) == s' {
      match i {
        case 4 => VariableQuiet(s', "ansible_user=", admin.name);
        case 5 => VariableQuiet(s', "ansible_ssh_" + "private_key_" + "file=", admin.path);
        case 9 => QuietEnded(s', COMMON_ARGS);
        case 11 => QuietStep(s', EXTRA_ARGS);
        case _ => CommentStep(s', lines[i]);
      }
    }
    ReadNothing(s', lines[4..]);
  }

  lemma ReadOne(s: State, line: string)
    ensures ReadFrom(s, [line]) == Step(s, line)
  {
    hide Step;
    assert [line][1..] == [];
  }
}
