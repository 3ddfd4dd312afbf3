/** The text scanners of the test suite agree with the inventory they scan. */
module InventoryCount {
  import opened Results
  import opened Inventory
  import opened InventoryText
  import opened InventoryReading
  import opened InventoryRoundTrip

  /** What follows the first occurrence of a pattern. */
  function FindAfter(text: string, pattern: string): Option<string> {
    if pattern <= text then Some(text[|pattern|..])
    else if text == "" then None
    else FindAfter(text[1..], pattern)
  }

  /** What precedes the first occurrence of a pattern; everything if there is none. */
  function UpTo(text: string, pattern: string): string {
    if text == "" || pattern <= text then "" else [text[0]] + UpTo(text[1..], pattern)
  }

  function Brackets(role: string): string {
    "[" + role + "]"
  }

  /** The text between a role's heading and the next bracket. */
  function Rows(text: string, role: string): Option<string> {
    match FindAfter(text, Brackets(role))
    case None => None
    case Some(after) => Some(Before(UpTo(after, Brackets(role)), '['))
  }

  const MARK := "ansible_host"

  /** The number of occurrences of the mark that do not overlap. */
  function Marks(s: string): nat {
    if s == "" then 0
    else if MARK <= s then 1 + Marks(s[|MARK|..])
    else Marks(s[1..])
  }

  function CountInventoryHosts(text: string, role: string): nat {
    match Rows(text, role)
    case None => 0
    case Some(rows) => Marks(rows)
  }

  predicate ListsHost(line: string) {
    line != "" && line[0] != '#' && FirstQuad(line).Some?
  }

  function NamesIn(lines: seq<string>): seq<string> {
    if lines == [] then []
    else (if ListsHost(lines[0]) then [FirstWord(lines[0])] else []) + NamesIn(lines[1..])
  }

  method ListInventoryHosts(text: string, role: string) returns (list: seq<string>)
    ensures list == match Rows(text, role) case None => [] case Some(rows) => NamesIn(Lines(rows))
  {
    hide FirstQuad, FirstWord, Lines, Before, UpTo, FindAfter;
    list := [];
    var rows := Rows(text, role);
    if rows.Some? {
      var lines := Lines(rows.value);
      assert lines[0..] == lines;
      for i := 0 to |lines|
        invariant list + NamesIn(lines[i..]) == NamesIn(lines)
      {
        assert lines[i..][1..] == lines[i + 1..];
        if ListsHost(lines[i]) {
          list := list + [FirstWord(lines[i])];
        }
      }
    }
  }

  // ---------- finding a heading ----------

  /** A text without brackets hides no heading. */
  lemma {:induction false} FindSkips(s: string, t: string, role: string)
    requires '[' !in s
    ensures FindAfter(s + t, Brackets(role)) == FindAfter(t, Brackets(role))
  {
    if s == "" {
      assert s + t == t;
    } else {
      assert (s + t)[0] == s[0] && s[0] in s;
      assert Brackets(role)[0] == '[';
      assert (s + t)[1..] == s[1..] + t;
      FindSkips(s[1..], t, role);
    }
  }

  /** The heading of another role is not the one sought. */
  lemma OtherHeading(other: string, role: string, t: string)
    requires other != role && '[' !in other && ']' !in other && ']' !in role
    ensures FindAfter(Brackets(other) + t, Brackets(role)) == FindAfter(t, Brackets(role))
  {
    var s, p := Brackets(other) + t, Brackets(role);
    HeadingsDiffer(other, role, t);
    assert s[1..] == (other + "]") + t;
    FindSkips(other + "]", t, role);
  }

  lemma HeadingsDiffer(other: string, role: string, t: string)
    requires other != role && ']' !in other && ']' !in role
    ensures !(Brackets(role) <= Brackets(other) + t)
  {
    var s, p := Brackets(other) + t, Brackets(role);
    if p <= s {
      BeforeFirst(other, ']', t);
      assert s[1..] == other + [']'] + t;
      var u := s[|p|..];
      assert s == p + u;
      assert s[1..] == role + [']'] + u;
      BeforeFirst(role, ']', u);
    }
  }

  lemma OwnHeading(role: string, t: string)
    ensures FindAfter(Brackets(role) + t, Brackets(role)) == Some(t)
  {
    assert (Brackets(role) + t)[|Brackets(role)|..] == t;
  }

  /** No bracket is in the hosts' lines. */
  lemma {:induction false} HostsUnbracketed(hosts: seq<Host>)
    requires forall i :: 0 <= i < |hosts| ==> GoodName(hosts[i].name) && IsQuad(hosts[i].ip)
    ensures '[' !in HostsText(hosts)
  {
    hide IsQuad, FirstQuad;
    if hosts != [] {
      HostsUnbracketed(hosts[1..]);
      QuadChars(hosts[0].ip);
      assert '[' !in hosts[0].name && '[' !in hosts[0].ip;
    }
  }

  /** Behind the items before the `k`-th, the search finds the `k`-th item's own lines. */
  lemma {:induction false} FindItem(items: seq<Item>, t: string, k: nat)
    requires GoodItems(items) && k < |items|
    ensures FindAfter(ItemsText(items) + t, Brackets(items[k].role))
         == Some(HostsText(items[k].hosts) + "\n" + (ItemsText(items[k + 1..]) + t))
    decreases k
  {
    hide HostsText, FindAfter, GoodItem;
    var item, rest, role := items[0], items[1..], items[k].role;
    GoodItemFacts(item);
    GoodItemFacts(items[k]);
    HostsUnbracketed(item.hosts);
    var hosts := HostsText(item.hosts) + "\n";
    var tail := ItemsText(rest) + t;
    SplitItem(item, ItemsText(rest), t);
    assert ItemsText(items) + t == "\n" + (Brackets(item.role) + (hosts + tail));
    FindSkips("\n", Brackets(item.role) + (hosts + tail), role);
    if k == 0 {
      OwnHeading(role, hosts + tail);
    } else {
      OtherHeading(item.role, role, hosts + tail);
      FindSkips(hosts, tail, role);
      FindItem(rest, t, k - 1);
      assert rest[k..] == items[k + 1..];
    }
  }

  lemma GoodItemFacts(item: Item)
    requires GoodItem(item)
    ensures '[' !in item.role && ']' !in item.role
    ensures forall i :: 0 <= i < |item.hosts| ==> GoodName(item.hosts[i].name) && IsQuad(item.hosts[i].ip)
  {
  }

  lemma SplitItem(item: Item, rest: string, t: string)
    ensures ItemText(item) + rest + t == "\n" + (Brackets(item.role) + ((HostsText(item.hosts) + "\n") + (rest + t)))
  {
    hide HostsText;
  }

  // ---------- the rows under a heading ----------

  lemma {:induction false} BeforeOfUpTo(t: string, role: string)
    ensures Before(UpTo(t, Brackets(role)), '[') == Before(t, '[')
  {
    var p := Brackets(role);
    assert p[0] == '[';
    if t != "" && !(p <= t) {
      assert UpTo(t, p)[0] == t[0];
      assert UpTo(t, p)[1..] == UpTo(t[1..], p);
      BeforeOfUpTo(t[1..], role);
    }
  }

  lemma {:induction false} BeforeSkips(s: string, t: string, c: char)
    requires c !in s
    ensures Before(s + t, c) == s + Before(t, c)
  {
    if s == "" {
      assert s + t == t;
    } else {
      assert (s + t)[1..] == s[1..] + t;
      BeforeSkips(s[1..], t, c);
    }
  }

  lemma AllowingUnbracketed()
    ensures '[' !in ALLOWING
  {
  }

  /** What precedes the first bracket behind an item. */
  function Gap(last: bool): string {
    if last then "\n" + "\n" + (ALLOWING + "\n") else "\n"
  }

  lemma ClosingGap(admin: Admin)
    ensures Before(Concat(Ended(Closing(admin))), '[') == Gap(true)
    ensures '[' in Concat(Ended(Closing(admin)))
  {
    hide Concat, Closing, Ended;
    var lines := Ended(Closing(admin));
    ClosingStart(admin);
    ConcatFour(lines);
    var rest := lines[3] + Concat(lines[4..]);
    AllowingUnbracketed();
    assert lines[0] + (lines[1] + (lines[2] + rest)) == Gap(true) + rest;
    BeforeSkips(Gap(true), rest, '[');
    assert rest[0] == '[' && rest[0] in rest;
  }

  lemma ClosingStart(admin: Admin)
    ensures var lines := Ended(Closing(admin));
            && |lines| >= 4 && lines[0] == lines[1] == "\n" && lines[2] == ALLOWING + "\n"
            && lines[3] != "" && lines[3][0] == '['
  {
  }

  lemma ConcatCons(lines: seq<string>)
    requires lines != []
    ensures Concat(lines) == lines[0] + Concat(lines[1..])
  {
  }

  lemma ConcatFour(lines: seq<string>)
    requires |lines| >= 4
    ensures Concat(lines) == lines[0] + (lines[1] + (lines[2] + (lines[3] + Concat(lines[4..]))))
  {
    hide Concat;
    ConcatCons(lines);
    ConcatCons(lines[1..]);
    ConcatCons(lines[2..]);
    ConcatCons(lines[3..]);
    assert lines[1..][1..] == lines[2..] && lines[2..][1..] == lines[3..] && lines[3..][1..] == lines[4..];
  }

  /** The text behind the items, as the printer makes it. */
  function Rest(admin: Admin): string {
    Concat(Ended(Closing(admin))) + EXTRA_ARGS
  }

  lemma RestGap(admin: Admin)
    ensures Before(Rest(admin), '[') == Gap(true)
  {
    hide Concat, Before, Closing;
    ClosingGap(admin);
    BeforeStops(Concat(Ended(Closing(admin))), EXTRA_ARGS, '[');
  }

  lemma {:induction false} BeforeStops(s: string, t: string, c: char)
    requires c in s
    ensures Before(s + t, c) == Before(s, c)
  {
    if s[0] != c {
      assert s == [s[0]] + s[1..];
      assert (s + t)[1..] == s[1..] + t;
      BeforeStops(s[1..], t, c);
    }
  }

  /** The rows under a role's heading are the lines of its hosts. */
  lemma RowsOfItem(items: seq<Item>, admin: Admin, k: nat)
    requires GoodItems(items) && k < |items|
    ensures Rows(Render(items, admin), items[k].role)
         == Some(HostsText(items[k].hosts) + "\n" + Gap(k == |items| - 1))
  {
    hide Concat, Before, UpTo, FindAfter, HostsText, Gap, GoodItem, Closing;
    var role, pre := items[k].role, Concat(Ended(PREAMBLE));
    var after := ItemsText(items[k + 1..]) + Rest(admin);
    var hosts := HostsText(items[k].hosts) + "\n";
    assert Render(items, admin) == pre + (ItemsText(items) + Rest(admin));
    PreambleUnbracketed();
    FindSkips(pre, ItemsText(items) + Rest(admin), role);
    FindItem(items, Rest(admin), k);
    BeforeOfUpTo(hosts + after, role);
    GoodItemFacts(items[k]);
    HostsUnbracketed(items[k].hosts);
    BeforeSkips(hosts, after, '[');
    AfterGap(items[k + 1..], admin);
  }

  lemma AfterGap(items: seq<Item>, admin: Admin)
    ensures Before(ItemsText(items) + Rest(admin), '[') == Gap(items == [])
  {
    hide HostsText, Rest;
    RestGap(admin);
    if items == [] {
      assert ItemsText(items) + Rest(admin) == Rest(admin);
    } else {
      SplitItem(items[0], ItemsText(items[1..]), Rest(admin));
      var t := HostsText(items[0].hosts) + "\n" + (ItemsText(items[1..]) + Rest(admin));
      BeforeSkips("\n", Brackets(items[0].role) + t, '[');
      assert (Brackets(items[0].role) + t)[0] == '[';
    }
  }

  // ---------- no bracket before the items ----------

  lemma TitleUnbracketed()
    ensures '[' !in TITLE
  {
  }

  lemma RolesNoteUnbracketed()
    ensures '[' !in ROLES_NOTE
  {
  }

  lemma HostsNoteUnbracketed()
    ensures '[' !in HOSTS_NOTE
  {
  }

  lemma {:induction false} ConcatUnbracketed(lines: seq<string>)
    requires forall i :: 0 <= i < |lines| ==> '[' !in lines[i]
    ensures '[' !in Concat(lines)
  {
    if lines != [] {
      ConcatUnbracketed(lines[1..]);
    }
  }

  lemma PreambleUnbracketed()
    ensures '[' !in Concat(Ended(PREAMBLE))
  {
    TitleUnbracketed();
    RolesNoteUnbracketed();
    HostsNoteUnbracketed();
    ConcatUnbracketed(Ended(PREAMBLE));
  }

  // ---------- counting ----------

  lemma MarkLetters()
    ensures |MARK| == 12 && MARK[0] == 'a' && MARK[8] == 'h' && '\n' !in MARK && '=' !in MARK && ' ' !in MARK
  {
  }

  lemma MarkBefore(s: string, t: string)
    requires t != "" && t[0] !in MARK
    ensures MARK <= s + t <==> MARK <= s
  {
    assert (s + t)[|s|] == t[0];
    if MARK <= s + t {
      assert forall i :: 0 <= i < |MARK| ==> (s + t)[i] == MARK[i] && MARK[i] in MARK;
      assert MARK == s[..|MARK|];
    }
    if MARK <= s {
      assert (s + t)[..|MARK|] == s[..|MARK|];
    }
  }

  /** A character that is not in the mark keeps the marks on its two sides apart. */
  lemma {:induction false} MarksBefore(s: string, t: string)
    requires t != "" && t[0] !in MARK
    ensures Marks(s + t) == Marks(s) + Marks(t)
    decreases |s|
  {
    MarkBefore(s, t);
    if s == "" {
      assert s + t == t;
    } else if MARK <= s {
      assert (s + t)[|MARK|..] == s[|MARK|..] + t;
      MarksBefore(s[|MARK|..], t);
    } else {
      assert (s + t)[1..] == s[1..] + t;
      MarksBefore(s[1..], t);
    }
  }

  lemma {:induction false} NoMarks(s: string)
    requires 'h' !in s
    ensures Marks(s) == 0
  {
    MarkLetters();
    if s != "" {
      assert forall i :: 0 <= i < |s| ==> s[i] in s;
      assert !(MARK <= s);
      NoMarks(s[1..]);
    }
  }

  lemma OneMark()
    ensures Marks(" ansible_host") == 1
  {
    MarkLetters();
    var s := " ansible_host";
    assert s[1..] == MARK;
    assert MARK[|MARK|..] == "";
    assert !(MARK <= s) by {
      assert s[0] != MARK[0];
    }
    assert Marks(MARK) == 1;
  }

  lemma HostMarks(h: Host)
    requires Marks(h.name) == 0 && IsQuad(h.ip)
    ensures Marks("\n" + h.name + " ansible_host=" + h.ip) == 1
  {
    hide Marks, IsQuad;
    MarkLetters();
    QuadChars(h.ip);
    var a, b, c, d := "\n", h.name, " ansible_host", "=" + h.ip;
    assert a + b + " ansible_host=" + h.ip == a + b + c + d;
    MarksBefore(a + b + c, d);
    MarksBefore(a + b, c);
    LeadingFeed(b);
    OneMark();
    assert 'h' !in d;
    NoMarks(d);
  }

  lemma LeadingFeed(s: string)
    ensures Marks("\n" + s) == Marks(s)
  {
    MarkLetters();
    assert ("\n" + s)[1..] == s;
    assert ("\n" + s)[0] != MARK[0];
  }

  lemma {:induction false} HostsMarks(hosts: seq<Host>)
    requires forall i :: 0 <= i < |hosts| ==> Marks(hosts[i].name) == 0 && IsQuad(hosts[i].ip)
    ensures Marks(HostsText(hosts)) == |hosts|
  {
    hide Marks, IsQuad;
    if hosts == [] {
      NoMarks("");
    } else {
      var h, rest := hosts[0], HostsText(hosts[1..]);
      HostMarks(h);
      HostsMarks(hosts[1..]);
      var line := "\n" + h.name + " ansible_host=" + h.ip;
      if rest == "" {
        assert line + rest == line;
        NoMarks("");
      } else {
        MarkLetters();
        assert rest[0] == '\n';
        MarksBefore(line, rest);
      }
    }
  }

  lemma GapMarks(last: bool)
    ensures Marks(Gap(last)) == 0
  {
    AllowingMarkless();
    NoMarks(Gap(last));
  }

  lemma AllowingMarkless()
    ensures 'h' !in ALLOWING
  {
  }

  /** The count for a role of the inventory is the number of its hosts, if no host's name holds the mark. */
  lemma CountIsRight(items: seq<Item>, admin: Admin, k: nat)
    requires GoodItems(items) && k < |items|
    requires forall i :: 0 <= i < |items[k].hosts| ==> Marks(items[k].hosts[i].name) == 0
    ensures CountInventoryHosts(Render(items, admin), items[k].role) == |items[k].hosts|
  {
    hide Marks, Rows, Render, HostsText, Gap, GoodItem;
    RowsOfItem(items, admin, k);
    GoodItemFacts(items[k]);
    HostsMarks(items[k].hosts);
    var gap := Gap(k == |items| - 1);
    assert HostsText(items[k].hosts) + "\n" + gap == HostsText(items[k].hosts) + ("\n" + gap);
    MarkLetters();
    MarksBefore(HostsText(items[k].hosts), "\n" + gap);
    LeadingFeed(gap);
    GapMarks(k == |items| - 1);
  }

  // ---------- listing ----------

  function NamesOf(hosts: seq<Host>): (r: seq<string>)
    ensures |r| == |hosts| && forall i :: 0 <= i < |r| ==> r[i] == hosts[i].name
  {
    seq(|hosts|, i requires 0 <= i < |hosts| => hosts[i].name)
  }

  lemma {:induction false} NamesInAppend(a: seq<string>, b: seq<string>)
    ensures NamesIn(a + b) == NamesIn(a) + NamesIn(b)
  {
    hide ListsHost;
    if a == [] {
      assert a + b == b;
    } else {
      assert (a + b)[1..] == a[1..] + b;
      NamesInAppend(a[1..], b);
    }
  }

  lemma HostListed(h: Host)
    requires GoodName(h.name) && IsQuad(h.ip)
    ensures ListsHost(HostLine(h) + "\n") && FirstWord(HostLine(h) + "\n") == h.name
  {
    hide FirstQuad, AfterQuad, Word;
    var rest := " ansible_host=" + (h.ip + "\n");
    assert HostLine(h) + "\n" == h.name + rest;
    AddressFound(h.name, h.ip);
    WordOf(h.name, rest);
    assert (h.name + rest)[0] == h.name[0] && h.name[0] in h.name;
  }

  lemma {:induction false} HostsListed(hosts: seq<Host>)
    requires forall i :: 0 <= i < |hosts| ==> GoodName(hosts[i].name) && IsQuad(hosts[i].ip)
    ensures NamesIn(HostLines(hosts)) == NamesOf(hosts)
  {
    hide ListsHost, FirstWord, GoodName, IsQuad, HostLine;
    if hosts != [] {
      HostListed(hosts[0]);
      HostsListed(hosts[1..]);
      assert HostLines(hosts)[1..] == HostLines(hosts[1..]);
    }
  }

  function GapLines(last: bool): seq<string> {
    if last then ["\n", "\n", ALLOWING + "\n"] else ["\n"]
  }

  lemma GapIsLines(last: bool)
    ensures Gap(last) == Concat(GapLines(last)) && NamesIn(["\n"]) == [] && NamesIn(GapLines(last)) == []
    ensures forall i :: 0 <= i < |GapLines(last)| ==> IsLine(GapLines(last)[i])
  {
    AllowingWhole();
    LineEnded(ALLOWING);
    var a, b := ["\n"], [ALLOWING + "\n"];
    NoDotNoQuad("\n");
    assert a[1..] == [] && b[1..] == [] && Concat(a) == "\n" && Concat(b) == ALLOWING + "\n";
    if last {
      assert GapLines(last) == a + (a + b);
      ConcatAppend(a, a + b);
      ConcatAppend(a, b);
      NamesInAppend(a, a + b);
      NamesInAppend(a, b);
      assert !ListsHost(b[0]);
    }
  }

  /** The list for a role of the inventory is its hosts' names, in order. */
  lemma ListIsRight(items: seq<Item>, admin: Admin, k: nat)
    requires GoodItems(items) && k < |items|
    ensures var rows := Rows(Render(items, admin), items[k].role);
            rows.Some? && NamesIn(Lines(rows.value)) == NamesOf(items[k].hosts)
  {
    hide Rows, Render, HostsText, Gap, GapLines, GoodItem, NamesIn, Lines, Concat, HostLines, IsLine;
    var hosts, last := items[k].hosts, k == |items| - 1;
    RowsOfItem(items, admin, k);
    GoodItemFacts(items[k]);
    HostsTextLines(hosts);
    HostLinesWhole(hosts);
    HostsListed(hosts);
    GapIsLines(last);
    LineEnded("");
    var lines := ["\n"] + HostLines(hosts) + GapLines(last);
    ConcatAppend(["\n"] + HostLines(hosts), GapLines(last));
    ConcatAppend(["\n"], HostLines(hosts));
    OneFeed();
    assert "" + "\n" == "\n";
    LinesOfConcat(lines, "");
    assert Concat(lines) + "" == Concat(lines);
    assert lines + [] == lines;
    assert Rows(Render(items, admin), items[k].role) == Some(Concat(lines));
    NamesInAppend(["\n"] + HostLines(hosts), GapLines(last));
    NamesInAppend(["\n"], HostLines(hosts));
    assert NamesIn(lines) == NamesOf(hosts);
  }

  lemma OneFeed()
    ensures Concat(["\n"]) == "\n" && Lines("") == []
  {
    assert ["\n"][1..] == [];
  }
}
