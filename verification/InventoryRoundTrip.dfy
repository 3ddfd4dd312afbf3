/** Printing an inventory and reading it back: every role has its hosts, and nothing else is read. */
module InventoryRoundTrip {
  import opened Results
  import opened Inventory
  import opened InventoryText
  import opened InventoryReading

  lemma LineEnded(s: string)
    requires '\n' !in s
    ensures IsLine(s + "\n")
  {
  }

  // No fixed line holds a line feed.

  lemma TitleWhole()
    ensures '\n' !in TITLE
  {
  }

  lemma RolesNoteWhole()
    ensures '\n' !in ROLES_NOTE
  {
  }

  lemma HostsNoteWhole()
    ensures '\n' !in HOSTS_NOTE
  {
  }

  lemma AllowingWhole()
    ensures '\n' !in ALLOWING
  {
  }

  lemma SshOptionsWhole()
    ensures '\n' !in SSH_OPTIONS
  {
  }

  lemma SshTodoWhole()
    ensures '\n' !in SSH_TODO
  {
  }

  lemma SshCommonWhole()
    ensures '\n' !in SSH_COMMON
  {
  }

  lemma SshExtraWhole()
    ensures '\n' !in SSH_EXTRA
  {
  }

  lemma CommonArgsWhole()
    ensures '\n' !in COMMON_ARGS
  {
  }

  lemma ExtraArgsWhole()
    ensures '\n' !in EXTRA_ARGS
  {
  }

  lemma PreambleWhole()
    ensures forall i :: 0 <= i < |Ended(PREAMBLE)| ==> IsLine(Ended(PREAMBLE)[i])
  {
    hide IsLine;
    TitleWhole();
    RolesNoteWhole();
    HostsNoteWhole();
    forall i | 0 <= i < |PREAMBLE| ensures IsLine(PREAMBLE[i] + "\n") {
      LineEnded(PREAMBLE[i]);
    }
  }

  lemma ClosingWhole(admin: Admin)
    requires GoodAdmin(admin)
    ensures forall i :: 0 <= i < |Ended(Closing(admin))| ==> IsLine(Ended(Closing(admin))[i])
  {
    hide IsLine, FirstQuad;
    AllowingWhole();
    SshOptionsWhole();
    SshTodoWhole();
    SshCommonWhole();
    SshExtraWhole();
    CommonArgsWhole();
    forall i | 0 <= i < |Closing(admin)| ensures IsLine(Closing(admin)[i] + "\n") {
      LineEnded(Closing(admin)[i]);
    }
  }

  lemma {:induction false} HostLinesWhole(hosts: seq<Host>)
    requires forall i :: 0 <= i < |hosts| ==> GoodName(hosts[i].name) && IsQuad(hosts[i].ip)
    ensures forall i :: 0 <= i < |HostLines(hosts)| ==> IsLine(HostLines(hosts)[i])
  {
    hide IsLine, GoodName, IsQuad, HostLine;
    if hosts != [] {
      HostLineWhole(hosts[0]);
      HostLinesWhole(hosts[1..]);
    }
  }

  lemma HostLineWhole(h: Host)
    requires GoodName(h.name) && IsQuad(h.ip)
    ensures IsLine(HostLine(h) + "\n")
  {
    hide IsQuad, FirstQuad, IsLine;
    QuadChars(h.ip);
    LineEnded(HostLine(h));
  }

  lemma {:induction false} AllLinesWhole(items: seq<Item>)
    requires forall i :: 0 <= i < |items| ==> GoodItem(items[i])
    ensures forall i :: 0 <= i < |AllLines(items)| ==> IsLine(AllLines(items)[i])
  {
    hide GoodName, IsQuad, HostLines;
    if items != [] {
      AllLinesWhole(items[1..]);
      HostLinesWhole(items[0].hosts);
      LineEnded("[" + items[0].role + "]");
    }
  }

  lemma {:induction false} LastLine(s: string)
    requires s != "" && '\n' !in s
    ensures LineLength(s) == |s|
  {
    if |s| > 1 {
      LastLine(s[1..]);
    }
  }

  lemma LastLines(s: string)
    requires s != "" && '\n' !in s
    ensures Lines(s) == [s]
  {
    LastLine(s);
    assert s[..|s|] == s && s[|s|..] == "";
  }

  lemma ThreeParts(a: string, b: string, c: string, d: string)
    ensures a + b + c + d == a + (b + (c + d))
  {
  }

  lemma RenderedLines(items: seq<Item>, admin: Admin)
    requires GoodItems(items) && GoodAdmin(admin)
    ensures Lines(Render(items, admin)) == Ended(PREAMBLE) + AllLines(items) + (Ended(Closing(admin)) + [EXTRA_ARGS])
  {
    hide IsLine, Lines, Concat, AllLines, FirstQuad, Closing, Ended, GoodItem, ItemsText, GoodAdmin;
    PreambleWhole();
    ClosingWhole(admin);
    AllLinesWhole(items);
    ItemsTextLines(items);
    var a, b, c := Concat(Ended(PREAMBLE)), ItemsText(items), Concat(Ended(Closing(admin)));
    ThreeParts(a, b, c, EXTRA_ARGS);
    assert Render(items, admin) == a + (b + (c + EXTRA_ARGS));
    LinesOfConcat(Ended(PREAMBLE), b + (c + EXTRA_ARGS));
    LinesOfConcat(AllLines(items), c + EXTRA_ARGS);
    LinesOfConcat(Ended(Closing(admin)), EXTRA_ARGS);
    ExtraArgsWhole();
    ExtraArgsPlain();
    LastLines(EXTRA_ARGS);
  }

  // ---------- what the items leave in the hashes ----------

  /** The hash of a host list: later hosts overwrite earlier ones with the same address. */
  function Hash(m: map<string, string>, hosts: seq<Host>): map<string, string>
    decreases |hosts|
  {
    if hosts == [] then m else Hash(m[hosts[0].ip := hosts[0].name], hosts[1..])
  }

  lemma {:induction false} GroupHash(s: State, role: string, hosts: seq<Host>)
    requires s.current == Some(role) && (hosts != [] || role in s.groups)
    ensures var m := if role in s.groups then s.groups[role] else map[];
            var r := AddHosts(s, hosts);
            r.current == s.current && r.ungrouped == s.ungrouped && r.groups == s.groups[role := Hash(m, hosts)]
    decreases |hosts|
  {
    if hosts == [] {
      assert s.groups[role := s.groups[role]] == s.groups;
    } else {
      var s' := AddHost(s, hosts[0].ip, hosts[0].name);
      GroupHash(s', role, hosts[1..]);
      var m := if role in s.groups then s.groups[role] else map[];
      var m' := m[hosts[0].ip := hosts[0].name];
      assert s.groups[role := m'][role := Hash(m', hosts[1..])] == s.groups[role := Hash(m', hosts[1..])];
    }
  }

  /** A hash gives every host of its list, when no address is listed twice. */
  lemma {:induction false} HashIs(m: map<string, string>, hosts: seq<Host>)
    requires forall i, j :: 0 <= i < j < |hosts| ==> hosts[i].ip != hosts[j].ip
    ensures var r := Hash(m, hosts);
            && (forall ip :: ip in r <==> ip in m || exists i :: 0 <= i < |hosts| && hosts[i].ip == ip)
            && (forall i :: 0 <= i < |hosts| ==> hosts[i].ip in r && r[hosts[i].ip] == hosts[i].name)
            && (forall ip :: ip in m && (forall i :: 0 <= i < |hosts| ==> hosts[i].ip != ip) ==>
                ip in r && r[ip] == m[ip])
    decreases |hosts|
  {
    if hosts != [] {
      HashIs(m[hosts[0].ip := hosts[0].name], hosts[1..]);
    }
  }

  lemma {:induction false} ItemsHash(s: State, items: seq<Item>)
    requires GoodItems(items) && forall i :: 0 <= i < |items| ==> items[i].role !in s.groups
    ensures var r := AddItems(s, items);
            && r.ungrouped == s.ungrouped
            && (forall g :: g in r.groups <==> g in s.groups || exists i :: 0 <= i < |items| && items[i].role == g)
            && (forall i :: 0 <= i < |items| ==>
                items[i].role in r.groups && r.groups[items[i].role] == Hash(map[], items[i].hosts))
            && (forall g :: g in s.groups ==> g in r.groups && r.groups[g] == s.groups[g])
    decreases |items|
  {
    hide AddHosts, Hash, GoodItem;
    if items != [] {
      var item := items[0];
      HasHost(item);
      var s' := s.(current := Some(item.role));
      GroupHash(s', item.role, item.hosts);
      ItemsHash(AddHosts(s', item.hosts), items[1..]);
    }
  }

  // ---------- the hash of all hosts ----------

  /** The name of the first host of an address. */
  function NameAmong(hosts: seq<Host>, ip: string): Option<string> {
    if hosts == [] then None else if hosts[0].ip == ip then Some(hosts[0].name) else NameAmong(hosts[1..], ip)
  }

  /** The name under which the inventory first lists an address. */
  function FirstName(items: seq<Item>, ip: string): Option<string> {
    if items == [] then None
    else if NameAmong(items[0].hosts, ip).Some? then NameAmong(items[0].hosts, ip)
    else FirstName(items[1..], ip)
  }

  /** What the hash of all hosts holds for an address. */
  function InAll(s: State, ip: string): Option<string> {
    if ip in s.all then Some(s.all[ip]) else None
  }

  lemma {:induction false} HostsInAll(s: State, hosts: seq<Host>, ip: string)
    ensures InAll(AddHosts(s, hosts), ip) == if InAll(s, ip).Some? then InAll(s, ip) else NameAmong(hosts, ip)
    decreases |hosts|
  {
    if hosts != [] {
      HostsInAll(AddHost(s, hosts[0].ip, hosts[0].name), hosts[1..], ip);
    }
  }

  lemma {:induction false} ItemsInAll(s: State, items: seq<Item>, ip: string)
    ensures InAll(AddItems(s, items), ip) == if InAll(s, ip).Some? then InAll(s, ip) else FirstName(items, ip)
    decreases |items|
  {
    hide AddHosts;
    if items != [] {
      var s' := s.(current := Some(items[0].role));
      HostsInAll(s', items[0].hosts, ip);
      ItemsInAll(AddHosts(s', items[0].hosts), items[1..], ip);
    }
  }

  lemma HasHost(item: Item)
    requires GoodItem(item)
    ensures item.hosts != []
  {
  }

  /** A group's hash is its host list. */
  ghost predicate HashOf(m: map<string, string>, hosts: seq<Host>) {
    && (forall ip :: ip in m <==> exists i :: 0 <= i < |hosts| && hosts[i].ip == ip)
    && (forall i :: 0 <= i < |hosts| ==> hosts[i].ip in m && m[hosts[i].ip] == hosts[i].name)
  }

  /**
   * The round trip: reading the lines of a printed inventory recovers role, address and name of every host,
   * and no more; all hosts have their first name.
   */
  lemma ReadBack(items: seq<Item>, admin: Admin)
    requires GoodItems(items) && GoodAdmin(admin)
    ensures var s := ReadFrom(INITIAL, Lines(Render(items, admin)));
            && s.ungrouped == map[]
            && (forall g :: g in s.groups <==> exists i :: 0 <= i < |items| && items[i].role == g)
            && (forall i :: 0 <= i < |items| ==>
                items[i].role in s.groups && HashOf(s.groups[items[i].role], items[i].hosts))
            && (forall ip :: InAll(s, ip) == FirstName(items, ip))
  {
    hide FirstName, Lines, Render, ReadFrom, AllLines, AddItems, Closing, Ended, GoodAdmin, GoodItem, Hash, HashOf;
    RenderedLines(items, admin);
    var pre, body, post := Ended(PREAMBLE), AllLines(items), Ended(Closing(admin)) + [EXTRA_ARGS];
    ReadAppend(INITIAL, pre + body, post);
    ReadAppend(INITIAL, pre, body);
    PreambleRead(INITIAL);
    ReadItems(INITIAL, items);
    ClosingRead(AddItems(INITIAL, items), admin);
    ItemsHash(INITIAL, items);
    forall ip ensures InAll(AddItems(INITIAL, items), ip) == FirstName(items, ip) {
      ItemsInAll(INITIAL, items, ip);
    }
    forall i | 0 <= i < |items| ensures HashOf(Hash(map[], items[i].hosts), items[i].hosts) {
      HostsHash(items[i]);
    }
  }

  lemma HostsHash(item: Item)
    requires GoodItem(item)
    ensures HashOf(Hash(map[], item.hosts), item.hosts)
  {
    HashIs(map[], item.hosts);
  }
}
