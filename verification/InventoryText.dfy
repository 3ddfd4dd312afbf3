/** The inventory as text, and how the test suite reads its lines. */
module InventoryText {
  import opened Results
  import opened Inventory

  // ---------- printing ----------

  /** What the printer takes from the cluster document. */
  datatype Admin = Admin(name: string, path: string)

  function HostsText(hosts: seq<Host>): string {
    if hosts == [] then "" else "\n" + hosts[0].name + " ansible_host=" + hosts[0].ip + HostsText(hosts[1..])
  }

  function ItemText(item: Item): string {
    "\n[" + item.role + "]" + HostsText(item.hosts) + "\n"
  }

  function ItemsText(items: seq<Item>): string {
    if items == [] then "" else ItemText(items[0]) + ItemsText(items[1..])
  }

  // The fixed lines, without their line feeds, in pieces short enough for the verifier to look into.
  const TITLE := "# Ansible " + "Inventory File " + "- Automated so " + "do not modify"
  const ROLES_NOTE :=
    "# Inventory " + "broken down " + "into roles. " + "Note: 'all' is " + "a default group " + "of all Hosts"
  const HOSTS_NOTE :=
    "# Note: " + "ansible_host can " + "be private IPs. " + "If so then " + "Ansible is going " + "through bastian "
    + "host or build " + "server where " + "the inventory " + "IPs are routable"
  const ALLOWING := "# Allowing " + "'all' since for " + "now only Linux " + "is supported"
  const SSH_OPTIONS := "# --- SSH " + "options ---"
  const SSH_TODO := "# todo: manage " + "StrictHostKey" + "Checking from " + "LambdaStack " + "configuration"
  const SSH_COMMON := "# Always " + "appended to the " + "default command " + "line for sftp, " + "scp, and ssh"
  const SSH_EXTRA := "# Always " + "appended to the " + "default ssh " + "command line"
  const COMMON_ARGS := "ansible_ssh_" + "common_args='-o " + "StrictHostKey" + "Checking=no'"
  const EXTRA_ARGS :=
    "ansible_ssh_" + "extra_args='-o " + "ServerAlive" + "Interval=60 -o " + "ServerAlive" + "CountMax=1'"

  function Ended(lines: seq<string>): (r: seq<string>)
    ensures |r| == |lines| && forall i :: 0 <= i < |r| ==> r[i] == lines[i] + "\n"
  {
    seq(|lines|, i requires 0 <= i < |lines| => lines[i] + "\n")
  }

  const PREAMBLE := ["#", TITLE, "#", "", ROLES_NOTE, HOSTS_NOTE, ""]

  /** The lines after the items but the last. */
  function Closing(admin: Admin): seq<string> {
    ["", "", ALLOWING, "[all:vars]",
     "ansible_user=" + admin.name, "ansible_ssh_" + "private_key_" + "file=" + admin.path,
     SSH_OPTIONS, SSH_TODO, SSH_COMMON, COMMON_ARGS, SSH_EXTRA]
  }

  function Concat(lines: seq<string>): string {
    if lines == [] then "" else lines[0] + Concat(lines[1..])
  }

  function Render(items: seq<Item>, admin: Admin): string {
    Concat(Ended(PREAMBLE)) + ItemsText(items) + Concat(Ended(Closing(admin))) + EXTRA_ARGS
  }

  // ---------- the lines of a text ----------

  /** A line ends with its only line feed, if it has one. */
  predicate IsLine(s: string) {
    s != [] && s[|s| - 1] == '\n' && forall i :: 0 <= i < |s| - 1 ==> s[i] != '\n'
  }

  /** The length of the first line with its line feed. */
  function LineLength(text: string): (n: nat)
    requires text != []
    ensures 1 <= n <= |text|
  {
    if text[0] == '\n' || |text| == 1 then 1 else 1 + LineLength(text[1..])
  }

  function Lines(text: string): seq<string> {
    if text == [] then [] else [text[..LineLength(text)]] + Lines(text[LineLength(text)..])
  }

  lemma {:induction false} LineFirst(line: string, rest: string)
    requires IsLine(line)
    ensures LineLength(line + rest) == |line|
  {
    if |line| > 1 {
      assert (line + rest)[1..] == line[1..] + rest;
      LineFirst(line[1..], rest);
    }
  }

  lemma LinesCons(line: string, rest: string)
    requires IsLine(line)
    ensures Lines(line + rest) == [line] + Lines(rest)
  {
    LineFirst(line, rest);
    assert (line + rest)[..|line|] == line && (line + rest)[|line|..] == rest;
  }

  /** Splitting at line feeds undoes the concatenation of lines. */
  lemma {:induction false} LinesOfConcat(lines: seq<string>, rest: string)
    requires forall i :: 0 <= i < |lines| ==> IsLine(lines[i])
    ensures Lines(Concat(lines) + rest) == lines + Lines(rest)
  {
    hide Lines, IsLine;
    if lines == [] {
      assert Concat(lines) + rest == rest;
    } else {
      var tail := Concat(lines[1..]) + rest;
      assert Concat(lines) + rest == lines[0] + tail;
      LinesCons(lines[0], tail);
      LinesOfConcat(lines[1..], rest);
    }
  }

  // ---------- reading a line ----------

  predicate IsDigit(c: char) {
    '0' <= c <= '9'
  }

  /** Up to three digits from the start. */
  function Digits(s: string): (n: nat)
    ensures n <= 3 && n <= |s| && forall i :: 0 <= i < n ==> IsDigit(s[i])
  {
    if s == [] || !IsDigit(s[0]) then 0
    else if |s| == 1 || !IsDigit(s[1]) then 1
    else if |s| == 2 || !IsDigit(s[2]) then 2
    else 3
  }

  /** What follows one to three digits and a dot. */
  function AfterDot(s: string): (r: Option<string>)
    ensures r.Some? ==> |r.value| < |s| && r.value == s[|s| - |r.value|..]
  {
    var n := Digits(s);
    if n == 0 || n == |s| || s[n] != '.' then None else Some(s[n + 1..])
  }

  /** What follows an address, if the text starts with one: four groups of up to three digits between dots. */
  function AfterQuad(s: string): (r: Option<string>)
    ensures r.Some? ==> |r.value| < |s|
  {
    var a := AfterDot(s);
    if a.None? then None
    else
      var b := AfterDot(a.value);
      if b.None? then None
      else
        var c := AfterDot(b.value);
        if c.None? || Digits(c.value) == 0 then None else Some(c.value[Digits(c.value)..])
  }

  /** The first address in a text. */
  function FirstQuad(s: string): Option<string> {
    if s == [] then None
    else if AfterQuad(s).Some? then Some(s[..|s| - |AfterQuad(s).value|])
    else FirstQuad(s[1..])
  }

  predicate IsQuad(s: string) {
    AfterQuad(s) == Some("")
  }

  predicate IsSpace(c: char) {
    c == ' ' || '\t' <= c <= '\r' || c == '\0'
  }

  /** The first word of a line. */
  function FirstWord(s: string): string {
    if s == [] then "" else if IsSpace(s[0]) then FirstWord(s[1..]) else Word(s)
  }

  function Word(s: string): string {
    if s == [] || IsSpace(s[0]) then "" else [s[0]] + Word(s[1..])
  }

  /** The part of a text before the first occurrence of a character. */
  function Before(s: string, c: char): string {
    if s == [] || s[0] == c then "" else [s[0]] + Before(s[1..], c)
  }

  /** The group a heading names, if the line starts with one. */
  function Heading(line: string): Option<string> {
    if line == [] || line[0] != '[' then None
    else
      var name := Before(line[1..], ']');
      if name == "" || |name| + 1 >= |line| then None else Some(name)
  }

  // ---------- reading all lines ----------

  /** The readers' hashes: from groups, and for all and for ungrouped hosts, from address to host name. */
  datatype State = State(current: Option<string>, groups: map<string, map<string, string>>,
                         all: map<string, string>, ungrouped: map<string, string>)

  const INITIAL := State(None, map[], map[], map[])

  function AddHost(s: State, ip: string, name: string): State {
    var s := s.(all := if ip in s.all then s.all else s.all[ip := name]);
    match s.current
    case None => s.(ungrouped := s.ungrouped[ip := name])
    case Some(g) => s.(groups := s.groups[g := (if g in s.groups then s.groups[g] else map[])[ip := name]])
  }

  function Step(s: State, line: string): State {
    var text := Before(line, '#');
    if Heading(text).Some? then s.(current := Heading(text))
    else
      var ip := FirstQuad(text);
      if ip.None? then s else AddHost(s, ip.value, FirstWord(text))
  }

  function ReadFrom(s: State, lines: seq<string>): State
    decreases |lines|
  {
    if lines == [] then s else ReadFrom(Step(s, lines[0]), lines[1..])
  }

  method ReadInventory(lines: seq<string>)
    returns (groups: map<string, map<string, string>>, all: map<string, string>, ungrouped: map<string, string>)
    ensures var s := ReadFrom(INITIAL, lines);
            groups == s.groups && all == s.all && ungrouped == s.ungrouped
  {
    hide Heading, FirstQuad, FirstWord, Before;
    groups, all, ungrouped := map[], map[], map[];
    var current: Option<string> := None;
    assert lines[0..] == lines;
    for i := 0 to |lines|
      invariant ReadFrom(State(current, groups, all, ungrouped), lines[i..]) == ReadFrom(INITIAL, lines)
    {
      assert lines[i..][1..] == lines[i + 1..];
      ghost var before := State(current, groups, all, ungrouped);
      var line := Before(lines[i], '#');
      if line == "" {
        NothingRead(State(current, groups, all, ungrouped), lines[i]);
        continue;
      }
      if Heading(line).Some? {
        current := Heading(line);
      } else if FirstQuad(line).Some? {
        var ip, name := FirstQuad(line).value, FirstWord(line);
        match current {
          case Some(g) =>
            if g !in groups {
              groups := groups[g := map[]];
            }
            groups := groups[g := groups[g][ip := name]];
          case None =>
            ungrouped := ungrouped[ip := name];
        }
        if ip !in all {
          all := all[ip := name];
        }
      }
      assert State(current, groups, all, ungrouped) == Step(before, lines[i]);
    }
  }

  lemma NothingRead(s: State, line: string)
    requires Before(line, '#') == ""
    ensures Step(s, line) == s
  {
  }

  lemma {:induction false} ReadAppend(s: State, a: seq<string>, b: seq<string>)
    ensures ReadFrom(s, a + b) == ReadFrom(ReadFrom(s, a), b)
    decreases |a|
  {
    hide Step;
    if a == [] {
      assert a + b == b;
    } else {
      assert (a + b)[1..] == a[1..] + b;
      ReadAppend(Step(s, a[0]), a[1..], b);
    }
  }
}
