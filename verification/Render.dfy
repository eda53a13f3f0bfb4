/** Printing the managed nginx file and reading back which slot it points at. */
module Render {
  import opened Basics
  import opened Host

  /** The part of a manifest the managed file is made from. slots maps each side to its ports. */
  datatype Entry = Entry(slots: map<Slot, seq<int>>, configured: bool, upstream: string, serverName: string, listen: int)

  // ---- Strings ----

  predicate IsSpace(c: char) {
    || c in {' ', '\t', '\n', '\r', '\U{000B}', '\U{000C}', '\U{0085}', '\U{00A0}', '\U{1680}'}
    || c in {'\U{2028}', '\U{2029}', '\U{202F}', '\U{205F}', '\U{3000}'}
    || '\U{2000}' <= c <= '\U{200A}'
  }

  function TrimLeft(s: string): string {
    if s != "" && IsSpace(s[0]) then TrimLeft(s[1..]) else s
  }

  function TrimRight(s: string): string {
    if s != "" && IsSpace(s[|s| - 1]) then TrimRight(s[..|s| - 1]) else s
  }

  function TrimSpace(s: string): string {
    TrimRight(TrimLeft(s))
  }

  predicate IsDigit(c: char) {
    '0' <= c <= '9'
  }

  function Digit(d: int): char
    requires 0 <= d < 10
  {
    ('0' as int + d) as char
  }

  function Decimal(n: nat): string {
    if n < 10 then [Digit(n)] else Decimal(n / 10) + [Digit(n % 10)]
  }

  function Itoa(n: int): string {
    if n < 0 then "-" + Decimal(-n) else Decimal(n)
  }

  /** The value of a non-empty string of digits. */
  function Digits(s: string): Option<int> {
    if s == "" || !IsDigit(s[|s| - 1]) then None
    else
      var d := s[|s| - 1] as int - '0' as int;
      if |s| == 1 then Some(d)
      else
        match Digits(s[..|s| - 1])
        case None => None
        case Some(high) => Some(10 * high + d)
  }

  const MAX_INT64 := 0x7FFF_FFFF_FFFF_FFFF

  function Atoi(s: string): Option<int> {
    var negative := s != "" && s[0] == '-';
    var digits := if s != "" && (s[0] == '-' || s[0] == '+') then s[1..] else s;
    match Digits(digits)
    case None => None
    case Some(n) =>
      var value := if negative then -n else n;
      if -MAX_INT64 - 1 <= value <= MAX_INT64 then Some(value) else None
  }

  function LastIndex(s: string, c: char): (k: int)
    ensures -1 <= k < |s|
    ensures k >= 0 ==> s[k] == c
    ensures forall i | k < i < |s| :: s[i] != c
  {
    if s == "" then -1
    else if s[|s| - 1] == c then |s| - 1
    else LastIndex(s[..|s| - 1], c)
  }

  // ---- Printing ----

  function SlotName(s: Slot): string {
    match s
    case Single => ""
    case Blue => "blue"
    case Green => "green"
  }

  /** The lines before the upstream's server entry. */
  function Head(e: Entry, target: Slot, release: string, version: string): seq<string> {
    [CommentLine("generated"), CommentLine(Pointing(target, release, version)), CommentLine("reload"), "",
     UpstreamLine(e.upstream)]
  }

  function CommentLine(text: string): string {
    "# " + text
  }

  function UpstreamLine(name: string): string {
    "upstream " + name + " {"
  }

  function Pointing(target: Slot, release: string, version: string): string {
    SlotName(target)
    + (if version == "" then "" else "(version " + version + ")")
    + (if release == "" then "" else "(release " + release + ")")
  }

  function ServerLine(port: int): string {
    "    server 127.0.0.1:" + Itoa(port) + ";"
  }

  /** The lines after it, without the constant proxy settings. */
  function Tail(e: Entry): seq<string> {
    ["    keepalive 16;", "}", "", "server {", "    listen " + Itoa(e.listen) + ";"]
    + (if e.serverName == "" then [] else ["    server_name " + e.serverName + ";"])
    + ["    location / {", "        proxy_pass http://" + e.upstream + ";", "    }", "}"]
  }

  function Text(lines: seq<string>): string {
    if lines == [] then "" else (lines[0] + "\n") + Text(lines[1..])
  }

  /** Appends line after line to a builder. */
  method Build(lines: seq<string>) returns (text: string)
    ensures text == Text(lines)
  {
    text := "";
    var k := 0;
    while k < |lines|
      invariant 0 <= k <= |lines|
      invariant text + Text(lines[k..]) == Text(lines)
    {
      TextFrom(lines, k, text);
      text := text + (lines[k] + "\n");
      k := k + 1;
    }
    assert lines[k..] == [] && text + "" == text;
  }

  lemma TextFrom(lines: seq<string>, k: nat, text: string)
    requires k < |lines|
    ensures text + Text(lines[k..]) == text + (lines[k] + "\n") + Text(lines[k + 1..])
  {
    assert lines[k..][1..] == lines[k + 1..];
    assert Text(lines[k..]) == (lines[k] + "\n") + Text(lines[k + 1..]);
  }

  method RenderManaged(e: Entry, target: Slot, release: string, version: string) returns (r: Result<string>)
    ensures r == Rendered(e, target, release, version)
  {
    if e.slots == map[] || !e.configured {
      return Err(ManifestInvalid);
    }
    if target !in e.slots {
      return Err(InvalidRequest);
    }
    if e.slots[target] == [] {
      return Err(ManifestInvalid);
    }
    var port := e.slots[target][0];
    var text := Build(Head(e, target, release, version) + [ServerLine(port)] + Tail(e));
    return Ok(text);
  }

  function Rendered(e: Entry, target: Slot, release: string, version: string): Result<string> {
    if e.slots == map[] || !e.configured then Err(ManifestInvalid)
    else if target !in e.slots then Err(InvalidRequest)
    else if e.slots[target] == [] then Err(ManifestInvalid)
    else Ok(Text(Head(e, target, release, version) + [ServerLine(e.slots[target][0])] + Tail(e)))
  }

  // ---- Reading back ----

  /** The port of one line, if it is a server entry. */
  function EntryPort(line: string): Option<int> {
    var trimmed := TrimSpace(line);
    if !("server " <= trimmed) || trimmed[|trimmed| - 1] != ';' then None
    else
      assert trimmed[6] == ' ';
      var address := trimmed[7..|trimmed| - 1];
      var colon := LastIndex(address, ':');
      if colon < 0 then None else Atoi(TrimSpace(address[colon + 1..]))
  }

  /** The first line of a text and what follows it. */
  function FirstLine(text: string): (r: (string, Option<string>))
    ensures r.1.Some? ==> |r.1.value| < |text|
  {
    if text == "" then ("", None)
    else if text[0] == '\n' then ("", Some(text[1..]))
    else
      var rest := FirstLine(text[1..]);
      ([text[0]] + rest.0, rest.1)
  }

  function UpstreamPort(text: string): Option<int>
    decreases |text|
  {
    var (line, rest) := FirstLine(text);
    var port := EntryPort(line);
    if port.Some? then port
    else if rest.None? then None
    else UpstreamPort(rest.value)
  }

  predicate FirstPortIs(e: Entry, s: Slot, port: int) {
    s in e.slots && e.slots[s] != [] && e.slots[s][0] == port
  }

  /** Blue is tried before green. */
  function SlotOfPort(e: Entry, port: int): Option<Slot> {
    if FirstPortIs(e, Blue, port) then Some(Blue)
    else if FirstPortIs(e, Green, port) then Some(Green)
    else None
  }

  function ParseManaged(text: string, e: Entry): Option<Slot> {
    var port := UpstreamPort(text);
    if port.None? then None else SlotOfPort(e, port.value)
  }

  // ---- Printing, then reading ----

  /** What validation makes sure of: both sides have ports, in range, and no port is declared twice. */
  ghost predicate ValidSlots(e: Entry) {
    && e.configured
    && e.slots.Keys == {Blue, Green}
    && (forall s | s in e.slots :: e.slots[s] != [] && forall i | 0 <= i < |e.slots[s]| :: 1 <= e.slots[s][i] <= 65535)
    && (forall i, j | 0 <= i < |e.slots[Blue]| && 0 <= j < |e.slots[Green]| :: e.slots[Blue][i] != e.slots[Green][j])
  }

  predicate OneLine(s: string) {
    '\n' !in s
  }

  lemma {:induction false} DecimalIsDigits(n: nat)
    ensures Decimal(n) != "" && Digits(Decimal(n)) == Some(n)
    ensures forall i | 0 <= i < |Decimal(n)| :: IsDigit(Decimal(n)[i])
  {
    if n >= 10 {
      DecimalIsDigits(n / 10);
      var s := Decimal(n);
      assert s[..|s| - 1] == Decimal(n / 10);
      assert |s| > 1;
    }
  }

  lemma AtoiUnsigned(s: string, n: nat)
    requires s != "" && IsDigit(s[0]) && Digits(s) == Some(n) && n <= MAX_INT64
    ensures Atoi(s) == Some(n)
  {
  }

  lemma AtoiNegative(s: string, n: int)
    requires 0 <= n && Digits(s) == Some(n) && n <= MAX_INT64 + 1
    ensures Atoi("-" + s) == Some(-n)
  {
    assert ("-" + s)[1..] == s;
  }

  /** Printing an integer and reading it gives the integer. */
  lemma AtoiOfItoa(n: int)
    requires -MAX_INT64 - 1 <= n <= MAX_INT64
    ensures Atoi(Itoa(n)) == Some(n)
  {
    if n < 0 {
      DecimalIsDigits(-n);
      AtoiNegative(Decimal(-n), -n);
    } else {
      DecimalIsDigits(n);
      AtoiUnsigned(Decimal(n), n);
    }
  }

  lemma {:induction false} FirstLineOf(line: string, rest: string)
    requires OneLine(line)
    ensures FirstLine(line + "\n" + rest) == (line, Some(rest))
  {
    var text := line + "\n" + rest;
    if line == "" {
      assert text[1..] == rest;
    } else {
      assert line[0] in line && text[0] == line[0];
      assert text[1..] == line[1..] + "\n" + rest;
      FirstLineOf(line[1..], rest);
      assert [line[0]] + line[1..] == line;
    }
  }

  /** Lines that are no server entries are passed over. */
  lemma {:induction false} PortAfter(lines: seq<string>, line: string, rest: seq<string>)
    requires forall i | 0 <= i < |lines| :: Skipped(lines[i])
    requires OneLine(line) && EntryPort(line).Some?
    ensures UpstreamPort(Text(lines + [line] + rest)) == EntryPort(line)
    decreases |lines|
  {
    var all := lines + [line] + rest;
    FirstLineOf(all[0], Text(all[1..]));
    if lines != [] {
      assert all[1..] == lines[1..] + [line] + rest;
      PortAfter(lines[1..], line, rest);
    }
  }

  /** A line whose first character is neither a space nor an s is no server entry. */
  lemma NoEntry(line: string)
    requires line == "" || (!IsSpace(line[0]) && line[0] != 's')
    ensures EntryPort(line).None?
  {
    TrimRightIsPrefix(TrimLeft(line));
  }

  lemma {:induction false} TrimRightIsPrefix(s: string)
    ensures TrimRight(s) <= s
  {
    if s != "" && IsSpace(s[|s| - 1]) {
      TrimRightIsPrefix(s[..|s| - 1]);
    }
  }

  /** Reading an entry whose address part is known. */
  lemma EntryPortOf(line: string, address: string, colon: nat)
    requires TrimSpace(line) == "server " + address + ";"
    requires LastIndex(address, ':') == colon
    ensures EntryPort(line) == Atoi(TrimSpace(address[colon + 1..]))
  {
    var entry := "server " + address + ";";
    assert entry[7..|entry| - 1] == address;
  }

  lemma ServerLinePort(port: int)
    requires -MAX_INT64 - 1 <= port <= MAX_INT64
    ensures EntryPort(ServerLine(port)) == Some(port)
  {
    var digits := Itoa(port);
    var address := "127.0.0.1" + ":" + digits;
    ItoaHasNoSpace(port);
    ServerLineTrims(digits);
    LastColon("127.0.0.1", digits);
    EntryPortOf(ServerLine(port), address, 9);
    assert address[10..] == digits;
    TrimNothing(digits);
    AtoiOfItoa(port);
  }

  lemma ServerLineTrims(digits: string)
    ensures TrimSpace("    server 127.0.0.1:" + digits + ";") == "server " + ("127.0.0.1" + ":" + digits) + ";"
  {
    var entry := "server " + ("127.0.0.1" + ":" + digits) + ";";
    assert "    server 127.0.0.1:" + digits + ";" == "    " + entry;
    TrimFourSpaces(entry);
  }

  lemma ServerLineIsOneLine(port: int)
    ensures OneLine(ServerLine(port))
  {
    ItoaHasNoSpace(port);
    OneLineJoins("    server 127.0.0.1:", Itoa(port));
    OneLineJoins("    server 127.0.0.1:" + Itoa(port), ";");
  }

  lemma OneLineJoins(a: string, b: string)
    requires OneLine(a) && OneLine(b)
    ensures OneLine(a + b)
  {
  }

  lemma CommentIsNoEntry(text: string)
    requires OneLine(text)
    ensures OneLine(CommentLine(text)) && EntryPort(CommentLine(text)).None?
  {
    NoEntry(CommentLine(text));
  }

  lemma UpstreamIsNoEntry(name: string)
    requires OneLine(name)
    ensures OneLine(UpstreamLine(name)) && EntryPort(UpstreamLine(name)).None?
  {
    assert UpstreamLine(name)[0] == 'u';
    NoEntry(UpstreamLine(name));
  }

  lemma TrimNothing(s: string)
    requires s != "" && !IsSpace(s[0]) && !IsSpace(s[|s| - 1])
    ensures TrimSpace(s) == s
  {
  }

  lemma TrimFourSpaces(s: string)
    requires s != "" && !IsSpace(s[0]) && !IsSpace(s[|s| - 1])
    ensures TrimSpace("    " + s) == s
  {
    TrimOneSpace("   " + s);
    TrimOneSpace("  " + s);
    TrimOneSpace(" " + s);
    TrimOneSpace(s);
    assert "    " + s == " " + ("   " + s);
    assert "   " + s == " " + ("  " + s);
    assert "  " + s == " " + (" " + s);
    TrimNothing(s);
  }

  lemma TrimOneSpace(s: string)
    ensures TrimLeft(" " + s) == TrimLeft(s)
  {
    assert (" " + s)[1..] == s;
  }

  lemma {:induction false} LastColon(host: string, digits: string)
    requires ':' !in digits
    ensures LastIndex(host + ":" + digits, ':') == |host|
  {
    var s := host + ":" + digits;
    if digits != "" {
      var last := |digits| - 1;
      assert digits[last] in digits;
      assert s[..|s| - 1] == host + ":" + digits[..last];
      LastColon(host, digits[..last]);
    }
  }

  lemma ItoaHasNoSpace(n: int)
    ensures Itoa(n) != ""
    ensures forall i | 0 <= i < |Itoa(n)| :: IsDigit(Itoa(n)[i]) || Itoa(n)[i] == '-'
  {
    DecimalIsDigits(if n < 0 then -n else n);
  }

  lemma PointingIsOneLine(target: Slot, release: string, version: string)
    requires OneLine(release) && OneLine(version)
    ensures OneLine(Pointing(target, release, version))
  {
  }

  ghost predicate Skipped(line: string) {
    OneLine(line) && EntryPort(line).None?
  }

  lemma AllSkipped(a: string, b: string, c: string, d: string, e: string)
    requires Skipped(a) && Skipped(b) && Skipped(c) && Skipped(d) && Skipped(e)
    ensures forall i | 0 <= i < 5 :: Skipped([a, b, c, d, e][i])
  {
  }

  lemma HeadIsSkipped(e: Entry, target: Slot, release: string, version: string)
    requires OneLine(e.upstream) && OneLine(release) && OneLine(version)
    ensures forall i | 0 <= i < |Head(e, target, release, version)| :: Skipped(Head(e, target, release, version)[i])
  {
    PointingIsOneLine(target, release, version);
    CommentIsNoEntry("generated");
    CommentIsNoEntry(Pointing(target, release, version));
    CommentIsNoEntry("reload");
    NoEntry("");
    UpstreamIsNoEntry(e.upstream);
    AllSkipped(CommentLine("generated"), CommentLine(Pointing(target, release, version)), CommentLine("reload"), "",
               UpstreamLine(e.upstream));
  }

  /**
   * Main theorem: reading a rendered file under any manifest gives the slot whose first port is the one
   * rendered, whatever the upstream is called; the release and version in the comment must not break lines.
   */
  lemma ParseOfRender(e: Entry, target: Slot, release: string, version: string, reader: Entry)
    requires ValidSlots(e) && target in e.slots
    requires OneLine(e.upstream) && OneLine(release) && OneLine(version)
    ensures Rendered(e, target, release, version).Ok?
    ensures ParseManaged(Rendered(e, target, release, version).value, reader) == SlotOfPort(reader, e.slots[target][0])
  {
    HeadIsSkipped(e, target, release, version);
    ServerLinePort(e.slots[target][0]);
    ServerLineIsOneLine(e.slots[target][0]);
    PortAfter(Head(e, target, release, version), ServerLine(e.slots[target][0]), Tail(e));
  }

  /** A file read under the manifest it was rendered from gives the slot it was rendered for. */
  lemma ParseInvertsRender(e: Entry, target: Slot, release: string, version: string)
    requires ValidSlots(e) && target in e.slots
    requires OneLine(e.upstream) && OneLine(release) && OneLine(version)
    ensures Rendered(e, target, release, version).Ok?
    ensures ParseManaged(Rendered(e, target, release, version).value, e) == Some(target)
  {
    ParseOfRender(e, target, release, version, e);
  }

  /**
   * Read under another valid manifest, the file gives the slot it was rendered for exactly when that
   * manifest starts the slot on the same port.
   */
  lemma ParseUnderAnotherManifest(e: Entry, target: Slot, reader: Entry)
    requires ValidSlots(e) && ValidSlots(reader) && target in e.slots && OneLine(e.upstream)
    ensures Rendered(e, target, "", "").Ok?
    ensures ParseManaged(Rendered(e, target, "", "").value, reader) == Some(target) <==>
            reader.slots[target][0] == e.slots[target][0]
  {
    ParseOfRender(e, target, "", "", reader);
    assert reader.slots[Blue][0] != reader.slots[Green][0];
  }
}
