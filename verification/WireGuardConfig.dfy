/**
 The app's wg-quick parser and its private-key injection. Text is a sequence of
 Unicode scalars.
 */
module WireGuardConfig {
  import opened Options
  import opened Text

  datatype Failure = MissingInterfaceAddress | InvalidAddress(text: string)
  datatype Result<T> = Ok(value: T) | Err(error: Failure)

  datatype Cidr = Cidr(address: string, prefixLength: int)

  datatype Peer = Peer(publicKey: Option<string>, presharedKey: Option<string>, allowedIPs: seq<Cidr>,
                       endpoint: Option<string>, keepalive: Option<int>)

  datatype Fields = Fields(addresses: seq<Cidr>, dns: seq<string>, allowedIPs: seq<Cidr>, mtu: Option<int>,
                           endpointHost: Option<string>, privateKey: Option<string>, publicKey: Option<string>,
                           presharedKey: Option<string>, endpoint: Option<string>, keepalive: Option<int>)

  const BLANK: Fields := Fields([], [], [], None, None, None, None, None, None, None)

  datatype Config = Config(fields: Fields, peers: seq<Peer>)

  // ----- characters -----

  predicate IsNewline(c: char) {
    '\n' <= c <= '\r' || c == '\U{85}' || c == '\U{2028}' || c == '\U{2029}'
  }

  predicate IsBlank(c: char) {
    || c == '\t' || c == ' ' || c == '\U{A0}' || c == '\U{1680}' || '\U{2000}' <= c <= '\U{200a}'
    || c == '\U{202f}' || c == '\U{205f}' || c == '\U{3000}'
  }

  predicate IsBlankOrNewline(c: char) {
    IsBlank(c) || IsNewline(c)
  }

  predicate IsLineFeed(c: char) {
    c == '\n'
  }

  /** Lower case, as far as comparison with ASCII words can tell; U+212A is the Kelvin sign. */
  function LowerChar(c: char): char {
    if 'A' <= c <= 'Z' then (c as int + 32) as char else if c == '\U{212A}' then 'k' else c
  }

  function Lower(s: string): string {
    seq(|s|, i requires 0 <= i < |s| => LowerChar(s[i]))
  }

  // ----- pieces of a line -----

  function DropLeading(s: string, c: char): (r: string)
    ensures r == "" || r[0] != c
    ensures |r| <= |s| && r == s[|s| - |r|..]
  {
    if s != "" && s[0] == c then DropLeading(s[1..], c) else s
  }

  function Find(s: string, c: char): (i: nat)
    ensures i <= |s| && (forall j :: 0 <= j < i ==> s[j] != c) && (i < |s| ==> s[i] == c)
  {
    if s == "" || s[0] == c then 0 else 1 + Find(s[1..], c)
  }

  /** One split at most, empty pieces omitted: the two pieces, when there are two. */
  function SplitOnce(s: string, c: char): Option<(string, string)> {
    var rest := DropLeading(s, c);
    var i := Find(rest, c);
    if i + 1 >= |rest| then None else Some((rest[..i], rest[i + 1..]))
  }

  function FirstPiece(s: string, c: char): Option<string> {
    var rest := DropLeading(s, c);
    if rest == "" then None else Some(rest[..Find(rest, c)])
  }

  const MAX_INT: int := 0x7fff_ffff_ffff_ffff

  function ParseInt(s: string): Option<int> {
    if s != "" && s[0] == '-' then
      if Digits(s[1..]) && Number(s[1..]) <= MAX_INT + 1 then var n: int := Number(s[1..]); Some(-n) else None
    else
      var d := if s != "" && s[0] == '+' then s[1..] else s;
      if Digits(d) && Number(d) <= MAX_INT then Some(Number(d)) else None
  }

  function ParseCidr(s: string): Result<Cidr> {
    match SplitOnce(s, '/')
    case None => Err(InvalidAddress(s))
    case Some((address, length)) =>
      if ParseInt(length).Some? then Ok(Cidr(address, ParseInt(length).value)) else Err(InvalidAddress(s))
  }

  /** The comma-separated items of a value, trimmed, without empty ones. */
  function Items(parts: seq<string>): seq<string> {
    if parts == [] then []
    else
      var item := Trim(parts[0], IsBlank);
      (if item == "" then [] else [item]) + Items(parts[1..])
  }

  function ParseStrings(value: string): seq<string> {
    Items(Split(value, IsComma))
  }

  function ParseCidrs(items: seq<string>): Result<seq<Cidr>> {
    if items == [] then Ok([])
    else
      match ParseCidr(items[0])
      case Err(e) => Err(e)
      case Ok(c) =>
        match ParseCidrs(items[1..])
        case Err(e) => Err(e)
        case Ok(rest) => Ok([c] + rest)
  }

  function ParseAddresses(value: string): Result<seq<Cidr>> {
    ParseCidrs(ParseStrings(value))
  }

  predicate IsBracket(c: char) {
    c == '[' || c == ']'
  }

  function EndpointHost(value: string): string {
    var t := Trim(value, IsBlank);
    if t != "" && t[0] == '[' then
      match FirstPiece(t, ']')
      case None => t
      case Some(p) => Trim(p, IsBracket)
    else
      match FirstPiece(t, ':')
      case None => t
      case Some(p) => p
  }

  predicate IsSection(line: string) {
    line != "" && line[0] == '[' && line[|line| - 1] == ']'
  }

  function Entry(line: string): Option<(string, string)> {
    match SplitOnce(line, '=')
    case None => None
    case Some((key, value)) => Some((Lower(Trim(key, IsBlank)), Trim(value, IsBlank)))
  }

  // ----- the fold over lines -----

  function Apply(f: Fields, section: string, key: string, value: string): Result<Fields> {
    if section == "[interface]" then
      if key == "address" then
        match ParseAddresses(value)
        case Err(e) => Err(e)
        case Ok(more) => Ok(f.(addresses := f.addresses + more))
      else if key == "dns" then Ok(f.(dns := f.dns + ParseStrings(value)))
      else if key == "mtu" then Ok(f.(mtu := ParseInt(value)))
      else if key == "privatekey" then Ok(f.(privateKey := Some(value)))
      else Ok(f)
    else if section == "[peer]" then
      if key == "publickey" then Ok(f.(publicKey := Some(value)))
      else if key == "presharedkey" then Ok(f.(presharedKey := Some(value)))
      else if key == "allowedips" then
        match ParseAddresses(value)
        case Err(e) => Err(e)
        case Ok(more) => Ok(f.(allowedIPs := f.allowedIPs + more))
      else if key == "endpoint" then
        Ok(f.(endpoint := Some(Trim(value, IsBlank)), endpointHost := Some(EndpointHost(value))))
      else if key == "persistentkeepalive" then Ok(f.(keepalive := ParseInt(value)))
      else Ok(f)
    else Ok(f)
  }

  function PeerFrom(f: Fields): Peer {
    Peer(f.publicKey, f.presharedKey, f.allowedIPs, f.endpoint, f.keepalive)
  }

  /** all: what the whole file has set; current: what this peer section has set. */
  datatype Machine = Machine(section: string, all: Fields, current: Fields, peers: seq<Peer>)

  const START: Machine := Machine("", BLANK, BLANK, [])

  /** The peers so far, counting the one whose section is open. */
  function Closed(m: Machine): seq<Peer> {
    if m.section == "[peer]" then m.peers + [PeerFrom(m.current)] else m.peers
  }

  /** One `key = value` entry, which counts for the whole file and for an open peer section. */
  function Assign(m: Machine, key: string, value: string): Result<Machine> {
    match Apply(m.all, m.section, key, value)
    case Err(e) => Err(e)
    case Ok(all) =>
      if m.section != "[peer]" then Ok(m.(all := all))
      else
        match Apply(m.current, m.section, key, value)
        case Err(e) => Err(e)
        case Ok(current) => Ok(m.(all := all, current := current))
  }

  function Step(m: Machine, raw: string): Result<Machine> {
    var line := Trim(raw, IsBlankOrNewline);
    if line == "" || line[0] == '#' then Ok(m)
    else if IsSection(line) then Ok(Machine(Lower(line), m.all, BLANK, Closed(m)))
    else
      match Entry(line)
      case None => Ok(m)
      case Some((key, value)) => Assign(m, key, value)
  }

  function StepOn(r: Result<Machine>, raw: string): Result<Machine> {
    if r.Err? then r else Step(r.value, raw)
  }

  function Fold(m: Machine, lines: seq<string>): Result<Machine>
    decreases |lines|
  {
    if lines == [] then Ok(m)
    else StepOn(Fold(m, lines[..|lines| - 1]), lines[|lines| - 1])
  }

  function FoldOn(r: Result<Machine>, lines: seq<string>): Result<Machine> {
    if r.Err? then r else Fold(r.value, lines)
  }

  function Finish(r: Result<Machine>): Result<Config> {
    match r
    case Err(e) => Err(e)
    case Ok(m) => if m.all.addresses == [] then Err(MissingInterfaceAddress) else Ok(Config(m.all, Closed(m)))
  }

  function Parse(text: string): Result<Config> {
    Finish(Fold(START, Split(text, IsNewline)))
  }

  method ReadConfig(text: string) returns (r: Result<Config>)
    ensures r == Parse(text)
  {
    hide Step;
    var lines := Split(text, IsNewline);
    var m := START;
    for i := 0 to |lines|
      invariant Fold(START, lines[..i]) == Ok(m)
    {
      FoldPrefix(START, lines, i);
      var next := Step(m, lines[i]);
      if next.Err? {
        FoldFails(START, lines, i + 1);
        return Err(next.error);
      }
      m := next.value;
    }
    assert lines[..|lines|] == lines;
    if m.all.addresses == [] {
      return Err(MissingInterfaceAddress);
    }
    var peers := m.peers;
    if m.section == "[peer]" {
      peers := peers + [PeerFrom(m.current)];
    }
    r := Ok(Config(m.all, peers));
  }

  lemma FoldPrefix(m: Machine, lines: seq<string>, i: nat)
    requires i < |lines|
    ensures Fold(m, lines[..i + 1]) == StepOn(Fold(m, lines[..i]), lines[i])
  {
    assert lines[..i + 1][..i] == lines[..i];
  }

  /** The first failure is the result. */
  lemma {:induction false} FoldFails(m: Machine, lines: seq<string>, i: nat)
    requires i <= |lines| && Fold(m, lines[..i]).Err?
    ensures Fold(m, lines) == Fold(m, lines[..i])
    decreases |lines|
  {
    if i == |lines| {
      assert lines[..i] == lines;
    } else {
      var n := |lines| - 1;
      assert lines[..n][..i] == lines[..i];
      FoldFails(m, lines[..n], i);
    }
  }

  lemma {:induction false} FoldConcat(m: Machine, a: seq<string>, b: seq<string>)
    ensures Fold(m, a + b) == FoldOn(Fold(m, a), b)
    decreases |b|
  {
    hide Step;
    if b == [] {
      assert a + b == a;
    } else {
      var n := |b| - 1;
      assert (a + b)[..|a + b| - 1] == a + b[..n];
      FoldConcat(m, a, b[..n]);
    }
  }

  // ----- the private key is independent of everything else -----

  function WithKey(m: Machine, key: Option<string>): Machine {
    m.(all := m.all.(privateKey := key))
  }

  function Keyed(r: Result<Machine>, key: Option<string>): Result<Machine> {
    if r.Err? then r else Ok(WithKey(r.value, key))
  }

  /** The private key a line sets when read in a section. */
  function KeySetBy(section: string, raw: string): Option<string> {
    var line := Trim(raw, IsBlankOrNewline);
    if line == "" || line[0] == '#' || IsSection(line) || section != "[interface]" || Entry(line).None?
      || Entry(line).value.0 != "privatekey"
    then None else Some(Entry(line).value.1)
  }

  function Later(earlier: Option<string>, later: Option<string>): Option<string> {
    if later.Some? then later else earlier
  }

  function SectionAfter(section: string, raw: string): string {
    var line := Trim(raw, IsBlankOrNewline);
    if IsSection(line) then Lower(line) else section
  }

  lemma StepSection(m: Machine, raw: string)
    requires Step(m, raw).Ok?
    ensures Step(m, raw).value.section == SectionAfter(m.section, raw)
  {
    hide Apply, Trim, Entry;
  }

  lemma ApplyKeepsKey(f: Fields, section: string, key: string, value: string, k: Option<string>)
    ensures Apply(f.(privateKey := k), section, key, value) ==
      match Apply(f, section, key, value)
      case Err(e) => Err(e)
      case Ok(g) => Ok(g.(privateKey := if section == "[interface]" && key == "privatekey" then Some(value) else k))
  {
    hide ParseAddresses, ParseStrings, ParseInt, EndpointHost, Trim;
  }

  lemma StepWithKey(m: Machine, k: Option<string>, raw: string)
    ensures Step(WithKey(m, k), raw) == Keyed(Step(m, raw), Later(k, KeySetBy(m.section, raw)))
  {
    hide Assign, Trim, Lower, Entry;
    var line := Trim(raw, IsBlankOrNewline);
    if line != "" && line[0] != '#' && !IsSection(line) && Entry(line).Some? {
      AssignWithKey(m, k, Entry(line).value.0, Entry(line).value.1);
    }
  }

  lemma AssignWithKey(m: Machine, k: Option<string>, key: string, value: string)
    ensures Assign(WithKey(m, k), key, value) ==
      Keyed(Assign(m, key, value), if m.section == "[interface]" && key == "privatekey" then Some(value) else k)
  {
    hide Apply;
    ApplyKeepsKey(m.all, m.section, key, value, k);
  }

  function SectionAfterAll(section: string, lines: seq<string>): string
    decreases |lines|
  {
    if lines == [] then section else SectionAfter(SectionAfterAll(section, lines[..|lines| - 1]), lines[|lines| - 1])
  }

  /** The last private key the lines set, read from the given section on. */
  function KeySetByAll(section: string, lines: seq<string>): Option<string>
    decreases |lines|
  {
    if lines == [] then None
    else
      var n := |lines| - 1;
      Later(KeySetByAll(section, lines[..n]), KeySetBy(SectionAfterAll(section, lines[..n]), lines[n]))
  }

  lemma {:induction false} FoldWithKey(m: Machine, k: Option<string>, lines: seq<string>)
    ensures Fold(WithKey(m, k), lines) == Keyed(Fold(m, lines), Later(k, KeySetByAll(m.section, lines)))
    ensures Fold(m, lines).Ok? ==> Fold(m, lines).value.section == SectionAfterAll(m.section, lines)
    decreases |lines|
  {
    hide Step, KeySetBy, SectionAfter;
    if lines != [] {
      var n := |lines| - 1;
      FoldWithKey(m, k, lines[..n]);
      if Fold(m, lines[..n]).Ok? {
        var before := Fold(m, lines[..n]).value;
        StepWithKey(before, Later(k, KeySetByAll(m.section, lines[..n])), lines[n]);
        if Step(before, lines[n]).Ok? {
          StepSection(before, lines[n]);
        }
      }
    }
  }
}
