/**
 The server's printer and the app's parser together: what the app reads from a
 printed config, and from one with the private key put in.
 */
module ConfigRoundTrip {
  import opened Options
  import opened Text
  import D = DirectConfig
  import opened WireGuardConfig
  import opened KeyInjection
  import opened InjectionEffect

  // ----- what the printer's checks say about the text it prints -----

  predicate InAddress(c: char) {
    IsDigit(c) || c == '.'
  }

  /** Every character of every part is ok. */
  predicate PartsOk(parts: seq<string>, ok: char -> bool) {
    forall i, j :: 0 <= i < |parts| && 0 <= j < |parts[i]| ==> ok(parts[i][j])
  }

  lemma FirstLonger(c: char, rest: seq<string>, ok: char -> bool)
    requires rest != [] && PartsOk([[c] + rest[0]] + rest[1..], ok)
    ensures ok(c) && PartsOk(rest, ok)
  {
    var parts := [[c] + rest[0]] + rest[1..];
    assert ok(parts[0][0]);
    forall i, j | 0 <= i < |rest| && 0 <= j < |rest[i]| ensures ok(rest[i][j]) {
      assert ok(parts[i][if i == 0 then j + 1 else j]);
    }
  }

  lemma RestOfParts(s: string, sep: char -> bool, ok: char -> bool)
    requires s != "" && PartsOk(Split(s, sep), ok)
    ensures sep(s[0]) || ok(s[0])
    ensures PartsOk(Split(s[1..], sep), ok)
  {
    var parts, rest := Split(s, sep), Split(s[1..], sep);
    if sep(s[0]) {
      assert parts == [""] + rest;
      hide Split;
      assert forall i :: 0 <= i < |rest| ==> rest[i] == parts[i + 1];
    } else {
      hide PartsOk;
      FirstLonger(s[0], rest, ok);
    }
  }

  lemma {:induction false} CharsOfParts(s: string, sep: char -> bool, ok: char -> bool)
    requires PartsOk(Split(s, sep), ok)
    ensures forall i :: 0 <= i < |s| ==> sep(s[i]) || ok(s[i])
    decreases |s|
  {
    hide Split, PartsOk;
    if s != "" {
      RestOfParts(s, sep, ok);
      CharsOfParts(s[1..], sep, ok);
      assert s == [s[0]] + s[1..];
    }
  }

  lemma V4Chars(s: string)
    requires D.IsV4(s)
    ensures s != "" && forall i :: 0 <= i < |s| ==> InAddress(s[i])
  {
    var parts := Split(s, D.IsDot);
    forall i, j | 0 <= i < |parts| && 0 <= j < |parts[i]| ensures IsDigit(parts[i][j]) {
      assert D.Octet(parts[i]);
    }
    CharsOfParts(s, D.IsDot, IsDigit);
    assert Split("", D.IsDot) == [""];
  }

  lemma {:induction false} NothingToDrop(s: string)
    requires Lacks(s, D.IsReturn)
    ensures D.WithoutReturns(s) == s
  {
    if s != "" {
      NothingToDrop(s[1..]);
      assert [s[0]] + s[1..] == s;
    }
  }

  lemma KeyIsPlain(s: string)
    requires D.KeyDecodes(s) && Lacks(s, IsNewline)
    ensures Plain(s) && |s| == 44
  {
    NothingToDrop(s);
    assert D.InAlphabet(s[0]) && s[43] == '=';
  }

  lemma PortEndsInDigit(s: string)
    requires D.PortOk(s)
    ensures s != "" && IsDigit(s[|s| - 1])
  {
    hide Number;
    var d := if s != "" && s[0] == '+' then s[1..] else s;
    assert d[|d| - 1] == s[|s| - 1];
  }

  lemma HostStartsInAddress(host: string, v6: string -> bool)
    requires D.HostOk(host, v6) && ':' !in host
    ensures host != "" && InAddress(host[0])
  {
    hide D.IsV4;
    V4Chars(host);
  }

  lemma EndpointIsSnug(s: string, v6: string -> bool)
    requires D.ValidEndpoint(s, v6)
    ensures s != "" && Snug(s, IsBlankOrNewline)
  {
    hide D.HostOk, D.PortOk;
    var (host, port) := D.SplitHostPort(s).value;
    PortEndsInDigit(port);
    assert port[|port| - 1] == s[|s| - 1];
    if s[0] != '[' {
      HostStartsInAddress(host, v6);
      assert s[0] == host[0];
    }
  }

  // ----- single lines -----

  lemma RouteIsPlain(address: string)
    requires address != "" && forall i :: 0 <= i < |address| ==> InAddress(address[i])
    ensures Plain(address + "/32")
    ensures Lacks(address + "/32", IsComma) && '/' !in address
  {
    var value := address + "/32";
    forall i | 0 <= i < |value| ensures InAddress(value[i]) || value[i] == '/' {
      if i < |address| { assert value[i] == address[i]; }
    }
    assert value[0] == address[0] && value[|value| - 1] == '2';
  }

  lemma OneItem(value: string)
    requires value != "" && Snug(value, IsBlank) && Lacks(value, IsComma)
    ensures ParseStrings(value) == [value]
  {
    SplitPlain(value, IsComma);
    TrimSnug(value, IsBlank);
    assert [value][1..] == [] && Items([]) == [];
    hide Split, Trim;
  }

  lemma RouteCidr(address: string)
    requires address != "" && '/' !in address
    ensures ParseCidr(address + "/32") == Ok(Cidr(address, 32))
  {
    hide ParseInt, Find;
    var value := address + "/32";
    assert value[0] == address[0] && address[0] in address;
    assert DropLeading(value, '/') == value;
    forall j | 0 <= j < |address| ensures value[j] != '/' {
      assert value[j] == address[j] && address[j] in address;
    }
    FindAt(value, '/', |address|);
    assert value[..|address|] == address && value[|address| + 1..] == "32";
    SmallNumbers();
  }

  lemma RouteReads(address: string)
    requires address != "" && forall i :: 0 <= i < |address| ==> InAddress(address[i])
    ensures ParseAddresses(address + "/32") == Ok([Cidr(address, 32)])
  {
    hide ParseCidr, ParseStrings;
    RouteIsPlain(address);
    OneItem(address + "/32");
    RouteCidr(address);
    assert [address + "/32"][1..] == [] && ParseCidrs([]) == Ok([]);
    assert [Cidr(address, 32)] + [] == [Cidr(address, 32)];
  }

  lemma SmallNumbers()
    ensures ParseInt("32") == Some(32) && ParseInt("25") == Some(25) && ParseInt("1280") == Some(1280)
  {
    assert "32"[..1] == "3" && "3"[..0] == "" && "25"[..1] == "2" && "2"[..0] == "";
    assert "1280"[..3] == "128" && "128"[..2] == "12" && "12"[..1] == "1" && "1"[..0] == "";
    assert Number("3") == 3 && Number("2") == 2 && Number("1") == 1;
    assert Number("12") == 12 && Number("128") == 128;
  }

  /** Read in any section, the line sets no private key. */
  ghost predicate SetsNoKey(raw: string) {
    forall section: string :: KeySetBy(section, raw) == None
  }

  lemma PlainIs(k: string)
    requires Plain(k)
    ensures k != "" && Snug(k, IsBlankOrNewline) && Lacks(k, IsNewline)
  {
  }

  lemma LineSetsNoKey(name: string, value: string)
    requires Name(name) && value != "" && Snug(value, IsBlankOrNewline) && Lower(name) != "privatekey"
    ensures SetsNoKey(name + " = " + value)
  {
    var line := name + " = " + value;
    assert line[0] == name[0] && line[|line| - 1] == value[|value| - 1];
    TrimSnug(line, IsBlankOrNewline);
    EntryOf(name, value);
    hide Trim, Entry;
  }

  /** A line with no trouble in it: no line break, and no private key. */
  ghost predicate Harmless(raw: string) {
    Lacks(raw, IsNewline) && SetsNoKey(raw)
  }

  lemma LineIsHarmless(name: string, value: string)
    requires Name(name) && Plain(value) && Lower(name) != "privatekey"
    ensures Harmless(name + " = " + value)
  {
    LineSetsNoKey(name, value);
    var line := name + " = " + value;
    forall i | 0 <= i < |line| ensures !IsNewline(line[i]) {
      if i < |name| { assert line[i] == name[i]; }
      else if i >= |name| + 3 { assert line[i] == value[i - |name| - 3]; }
    }
    hide SetsNoKey;
  }

  // ----- the words of a printed config -----

  lemma AddressWord()
    ensures Name("Address") && Lower("Address") == "address" != "privatekey"
  {
  }

  lemma MtuWord()
    ensures Name("MTU") && Lower("MTU") == "mtu" != "privatekey"
  {
  }

  lemma PublicKeyWord()
    ensures Name("PublicKey") && Lower("PublicKey") == "publickey" != "privatekey"
  {
  }

  lemma AllowedIPsWord()
    ensures Name("AllowedIPs") && Lower("AllowedIPs") == "allowedips" != "privatekey"
  {
  }

  lemma EndpointWord()
    ensures Name("Endpoint") && Lower("Endpoint") == "endpoint" != "privatekey"
  {
  }

  lemma PersistentKeepaliveWord()
    ensures Name("PersistentKeepalive") && Lower("PersistentKeepalive") == "persistentkeepalive" != "privatekey"
  {
  }

  lemma AddressTextIs(ip: string)
    ensures D.AddressText(ip) == "Address" + " = " + (ip + "/32")
  {
    assert "Address" + " = " == "Address = ";
  }

  lemma RouteTextIs(p: D.Peer)
    ensures D.RouteText(p) == "AllowedIPs" + " = " + (p.overlay + "/32")
  {
    assert "AllowedIPs" + " = " == "AllowedIPs = ";
  }

  lemma KeepaliveTextIs()
    ensures "PersistentKeepalive" + " = " + "25" == "PersistentKeepalive = 25" && Plain("25")
  {
  }

  lemma MtuTextIs()
    ensures "MTU" + " = " + "1280" == "MTU = 1280" && Plain("1280")
  {
  }

  // ----- the header -----

  function Headed(ip: string): Machine {
    OPENED.(all := BLANK.(addresses := [Cidr(ip, 32)], mtu := Some(1280)))
  }

  lemma HeaderIsHarmless(line: string)
    requires IsSection(line) && Lacks(line, IsNewline)
    ensures Harmless(line)
  {
    TrimSnug(line, IsBlankOrNewline);
    hide Trim, Entry;
  }

  lemma PeerWord()
    ensures IsSection("[Peer]") && Lacks("[Peer]", IsNewline) && Lower("[Peer]") == "[peer]"
  {
  }

  lemma SectionLines(m: Machine)
    ensures Step(m, "[Interface]") == Ok(Machine("[interface]", m.all, BLANK, Closed(m)))
    ensures Step(m, "[Peer]") == Ok(Machine("[peer]", m.all, BLANK, Closed(m)))
    ensures Harmless("[Interface]") && Harmless("[Peer]")
  {
    hide Step, Harmless, Lower, IsSection, Lacks;
    InterfaceWord();
    PeerWord();
    OpensSection(m, "[Interface]");
    OpensSection(m, "[Peer]");
    HeaderIsHarmless("[Interface]");
    HeaderIsHarmless("[Peer]");
  }

  lemma EmptyLine(m: Machine)
    ensures Step(m, "") == Ok(m) && Harmless("")
  {
    TrimSnug("", IsBlankOrNewline);
  }

  lemma AddressLine(m: Machine, ip: string)
    requires D.IsV4(ip) && m.section == "[interface]"
    ensures Step(m, D.AddressText(ip)) == Ok(m.(all := m.all.(addresses := m.all.addresses + [Cidr(ip, 32)])))
    ensures Harmless(D.AddressText(ip))
  {
    hide Step, Harmless, Name, Lower, Plain, Snug, Lacks, D.IsV4, D.AddressText, ParseAddresses;
    V4Chars(ip);
    RouteIsPlain(ip);
    RouteReads(ip);
    AddressTextIs(ip);
    AddressWord();
    PlainIs(ip + "/32");
    LineAssigns(m, "Address", ip + "/32");
    LineIsHarmless("Address", ip + "/32");
  }

  lemma MtuLine(m: Machine)
    requires m.section == "[interface]"
    ensures Step(m, "MTU = 1280") == Ok(m.(all := m.all.(mtu := Some(1280))))
    ensures Harmless("MTU = 1280")
  {
    hide Step, Harmless, Name, Lower, Plain, Snug, Lacks, ParseInt;
    MtuTextIs();
    MtuWord();
    SmallNumbers();
    PlainIs("1280");
    LineAssigns(m, "MTU", "1280");
    LineIsHarmless("MTU", "1280");
  }

  lemma FoldTwo(m: Machine, a: string, b: string)
    ensures Fold(m, [a, b]) == StepOn(Step(m, a), b)
  {
    hide Step;
    assert [a, b][..1] == [a] && [a][..0] == [];
    assert Fold(m, []) == Ok(m);
    assert Fold(m, [a]) == Step(m, a);
  }

  ghost predicate AllHarmless(lines: seq<string>) {
    forall i :: 0 <= i < |lines| ==> Harmless(lines[i])
  }

  lemma HeaderReads(ip: string)
    requires D.IsV4(ip)
    ensures Fold(START, D.HeaderLines(ip)) == Ok(Headed(ip)) && AllHarmless(D.HeaderLines(ip))
  {
    hide Step, Harmless, Fold, D.IsV4, D.AddressText;
    var a := D.AddressText(ip);
    SectionLines(START);
    AddressLine(OPENED, ip);
    var m := OPENED.(all := BLANK.(addresses := [Cidr(ip, 32)]));
    assert BLANK.addresses + [Cidr(ip, 32)] == [Cidr(ip, 32)];
    MtuLine(m);
    FoldOne(START, "[Interface]", [a, "MTU = 1280"]);
    assert ["[Interface]"] + [a, "MTU = 1280"] == D.HeaderLines(ip);
    FoldTwo(OPENED, a, "MTU = 1280");
  }

  // ----- one peer -----

  function Filled(f: Fields, p: D.Peer): Fields {
    var g := f.(publicKey := Some(p.publicKey), allowedIPs := f.allowedIPs + [Cidr(p.overlay, 32)]);
    if p.endpoint == "" then g
    else g.(endpoint := Some(p.endpoint), endpointHost := Some(EndpointHost(p.endpoint)), keepalive := Some(25))
  }

  function PeerRead(m: Machine, p: D.Peer): Machine {
    Machine("[peer]", Filled(m.all, p), Filled(BLANK, p), Closed(m))
  }

  lemma PeerAssigns(m: Machine, name: string, value: string)
    requires m.section == "[peer]"
    requires Apply(m.all, "[peer]", name, value).Ok? && Apply(m.current, "[peer]", name, value).Ok?
    ensures Assign(m, name, value) == Ok(m.(all := Apply(m.all, "[peer]", name, value).value,
                                            current := Apply(m.current, "[peer]", name, value).value))
  {
    hide Apply;
  }

  lemma PublicKeyLine(m: Machine, p: D.Peer)
    requires m.section == "[peer]" && Plain(p.publicKey)
    ensures Step(m, D.KeyText(p)) == Ok(m.(all := m.all.(publicKey := Some(p.publicKey)),
                                           current := m.current.(publicKey := Some(p.publicKey))))
    ensures Harmless(D.KeyText(p))
  {
    hide Step, Harmless, Name, Lower, Plain, Snug, Lacks, Assign;
    assert "PublicKey" + " = " == "PublicKey = ";
    PublicKeyWord();
    PlainIs(p.publicKey);
    LineAssigns(m, "PublicKey", p.publicKey);
    LineIsHarmless("PublicKey", p.publicKey);
    PeerAssigns(m, "publickey", p.publicKey);
  }

  lemma RouteLine(m: Machine, p: D.Peer)
    requires m.section == "[peer]" && D.IsV4(p.overlay)
    ensures var route := [Cidr(p.overlay, 32)];
      Step(m, D.RouteText(p)) == Ok(m.(all := m.all.(allowedIPs := m.all.allowedIPs + route),
                                       current := m.current.(allowedIPs := m.current.allowedIPs + route)))
    ensures Harmless(D.RouteText(p))
  {
    hide Step, Harmless, Name, Lower, Plain, Snug, Lacks, Assign, D.IsV4, D.RouteText, ParseAddresses;
    V4Chars(p.overlay);
    RouteIsPlain(p.overlay);
    RouteReads(p.overlay);
    RouteTextIs(p);
    AllowedIPsWord();
    PlainIs(p.overlay + "/32");
    LineAssigns(m, "AllowedIPs", p.overlay + "/32");
    LineIsHarmless("AllowedIPs", p.overlay + "/32");
    PeerAssigns(m, "allowedips", p.overlay + "/32");
  }

  lemma EndpointLine(m: Machine, p: D.Peer)
    requires m.section == "[peer]" && Plain(p.endpoint)
    ensures var host := Some(EndpointHost(p.endpoint));
      Step(m, D.EndpointText(p)) == Ok(m.(all := m.all.(endpoint := Some(p.endpoint), endpointHost := host),
                                          current := m.current.(endpoint := Some(p.endpoint), endpointHost := host)))
    ensures Harmless(D.EndpointText(p))
  {
    PlainIs(p.endpoint);
    TrimSnug(p.endpoint, IsBlank);
    hide Step, Harmless, Name, Lower, Plain, Snug, Lacks, Assign, EndpointHost, Trim;
    assert "Endpoint" + " = " == "Endpoint = ";
    EndpointWord();
    LineAssigns(m, "Endpoint", p.endpoint);
    LineIsHarmless("Endpoint", p.endpoint);
    PeerAssigns(m, "endpoint", p.endpoint);
  }

  lemma KeepaliveLine(m: Machine)
    requires m.section == "[peer]"
    ensures Step(m, "PersistentKeepalive = 25") ==
      Ok(m.(all := m.all.(keepalive := Some(25)), current := m.current.(keepalive := Some(25))))
    ensures Harmless("PersistentKeepalive = 25")
  {
    hide Step, Harmless, Name, Lower, Plain, Snug, Lacks, Assign, ParseInt;
    KeepaliveTextIs();
    PersistentKeepaliveWord();
    SmallNumbers();
    PlainIs("25");
    LineAssigns(m, "PersistentKeepalive", "25");
    LineIsHarmless("PersistentKeepalive", "25");
    PeerAssigns(m, "persistentkeepalive", "25");
  }

  /** Neither the key nor the endpoint holds a line break. */
  predicate Unbroken(p: D.Peer) {
    Lacks(p.publicKey, IsNewline) && Lacks(p.endpoint, IsNewline)
  }

  lemma EndpointIsPlain(p: D.Peer, v6: string -> bool)
    requires Unbroken(p) && p.endpoint != "" && D.ValidEndpoint(p.endpoint, v6)
    ensures Plain(p.endpoint)
  {
    hide D.ValidEndpoint;
    EndpointIsSnug(p.endpoint, v6);
  }

  function BaseFilled(f: Fields, p: D.Peer): Fields {
    f.(publicKey := Some(p.publicKey), allowedIPs := f.allowedIPs + [Cidr(p.overlay, 32)])
  }

  lemma BaseReads(m: Machine, p: D.Peer)
    requires Plain(p.publicKey) && D.IsV4(p.overlay)
    ensures Fold(m, ["", "[Peer]", D.KeyText(p), D.RouteText(p)])
      == Ok(Machine("[peer]", BaseFilled(m.all, p), BaseFilled(BLANK, p), Closed(m)))
    ensures AllHarmless(["", "[Peer]", D.KeyText(p), D.RouteText(p)])
  {
    hide Step, Harmless, Fold, Plain, D.IsV4, D.KeyText, D.RouteText;
    var k, r := D.KeyText(p), D.RouteText(p);
    EmptyLine(m);
    SectionLines(m);
    var started := Machine("[peer]", m.all, BLANK, Closed(m));
    PublicKeyLine(started, p);
    var keyed := started.(all := m.all.(publicKey := Some(p.publicKey)),
                          current := BLANK.(publicKey := Some(p.publicKey)));
    RouteLine(keyed, p);
    FoldTwo(m, "", "[Peer]");
    FoldTwo(started, k, r);
    FoldConcat(m, ["", "[Peer]"], [k, r]);
    assert ["", "[Peer]"] + [k, r] == ["", "[Peer]", k, r];
  }

  lemma ReachReads(m: Machine, p: D.Peer)
    requires m.section == "[peer]" && Plain(p.endpoint)
    ensures var host := Some(EndpointHost(p.endpoint));
      Fold(m, [D.EndpointText(p), "PersistentKeepalive = 25"]) ==
        Ok(m.(all := m.all.(endpoint := Some(p.endpoint), endpointHost := host, keepalive := Some(25)),
              current := m.current.(endpoint := Some(p.endpoint), endpointHost := host, keepalive := Some(25))))
    ensures AllHarmless([D.EndpointText(p), "PersistentKeepalive = 25"])
  {
    hide Step, Harmless, Fold, Plain, D.EndpointText, EndpointHost;
    var host := Some(EndpointHost(p.endpoint));
    EndpointLine(m, p);
    KeepaliveLine(m.(all := m.all.(endpoint := Some(p.endpoint), endpointHost := host),
                     current := m.current.(endpoint := Some(p.endpoint), endpointHost := host)));
    FoldTwo(m, D.EndpointText(p), "PersistentKeepalive = 25");
  }

  lemma PeerReads(m: Machine, ip: string, p: D.Peer, hubKey: string, v6: string -> bool)
    requires D.PeerOk(ip, p, hubKey, v6) && Unbroken(p)
    ensures Fold(m, D.PeerLines(p)) == Ok(PeerRead(m, p)) && AllHarmless(D.PeerLines(p))
  {
    hide Step, Harmless, Fold, Plain, EndpointHost;
    hide D.IsV4, D.KeyDecodes, D.ValidEndpoint, D.KeyText, D.RouteText, D.EndpointText;
    KeyIsPlain(p.publicKey);
    BaseReads(m, p);
    var base := ["", "[Peer]", D.KeyText(p), D.RouteText(p)];
    if p.endpoint == "" {
      assert D.PeerLines(p) == base;
    } else {
      EndpointIsPlain(p, v6);
      var reach := [D.EndpointText(p), "PersistentKeepalive = 25"];
      ReachReads(Machine("[peer]", BaseFilled(m.all, p), BaseFilled(BLANK, p), Closed(m)), p);
      FoldConcat(m, base, reach);
      assert D.PeerLines(p) == base + reach;
    }
  }

  // ----- the whole text -----

  function Expected(ip: string, peers: seq<D.Peer>): Machine {
    if peers == [] then Headed(ip) else PeerRead(Expected(ip, peers[..|peers| - 1]), peers[|peers| - 1])
  }

  predicate AllUnbroken(peers: seq<D.Peer>) {
    forall i :: 0 <= i < |peers| ==> Unbroken(peers[i])
  }

  lemma {:induction false} LinesRead(ip: string, peers: seq<D.Peer>, hubKey: string, v6: string -> bool)
    requires D.Acceptable(ip, peers, hubKey, v6) && AllUnbroken(peers)
    ensures Fold(START, D.AllLines(ip, peers)) == Ok(Expected(ip, peers)) && AllHarmless(D.AllLines(ip, peers))
    decreases |peers|
  {
    hide Fold, Harmless, D.IsV4, D.PeerOk, Unbroken, D.PeerLines, D.HeaderLines, PeerRead, Headed;
    if peers == [] {
      HeaderReads(ip);
    } else {
      var n := |peers| - 1;
      var rest, p := peers[..n], peers[n];
      LinesRead(ip, rest, hubKey, v6);
      PeerReads(Expected(ip, rest), ip, p, hubKey, v6);
      FoldConcat(START, D.AllLines(ip, rest), D.PeerLines(p));
    }
  }

  lemma {:induction false} SplitUnlines(lines: seq<string>, tail: string)
    requires AllLack(lines, IsNewline)
    ensures Split(D.Unlines(lines) + tail, IsNewline) == lines + Split(tail, IsNewline)
    decreases |lines|
  {
    hide Split;
    if lines == [] {
      assert D.Unlines(lines) + tail == tail;
      assert lines + Split(tail, IsNewline) == Split(tail, IsNewline);
    } else {
      var n := |lines| - 1;
      var rest, last := lines[..n], lines[n];
      var text, more := D.Unlines(rest), Split(tail, IsNewline);
      assert AllLack(rest, IsNewline);
      SplitUnlines(rest, last + ['\n'] + tail);
      assert text + last + "\n" + tail == text + (last + ['\n'] + tail);
      SplitAround(last, '\n', tail, IsNewline);
      SplitPlain(last, IsNewline);
      Associate(rest, [last], more);
      assert rest + [last] == lines;
    }
  }

  lemma HarmlessLack(lines: seq<string>)
    requires AllHarmless(lines)
    ensures AllLack(lines, IsNewline)
  {
    forall i | 0 <= i < |lines| ensures Lacks(lines[i], IsNewline) {
      assert Harmless(lines[i]);
    }
    hide SetsNoKey;
  }

  lemma TextLines(lines: seq<string>)
    requires AllHarmless(lines)
    ensures Split(D.Unlines(lines), IsNewline) == lines + [""]
  {
    hide Split;
    HarmlessLack(lines);
    SplitUnlines(lines, "");
    assert D.Unlines(lines) + "" == D.Unlines(lines);
    SplitPlain("", IsNewline);
  }

  function PeerExpected(p: D.Peer): Peer {
    Peer(Some(p.publicKey), None, [Cidr(p.overlay, 32)],
         if p.endpoint == "" then None else Some(p.endpoint), if p.endpoint == "" then None else Some(25))
  }

  function PeersExpected(peers: seq<D.Peer>): seq<Peer> {
    seq(|peers|, i requires 0 <= i < |peers| => PeerExpected(peers[i]))
  }

  function Routes(peers: seq<D.Peer>): seq<Cidr> {
    seq(|peers|, i requires 0 <= i < |peers| => Cidr(peers[i].overlay, 32))
  }

  /** Reading one more peer adds it and its route, and leaves the interface as it was. */
  lemma PeerReadIs(m: Machine, p: D.Peer)
    ensures var n := PeerRead(m, p);
      && n.section == "[peer]" && Closed(n) == Closed(m) + [PeerExpected(p)]
      && n.all.allowedIPs == m.all.allowedIPs + [Cidr(p.overlay, 32)]
      && n.all.addresses == m.all.addresses && n.all.mtu == m.all.mtu && n.all.dns == m.all.dns
      && n.all.privateKey == m.all.privateKey
  {
    hide EndpointHost;
    assert BLANK.allowedIPs + [Cidr(p.overlay, 32)] == [Cidr(p.overlay, 32)];
  }

  lemma OneMoreExpected(peers: seq<D.Peer>, n: nat)
    requires |peers| == n + 1
    ensures PeersExpected(peers) == PeersExpected(peers[..n]) + [PeerExpected(peers[n])]
    ensures Routes(peers) == Routes(peers[..n]) + [Cidr(peers[n].overlay, 32)]
  {
    hide PeerExpected;
  }

  lemma {:induction false} ExpectedIs(ip: string, peers: seq<D.Peer>)
    ensures var m := Expected(ip, peers);
      && Closed(m) == PeersExpected(peers) && m.all.allowedIPs == Routes(peers)
      && m.all.addresses == [Cidr(ip, 32)] && m.all.mtu == Some(1280) && m.all.dns == [] && m.all.privateKey == None
      && (m.section == "[peer]" <==> peers != [])
    decreases |peers|
  {
    if peers != [] {
      hide PeerRead, PeersExpected, Routes, PeerExpected, Closed;
      var n := |peers| - 1;
      ExpectedIs(ip, peers[..n]);
      PeerReadIs(Expected(ip, peers[..n]), peers[n]);
      OneMoreExpected(peers, n);
    }
  }

  /** The parsed config says what the printer was given. */
  predicate SaysWhatWasPrinted(c: Config, ip: string, peers: seq<D.Peer>) {
    && c.peers == PeersExpected(peers) && c.fields.allowedIPs == Routes(peers)
    && c.fields.addresses == [Cidr(ip, 32)] && c.fields.mtu == Some(1280)
    && c.fields.dns == [] && c.fields.privateKey == None
  }

  lemma UnbrokenReadsBack(ip: string, peers: seq<D.Peer>, hubKey: string, v6: string -> bool)
    requires D.Acceptable(ip, peers, hubKey, v6) && AllUnbroken(peers)
    ensures var r := Parse(D.Unlines(D.AllLines(ip, peers)));
      r.Ok? && SaysWhatWasPrinted(r.value, ip, peers)
  {
    hide Split, Step, Fold, D.Acceptable, D.Unlines, D.AllLines;
    hide AllUnbroken, AllHarmless, Expected, PeersExpected, Routes;
    var lines := D.AllLines(ip, peers);
    LinesRead(ip, peers, hubKey, v6);
    TextLines(lines);
    FoldConcat(START, lines, [""]);
    EmptyLine(Expected(ip, peers));
    FoldOne(Expected(ip, peers), "", []);
    assert [""] + [] == [""];
    FoldNone(Expected(ip, peers));
    ExpectedIs(ip, peers);
  }

  // ----- the converse: a parsed value never holds a line break -----

  predicate Clean(f: Fields) {
    && (f.publicKey.Some? ==> Lacks(f.publicKey.value, IsNewline))
    && (f.endpoint.Some? ==> Lacks(f.endpoint.value, IsNewline))
  }

  predicate CleanPeer(p: Peer) {
    && (p.publicKey.Some? ==> Lacks(p.publicKey.value, IsNewline))
    && (p.endpoint.Some? ==> Lacks(p.endpoint.value, IsNewline))
  }

  predicate CleanPeers(peers: seq<Peer>) {
    forall i :: 0 <= i < |peers| ==> CleanPeer(peers[i])
  }

  predicate CleanMachine(m: Machine) {
    Clean(m.current) && CleanPeers(m.peers)
  }

  lemma SuffixLacks(s: string, i: nat)
    requires i <= |s| && Lacks(s, IsNewline)
    ensures Lacks(s[i..], IsNewline)
  {
  }

  lemma ValueLacks(line: string)
    requires Lacks(line, IsNewline) && Entry(line).Some?
    ensures Lacks(Entry(line).value.1, IsNewline)
  {
    hide Lower, DropLeading, Find, Trim, Lacks;
    var rest := DropLeading(line, '=');
    SuffixLacks(line, |line| - |rest|);
    SuffixLacks(rest, Find(rest, '=') + 1);
    TrimLacks(rest[Find(rest, '=') + 1..], IsBlank, IsNewline);
  }

  lemma ApplyKeepsClean(f: Fields, section: string, key: string, value: string)
    requires Clean(f) && Lacks(value, IsNewline) && Apply(f, section, key, value).Ok?
    ensures Clean(Apply(f, section, key, value).value)
  {
    TrimLacks(value, IsBlank, IsNewline);
    hide ParseAddresses, ParseStrings, ParseInt, EndpointHost, Trim, Lacks;
  }

  lemma ClosedKeepsClean(m: Machine)
    requires CleanMachine(m)
    ensures CleanPeers(Closed(m))
  {
    hide Lacks;
  }

  lemma AssignKeepsClean(m: Machine, key: string, value: string)
    requires CleanMachine(m) && Lacks(value, IsNewline) && Assign(m, key, value).Ok?
    ensures CleanMachine(Assign(m, key, value).value)
  {
    hide Apply, Clean, CleanPeers, Lacks;
    if m.section == "[peer]" {
      ApplyKeepsClean(m.current, m.section, key, value);
    }
  }

  lemma StepKeepsClean(m: Machine, raw: string)
    requires CleanMachine(m) && Lacks(raw, IsNewline) && Step(m, raw).Ok?
    ensures CleanMachine(Step(m, raw).value)
  {
    hide Trim, Entry, Assign, CleanMachine, Closed, Lower;
    var line := Trim(raw, IsBlankOrNewline);
    TrimLacks(raw, IsBlankOrNewline, IsNewline);
    hide Lacks;
    if line != "" && line[0] != '#' {
      if IsSection(line) {
        ClosedKeepsClean(m);
        OpenedIsClean(Machine(Lower(line), m.all, BLANK, Closed(m)));
      } else if Entry(line).Some? {
        ValueLacks(line);
        AssignKeepsClean(m, Entry(line).value.0, Entry(line).value.1);
      }
    }
  }

  lemma OpenedIsClean(m: Machine)
    requires m.current == BLANK && CleanPeers(m.peers)
    ensures CleanMachine(m)
  {
  }

  lemma {:induction false} FoldKeepsClean(m: Machine, lines: seq<string>)
    requires CleanMachine(m) && AllLack(lines, IsNewline) && Fold(m, lines).Ok?
    ensures CleanMachine(Fold(m, lines).value)
    decreases |lines|
  {
    hide Step, CleanMachine, Lacks;
    if lines != [] {
      var n := |lines| - 1;
      assert AllLack(lines[..n], IsNewline);
      FoldKeepsClean(m, lines[..n]);
      StepKeepsClean(Fold(m, lines[..n]).value, lines[n]);
    }
  }

  lemma ParsedIsClean(text: string)
    requires Parse(text).Ok?
    ensures CleanPeers(Parse(text).value.peers)
  {
    hide Split, Fold, Closed;
    var lines := Split(text, IsNewline);
    forall i | 0 <= i < |lines| ensures Lacks(lines[i], IsNewline) {
      SplitPartsLack(text, IsNewline, i);
    }
    OpenedIsClean(START);
    FoldKeepsClean(START, lines);
    ClosedKeepsClean(Fold(START, lines).value);
  }

  lemma ReadBackIsUnbroken(text: string, peers: seq<D.Peer>)
    requires Parse(text).Ok? && Parse(text).value.peers == PeersExpected(peers)
    ensures AllUnbroken(peers)
  {
    ParsedIsClean(text);
    forall i | 0 <= i < |peers| ensures Unbroken(peers[i]) {
      assert CleanPeer(PeersExpected(peers)[i]);
      assert PeersExpected(peers)[i] == PeerExpected(peers[i]);
    }
    hide Parse;
  }

  // ----- the theorems -----

  /**
   What Render accepts and prints is read back as one peer per input, in order, with the same key, its
   single /32 route and the same endpoint, exactly when no key and no endpoint holds a line break.
   */
  lemma RenderedReadsBackIff(ip: string, peers: seq<D.Peer>, hubKey: string, v6: string -> bool)
    requires D.Acceptable(ip, peers, hubKey, v6)
    ensures var r := Parse(D.Unlines(D.AllLines(ip, peers)));
      (r.Ok? && SaysWhatWasPrinted(r.value, ip, peers)) <==> AllUnbroken(peers)
  {
    hide Parse, D.Acceptable, AllUnbroken, D.Unlines, D.AllLines, PeersExpected, Routes;
    if AllUnbroken(peers) {
      UnbrokenReadsBack(ip, peers, hubKey, v6);
    }
    var text := D.Unlines(D.AllLines(ip, peers));
    if Parse(text).Ok? && Parse(text).value.peers == PeersExpected(peers) {
      ReadBackIsUnbroken(text, peers);
    }
  }

  lemma {:induction false} NoKeyIsSet(section: string, lines: seq<string>)
    requires AllHarmless(lines)
    ensures KeySetByAll(section, lines) == None
    decreases |lines|
  {
    hide KeySetBy, SectionAfter, Lacks;
    if lines != [] {
      var n := |lines| - 1;
      assert AllHarmless(lines[..n]);
      NoKeyIsSet(section, lines[..n]);
      assert Harmless(lines[n]);
    }
  }

  lemma LineFeedConcat(a: string, b: string)
    requires LineFeedOnly(a) && (Lacks(b, IsNewline) || b == "\n")
    ensures LineFeedOnly(a + b)
  {
    assert forall i :: 0 <= i < |b| && IsNewline(b[i]) ==> b[i] == '\n';
  }

  lemma {:induction false} UnlinesBreaks(lines: seq<string>)
    requires AllLack(lines, IsNewline)
    ensures LineFeedOnly(D.Unlines(lines))
    decreases |lines|
  {
    if lines != [] {
      var n := |lines| - 1;
      var rest, last := D.Unlines(lines[..n]), lines[n];
      assert AllLack(lines[..n], IsNewline);
      UnlinesBreaks(lines[..n]);
      hide LineFeedOnly;
      LineFeedConcat(rest, last);
      LineFeedConcat(rest + last, "\n");
    }
  }

  /** Injecting the private key into a printed config changes the private key and nothing else. */
  lemma RenderedTakesTheKey(ip: string, peers: seq<D.Peer>, hubKey: string, v6: string -> bool, k: string)
    requires D.Acceptable(ip, peers, hubKey, v6) && AllUnbroken(peers) && Plain(k)
    ensures var text := D.Unlines(D.AllLines(ip, peers));
      Parse(text).Ok? && Parse(Edited(text, k)) == Ok(Rekeyed(Parse(text).value, Some(k)))
  {
    hide Parse, Edited, CutOf, CleanEdit, WrittenIn, Plain, Split, D.Acceptable, D.Unlines, D.AllLines;
    hide AllUnbroken, AllHarmless, SaysWhatWasPrinted, Expected;
    var lines := D.AllLines(ip, peers);
    var text := D.Unlines(lines);
    LinesRead(ip, peers, hubKey, v6);
    UnbrokenReadsBack(ip, peers, hubKey, v6);
    HarmlessLack(lines);
    UnlinesBreaks(lines);
    LineFeedTextsAreClean(text);
    InjectionChangesOnlyTheKey(text, k);
    TextLines(lines);
    OriginalLines(text);
    var c := CutOf(text);
    TailIsHarmless(lines, c.before + c.lost, c.after);
    NoKeyIsSet("[interface]", c.after);
  }

  lemma TailIsHarmless(lines: seq<string>, head: seq<string>, tail: seq<string>)
    requires AllHarmless(lines) && head + tail == lines + [""]
    ensures AllHarmless(tail)
  {
    hide Harmless;
    EmptyLine(START);
    var all := lines + [""];
    assert forall i :: 0 <= i < |all| ==> Harmless(all[i]);
    assert forall i :: 0 <= i < |tail| ==> tail[i] == (head + tail)[|head| + i];
  }
}
