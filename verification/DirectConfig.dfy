/**
 The server's wg-quick printer and the checks that guard it. Whether a text with
 a colon is a global unicast IPv6 literal, perhaps with a zone, is a parameter.
 */
module DirectConfig {
  import opened Options
  import opened Text

  /** endpoint is empty when there is none. */
  datatype Peer = Peer(publicKey: string, overlay: string, endpoint: string)

  // ----- literals -----

  predicate IsDot(c: char) {
    c == '.'
  }

  /** One to three digits, no leading zero, at most 255. */
  predicate Octet(s: string) {
    Digits(s) && |s| <= 3 && (|s| > 1 ==> s[0] != '0') && Number(s) <= 255
  }

  predicate IsV4(s: string) {
    var parts := Split(s, IsDot);
    |parts| == 4 && forall i :: 0 <= i < 4 ==> Octet(parts[i])
  }

  /** Neither unspecified, loopback, multicast, link-local nor broadcast. */
  predicate IsGlobalV4(s: string) {
    IsV4(s)
    && var p := Split(s, IsDot);
    var a, b := Number(p[0]), Number(p[1]);
    && s != "0.0.0.0" && s != "255.255.255.255"
    && a != 127 && !(224 <= a <= 239) && !(a == 169 && b == 254)
  }

  // ----- keys -----

  predicate InAlphabet(c: char) {
    'A' <= c <= 'Z' || 'a' <= c <= 'z' || IsDigit(c) || c == '+' || c == '/'
  }

  predicate IsReturn(c: char) {
    c == '\n' || c == '\r'
  }

  function WithoutReturns(s: string): string {
    if s == "" then "" else (if IsReturn(s[0]) then "" else [s[0]]) + WithoutReturns(s[1..])
  }

  /** What the base64 decoder takes for 32 bytes: line breaks anywhere are skipped. */
  predicate KeyDecodes(s: string) {
    var t := WithoutReturns(s);
    |t| == 44 && t[43] == '=' && forall i :: 0 <= i < 43 ==> InAlphabet(t[i])
  }

  // ----- endpoints -----

  function IndexOf(s: string, c: char): (i: int)
    ensures -1 <= i < |s|
    ensures i >= 0 ==> s[i] == c && forall j :: 0 <= j < i ==> s[j] != c
    ensures i < 0 ==> c !in s
  {
    if s == "" then -1
    else if s[0] == c then 0
    else var i := IndexOf(s[1..], c); if i < 0 then -1 else i + 1
  }

  function LastIndexOf(s: string, c: char): (i: int)
    ensures -1 <= i < |s|
    ensures i >= 0 ==> s[i] == c && forall j :: i < j < |s| ==> s[j] != c
    ensures i < 0 ==> c !in s
  {
    if s == "" then -1
    else if s[|s| - 1] == c then |s| - 1
    else LastIndexOf(s[..|s| - 1], c)
  }

  /** host:port or [host]:port, with brackets and colons nowhere else. */
  function SplitHostPort(s: string): Option<(string, string)> {
    var i := LastIndexOf(s, ':');
    if i < 0 then None
    else if s[0] == '[' then
      var end := IndexOf(s, ']');
      if end < 0 || end + 1 != i || '[' in s[1..] || ']' in s[end + 1..] then None
      else Some((s[1..end], s[i + 1..]))
    else if ':' in s[..i] || '[' in s || ']' in s then None
    else Some((s[..i], s[i + 1..]))
  }

  predicate PortOk(s: string) {
    var d := if s != "" && s[0] == '+' then s[1..] else s;
    Digits(d) && 1 <= Number(d) <= 65535
  }

  predicate HostOk(host: string, v6: string -> bool) {
    if ':' in host then v6(host) else IsGlobalV4(host)
  }

  predicate ValidEndpoint(s: string, v6: string -> bool) {
    match SplitHostPort(s)
    case None => false
    case Some((host, port)) => HostOk(host, v6) && PortOk(port)
  }

  // ----- the printer -----

  predicate PeerOk(ip: string, p: Peer, hubKey: string, v6: string -> bool) {
    && KeyDecodes(p.publicKey) && p.publicKey != hubKey && IsV4(p.overlay) && p.overlay != ip
    && (p.endpoint != "" ==> ValidEndpoint(p.endpoint, v6))
  }

  predicate Acceptable(ip: string, peers: seq<Peer>, hubKey: string, v6: string -> bool) {
    && IsV4(ip)
    && (forall i :: 0 <= i < |peers| ==> PeerOk(ip, peers[i], hubKey, v6))
    && (forall i, j :: 0 <= i < j < |peers| ==> peers[i].overlay != peers[j].overlay)
  }

  function HeaderLines(ip: string): seq<string> {
    ["[Interface]", AddressText(ip), "MTU = 1280"]
  }

  function PeerLines(p: Peer): seq<string> {
    ["", "[Peer]", KeyText(p), RouteText(p)]
    + if p.endpoint == "" then [] else [EndpointText(p), "PersistentKeepalive = 25"]
  }

  function AllLines(ip: string, peers: seq<Peer>): seq<string> {
    if peers == [] then HeaderLines(ip) else AllLines(ip, peers[..|peers| - 1]) + PeerLines(peers[|peers| - 1])
  }

  /** Each line followed by a line feed. */
  function Unlines(lines: seq<string>): string {
    if lines == [] then "" else Unlines(lines[..|lines| - 1]) + lines[|lines| - 1] + "\n"
  }

  lemma {:induction false} UnlinesConcat(a: seq<string>, b: seq<string>)
    ensures Unlines(a + b) == Unlines(a) + Unlines(b)
    decreases |b|
  {
    if b == [] {
      assert a + b == a;
    } else {
      var n := |b| - 1;
      assert (a + b)[..|a + b| - 1] == a + b[..n];
      UnlinesConcat(a, b[..n]);
    }
  }

  function KeyText(p: Peer): string {
    "PublicKey = " + p.publicKey
  }

  function RouteText(p: Peer): string {
    "AllowedIPs = " + p.overlay + "/32"
  }

  function EndpointText(p: Peer): string {
    "Endpoint = " + p.endpoint
  }

  /** What the printer writes for one peer: always the first piece, and the second for a peer with an endpoint. */
  function PeerText(p: Peer): string {
    "" + "\n" + "[Peer]" + "\n" + KeyText(p) + "\n" + RouteText(p) + "\n"
  }

  function ReachText(p: Peer): string {
    EndpointText(p) + "\n" + "PersistentKeepalive = 25" + "\n"
  }

  lemma UnlinesOne(a: string)
    ensures Unlines([a]) == a + "\n"
  {
    assert [a][..0] == [];
  }

  lemma UnlinesMore(lines: seq<string>, a: string)
    ensures Unlines(lines + [a]) == Unlines(lines) + a + "\n"
  {
    assert (lines + [a])[..|lines|] == lines;
  }

  lemma PeerTextLines(p: Peer)
    ensures Unlines(PeerLines(p)) == PeerText(p) + if p.endpoint == "" then "" else ReachText(p)
  {
    hide Unlines, KeyText, RouteText, EndpointText;
    var k, r, e := KeyText(p), RouteText(p), EndpointText(p);
    UnlinesOne("");
    UnlinesMore([""], "[Peer]");
    UnlinesMore(["", "[Peer]"], k);
    UnlinesMore(["", "[Peer]", k], r);
    assert [""] + ["[Peer]"] == ["", "[Peer]"] && ["", "[Peer]"] + [k] == ["", "[Peer]", k];
    assert ["", "[Peer]", k] + [r] == ["", "[Peer]", k, r];
    assert Unlines(["", "[Peer]", k, r]) == PeerText(p);
    if p.endpoint != "" {
      UnlinesOne(e);
      UnlinesMore([e], "PersistentKeepalive = 25");
      assert [e] + ["PersistentKeepalive = 25"] == [e, "PersistentKeepalive = 25"];
      UnlinesConcat(["", "[Peer]", k, r], [e, "PersistentKeepalive = 25"]);
    } else {
      assert PeerLines(p) == ["", "[Peer]", k, r];
    }
  }

  function AddressText(ip: string): string {
    "Address = " + ip + "/32"
  }

  function HeaderText(ip: string): string {
    "[Interface]" + "\n" + AddressText(ip) + "\n" + "MTU = 1280" + "\n"
  }

  lemma HeaderTextLines(ip: string)
    ensures Unlines(HeaderLines(ip)) == HeaderText(ip)
  {
    hide Unlines, AddressText;
    UnlinesOne("[Interface]");
    UnlinesMore(["[Interface]"], AddressText(ip));
    UnlinesMore(["[Interface]", AddressText(ip)], "MTU = 1280");
    assert ["[Interface]"] + [AddressText(ip)] == ["[Interface]", AddressText(ip)];
    assert ["[Interface]", AddressText(ip)] + ["MTU = 1280"] == HeaderLines(ip);
  }

  lemma TextOfNone(ip: string)
    ensures Unlines(AllLines(ip, [])) == HeaderText(ip)
  {
    HeaderTextLines(ip);
  }

  lemma TextOfOneMore(ip: string, peers: seq<Peer>, i: nat)
    requires i < |peers|
    ensures Unlines(AllLines(ip, peers[..i + 1])) == if peers[i].endpoint == ""
      then Unlines(AllLines(ip, peers[..i])) + PeerText(peers[i])
      else Unlines(AllLines(ip, peers[..i])) + PeerText(peers[i]) + ReachText(peers[i])
  {
    hide Unlines, PeerLines, PeerText, ReachText;
    assert peers[..i + 1][..i] == peers[..i];
    PeerTextLines(peers[i]);
    UnlinesConcat(AllLines(ip, peers[..i]), PeerLines(peers[i]));
    assert Unlines(AllLines(ip, peers[..i])) + (PeerText(peers[i]) + ReachText(peers[i]))
        == Unlines(AllLines(ip, peers[..i])) + PeerText(peers[i]) + ReachText(peers[i]);
    assert PeerText(peers[i]) + "" == PeerText(peers[i]);
  }

  /** The text is printed, as these lines, exactly for acceptable input. */
  method Render(ip: string, peers: seq<Peer>, hubKey: string, v6: string -> bool) returns (text: Option<string>)
    ensures text.Some? <==> Acceptable(ip, peers, hubKey, v6)
    ensures text.Some? ==> text.value == Unlines(AllLines(ip, peers))
  {
    hide IsV4, KeyDecodes, ValidEndpoint, Unlines, PeerText, ReachText, HeaderText, AllLines;
    if !IsV4(ip) {
      return None;
    }
    var out := HeaderText(ip);
    TextOfNone(ip);
    var seen: set<string> := {};
    assert peers[..0] == [];
    for i := 0 to |peers|
      invariant out == Unlines(AllLines(ip, peers[..i]))
      invariant forall j :: 0 <= j < i ==> PeerOk(ip, peers[j], hubKey, v6)
      invariant forall s :: s in seen <==> exists j :: 0 <= j < i && peers[j].overlay == s
      invariant forall j, k :: 0 <= j < k < i ==> peers[j].overlay != peers[k].overlay
    {
      var p := peers[i];
      if !KeyDecodes(p.publicKey) || p.publicKey == hubKey || !IsV4(p.overlay) || p.overlay == ip || p.overlay in seen {
        return None;
      }
      seen := seen + {p.overlay};
      if p.endpoint != "" {
        if !ValidEndpoint(p.endpoint, v6) {
          return None;
        }
      }
      TextOfOneMore(ip, peers, i);
      out := out + PeerText(p);
      if p.endpoint != "" {
        out := out + ReachText(p);
      }
    }
    assert peers[..|peers|] == peers;
    text := Some(out);
  }
}
