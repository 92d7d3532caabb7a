/**
 Whole inputs on which the printer, the parser and the private-key injection do
 not do what a reader would expect of them.
 */
module ConfigWitnesses {
  import opened Options
  import opened Text
  import D = DirectConfig
  import opened WireGuardConfig
  import opened KeyInjection
  import opened InjectionEffect
  import opened ConfigRoundTrip

  // ----- reading a text given by its pieces -----

  lemma PiecesOf(pieces: seq<string>)
    requires pieces != [] && AllLack(pieces, IsLineFeed)
    ensures var text := Join(pieces, '\n');
      Split(text, IsLineFeed) == pieces && Split(text, IsNewline) == LinesOf(pieces)
  {
    hide Split, SplitEach, Join, Lacks;
    SplitOfJoinPlain(pieces, '\n', IsLineFeed);
    SplitOfJoin(pieces, '\n', IsNewline);
  }

  lemma LacksFeed(line: string)
    requires Lacks(line, IsNewline)
    ensures Lacks(line, IsLineFeed)
  {
  }

  /** Two lines with a carriage return between them make one piece. */
  lemma ReturnedPiece(a: string, b: string)
    requires Lacks(a, IsNewline) && Lacks(b, IsNewline)
    ensures Lacks(a + "\r" + b, IsLineFeed) && Split(a + "\r" + b, IsNewline) == [a, b]
  {
    UnbrokenIsOneLine(a);
    UnbrokenIsOneLine(b);
    SplitAround(a, '\r', b, IsNewline);
    assert a + ['\r'] + b == a + "\r" + b;
    hide Split;
  }

  lemma LinesOfMore(piece: string, pieces: seq<string>)
    ensures LinesOf([piece] + pieces) == Split(piece, IsNewline) + LinesOf(pieces)
  {
    hide Split;
    assert ([piece] + pieces)[1..] == pieces;
  }

  // ----- what the scan makes of a piece -----

  lemma ScanHeader(pieces: seq<string>, i: nat, section: string, header: Option<nat>)
    requires i < |pieces| && (header.Some? ==> header.value < i) && InterfaceHeader(pieces[i])
    ensures FindEdit(pieces, i, section, header) == FindEdit(pieces, i + 1, "[interface]", Some(i))
  {
    hide Trim, Lower, IsSection, KeyLine;
  }

  lemma ScanPast(pieces: seq<string>, i: nat, section: string, header: Option<nat>)
    requires i < |pieces| && (header.Some? ==> header.value < i)
    requires !IsSection(Trim(pieces[i], IsBlank)) && !KeyLine(section, pieces[i])
    ensures FindEdit(pieces, i, section, header) == FindEdit(pieces, i + 1, section, header)
  {
    hide Trim, Lower, IsSection, KeyLine;
  }

  lemma ScanKey(pieces: seq<string>, i: nat, header: Option<nat>)
    requires i < |pieces| && (header.Some? ==> header.value < i)
    requires !IsSection(Trim(pieces[i], IsBlank)) && KeyLine("[interface]", pieces[i])
    ensures FindEdit(pieces, i, "[interface]", header) == Replace(i)
  {
    hide Trim, Lower, IsSection, KeyLine;
  }

  lemma HeaderIsSeen()
    ensures InterfaceHeader("[Interface]")
  {
    hide Lower, Trim;
    InterfaceWord();
    TrimSnug("[Interface]", IsBlank);
  }

  /** A piece that starts like a word is no header. */
  lemma NoHeader(piece: string)
    requires piece != "" && Snug(piece, IsBlank) && (piece[0] != '[' || piece[|piece| - 1] != ']')
    ensures !IsSection(Trim(piece, IsBlank))
  {
    TrimSnug(piece, IsBlank);
  }

  lemma NoKeyLine(piece: string)
    requires piece != "" && Snug(piece, IsBlank) && LowerChar(piece[0]) != 'p'
    ensures !KeyLine("[interface]", piece)
  {
    hide Trim;
    if KeyLine("[interface]", piece) {
      KeyLineHead(piece);
      TrimSnug(piece, IsBlank);
    }
  }

  lemma StartsAsKeyLine(rest: string)
    requires Snug(KeyText(rest), IsBlank)
    ensures KeyLine("[interface]", KeyText(rest)) && !IsSection(Trim(KeyText(rest), IsBlank))
  {
    hide Trim, WithoutSpaces;
    var text := KeyText(rest);
    assert text[0] == 'P';
    TrimSnug(text, IsBlank);
    LowerOfKeyText(rest);
    WithoutSpacesOfKeyText(Lower(rest));
  }

  lemma LowerOfKeyText(rest: string)
    ensures Lower(KeyText(rest)) == "privatekey = " + Lower(rest)
  {
  }

  lemma WithoutSpacesOfKeyText(low: string)
    ensures "privatekey=" <= WithoutSpaces("privatekey = " + low)
  {
    var tail := "= " + low;
    assert "privatekey = " + low == "privatekey" + (" " + tail);
    NoSpacesToDrop("privatekey", " " + tail);
    assert (" " + tail)[1..] == tail && WithoutSpaces(" " + tail) == "" + WithoutSpaces(tail);
    assert tail[0] == '=' && tail[1..] == " " + low;
    assert WithoutSpaces(tail) == "=" + WithoutSpaces(" " + low);
    assert "privatekey" + "=" == "privatekey=";
  }

  lemma AddressEnds(ip: string)
    ensures var addr := D.AddressText(ip);
      addr != "" && addr[0] == 'A' && addr[|addr| - 1] == '2' && Snug(addr, IsBlank)
  {
    assert D.AddressText(ip)[0] == "Address = "[0];
    assert "/32"[2] == '2';
  }

  lemma AddressPiece(ip: string)
    requires D.IsV4(ip)
    ensures Lacks(D.AddressText(ip), IsNewline) && Lacks(D.AddressText(ip), IsLineFeed)
  {
    hide D.IsV4, SetsNoKey, D.AddressText;
    AddressLine(OPENED, ip);
    assert Harmless(D.AddressText(ip));
  }

  // ----- a replaced piece that held the address -----

  /** The key line and the address line are one piece: a carriage return stands between them. */
  function MergedText(ip: string): string {
    Join(["[Interface]", KeyText("a") + "\r" + D.AddressText(ip)], '\n')
  }

  lemma KeyPiece(v: string)
    requires Plain(v)
    ensures Lacks(KeyText(v), IsNewline) && Lacks(KeyText(v), IsLineFeed)
  {
    KeyTextLacks(v);
  }

  lemma KeyTextStarts(v: string)
    ensures KeyText(v) != "" && KeyText(v)[0] == 'P'
  {
  }

  lemma PlaceholderIsPlain()
    ensures Plain("a")
  {
  }

  lemma HeaderPiece()
    ensures Lacks("[Interface]", IsNewline) && Lacks("[Interface]", IsLineFeed)
    ensures Split("[Interface]", IsNewline) == ["[Interface]"]
  {
    hide Split;
    InterfaceWord();
    UnbrokenIsOneLine("[Interface]");
  }

  lemma TwoPieces(a: string, b: string)
    requires Lacks(a, IsLineFeed) && Lacks(b, IsLineFeed)
    ensures var text := Join([a, b], '\n');
      Split(text, IsLineFeed) == [a, b] && Split(text, IsNewline) == Split(a, IsNewline) + Split(b, IsNewline)
  {
    hide Split, SplitEach, Join, Lacks;
    PiecesOf([a, b]);
    LinesOfMore(a, [b]);
    LinesOfMore(b, []);
    LinesOfNone();
    assert [a] + [b] == [a, b] && [b] + [] == [b];
  }

  lemma MergedScan(h: string, piece: string)
    requires Lacks(h, IsLineFeed) && Lacks(piece, IsLineFeed) && InterfaceHeader(h)
    requires KeyLine("[interface]", piece) && !IsSection(Trim(piece, IsBlank))
    ensures EditOf(Join([h, piece], '\n')) == Replace(1)
  {
    hide Split, Join, Lacks, FindEdit, KeyLine, IsSection, Trim, InterfaceHeader;
    TwoPieces(h, piece);
    ScanHeader([h, piece], 0, "", None);
    ScanKey([h, piece], 1, Some(0));
  }

  lemma MergedPiece(addr: string)
    requires Lacks(addr, IsNewline) && addr != "" && Snug(addr, IsBlank)
    ensures var piece := KeyText("a") + "\r" + addr;
      && Lacks(piece, IsLineFeed) && Split(piece, IsNewline) == [KeyText("a"), addr]
      && KeyLine("[interface]", piece) && !IsSection(Trim(piece, IsBlank))
  {
    hide Split, KeyLine, IsSection, Trim;
    PlaceholderIsPlain();
    KeyPiece("a");
    ReturnedPiece(KeyText("a"), addr);
    var piece := KeyText("a") + "\r" + addr;
    assert piece == KeyText("a" + "\r" + addr);
    assert piece[0] == 'P' && piece[|piece| - 1] == addr[|addr| - 1];
    StartsAsKeyLine("a" + "\r" + addr);
  }

  lemma MergedEdit(ip: string)
    requires D.IsV4(ip)
    ensures var piece := KeyText("a") + "\r" + D.AddressText(ip);
      && Split(MergedText(ip), IsLineFeed) == ["[Interface]", piece] && EditOf(MergedText(ip)) == Replace(1)
      && Split(MergedText(ip), IsNewline) == ["[Interface]", KeyText("a"), D.AddressText(ip)]
  {
    hide D.IsV4, D.AddressText, KeyText, Split, Join, Lacks, Snug, KeyLine, IsSection, Trim, InterfaceHeader, EditOf;
    AddressEnds(ip);
    AddressPiece(ip);
    HeaderPiece();
    HeaderIsSeen();
    MergedPiece(D.AddressText(ip));
    var piece := KeyText("a") + "\r" + D.AddressText(ip);
    TwoPieces("[Interface]", piece);
    MergedScan("[Interface]", piece);
    assert ["[Interface]"] + [KeyText("a"), D.AddressText(ip)] == ["[Interface]", KeyText("a"), D.AddressText(ip)];
  }

  /** An opened section with a key and an address. */
  lemma KeyThenAddress(v: string, ip: string)
    requires Plain(v) && D.IsV4(ip)
    ensures Fold(WithKey(OPENED, Some(v)), [D.AddressText(ip)])
         == Ok(OPENED.(all := BLANK.(addresses := [Cidr(ip, 32)], privateKey := Some(v))))
  {
    hide D.IsV4, D.AddressText, Step;
    AddressLine(WithKey(OPENED, Some(v)), ip);
    assert [D.AddressText(ip)][..0] == [];
    assert BLANK.addresses + [Cidr(ip, 32)] == [Cidr(ip, 32)];
  }

  lemma EditedTwo(h: string, piece: string, k: string)
    requires Lacks(h, IsNewline) && Lacks(piece, IsLineFeed) && Plain(k)
    requires EditOf(Join([h, piece], '\n')) == Replace(1)
    ensures Split(Edited(Join([h, piece], '\n'), k), IsNewline) == [h, KeyText(k)]
  {
    hide KeyText, Split, Join, Lacks, Plain, EditOf;
    LacksFeed(h);
    TwoPieces(h, piece);
    KeyPiece(k);
    UnbrokenIsOneLine(h);
    UnbrokenIsOneLine(KeyText(k));
    TwoPieces(h, KeyText(k));
    assert [h, piece][1 := KeyText(k)] == [h, KeyText(k)];
    assert [h] + [KeyText(k)] == [h, KeyText(k)];
  }

  lemma MergedParses(ip: string)
    requires D.IsV4(ip)
    ensures Parse(MergedText(ip)).Ok?
  {
    hide D.IsV4, D.AddressText, KeyText, Split, Plain, EditOf, MergedText, Fold;
    MergedEdit(ip);
    PlaceholderIsPlain();
    WrittenTwo("a");
    FoldConcat(START, ["[Interface]", KeyText("a")], [D.AddressText(ip)]);
    assert ["[Interface]", KeyText("a")] + [D.AddressText(ip)] == ["[Interface]", KeyText("a"), D.AddressText(ip)];
    KeyThenAddress("a", ip);
  }

  /** A text that parses, and after injection does not: the replaced piece held the address. */
  lemma ReplacementLosesTheAddress(ip: string, k: string)
    requires D.IsV4(ip) && Plain(k)
    ensures Parse(MergedText(ip)).Ok?
    ensures Parse(Edited(MergedText(ip), k)) == Err(MissingInterfaceAddress)
  {
    MergedParses(ip);
    MergedEdit(ip);
    hide D.IsV4, D.AddressText, KeyText, Plain, EditOf, Fold, Edited, KeyLine, IsSection;
    hide Split, Join, Lacks, Snug, Trim;
    HeaderPiece();
    AddressEnds(ip);
    AddressPiece(ip);
    MergedPiece(D.AddressText(ip));
    EditedTwo("[Interface]", KeyText("a") + "\r" + D.AddressText(ip), k);
    WrittenTwo(k);
  }

  // ----- carriage return and line feed -----

  lemma ThreePieces(a: string, b: string, c: string)
    requires Lacks(a, IsLineFeed) && Lacks(b, IsLineFeed) && Lacks(c, IsLineFeed)
    ensures var text := Join([a, b, c], '\n');
      && Split(text, IsLineFeed) == [a, b, c]
      && Split(text, IsNewline) == Split(a, IsNewline) + (Split(b, IsNewline) + Split(c, IsNewline))
  {
    hide Split, SplitEach, Join, Lacks;
    PiecesOf([a, b, c]);
    LinesOfMore(a, [b, c]);
    LinesOfMore(b, [c]);
    LinesOfMore(c, []);
    LinesOfNone();
    assert [a] + [b, c] == [a, b, c] && [b] + [c] == [b, c] && [c] + [] == [c];
  }

  /** Three lines, each ended by a carriage return and all but the last by a line feed too. */
  function EndedText(h: string, a: string, b: string): string {
    Join([h + "\r", a + "\r", b + "\r"], '\n')
  }

  /** An ordinary config with a placeholder key, written with carriage returns and line feeds. */
  function ReturnsText(ip: string): string {
    EndedText("[Interface]", KeyText("a"), D.AddressText(ip))
  }

  lemma EndedPiece(line: string)
    requires Lacks(line, IsNewline) && line != "" && !IsBlank(line[0])
    ensures Lacks(line + "\r", IsLineFeed) && Split(line + "\r", IsNewline) == [line, ""]
    ensures !IsSection(Trim(line + "\r", IsBlank))
  {
    ReturnedPiece(line, "");
    assert line + "\r" + "" == line + "\r";
    hide Split;
    NoHeader(line + "\r");
  }

  lemma NoSectionNoKeyLine(piece: string)
    ensures !KeyLine("", piece)
  {
  }

  lemma UnseenScan(pieces: seq<string>)
    requires pieces != [] && AllLack(pieces, IsLineFeed)
    requires forall i :: 0 <= i < |pieces| ==> !IsSection(Trim(pieces[i], IsBlank))
    ensures EditOf(Join(pieces, '\n')) == Prepend
  {
    hide Split, Join, FindEdit, Lacks, IsSection, Trim;
    PiecesOf(pieces);
    UnseenFrom(pieces, 0);
  }

  lemma {:induction false} UnseenFrom(pieces: seq<string>, i: nat)
    requires i <= |pieces| && forall i :: 0 <= i < |pieces| ==> !IsSection(Trim(pieces[i], IsBlank))
    ensures FindEdit(pieces, i, "", None) == Prepend
    decreases |pieces| - i
  {
    hide FindEdit, KeyLine, IsSection, Trim;
    if i == |pieces| {
      ScanEnds(pieces);
    } else {
      NoSectionNoKeyLine(pieces[i]);
      ScanPast(pieces, i, "", None);
      UnseenFrom(pieces, i + 1);
    }
  }

  lemma EndedLines(h: string, a: string, b: string)
    requires Lacks(h, IsNewline) && h != "" && !IsBlank(h[0])
    requires Lacks(a, IsNewline) && a != "" && !IsBlank(a[0])
    requires Lacks(b, IsNewline) && b != "" && !IsBlank(b[0])
    ensures var text := EndedText(h, a, b);
      EditOf(text) == Prepend && Split(text, IsNewline) == [h, "", a, "", b, ""]
  {
    hide Split, Join, Lacks, FindEdit, IsSection, Trim, EditOf;
    EndedPiece(h);
    EndedPiece(a);
    EndedPiece(b);
    ThreePieces(h + "\r", a + "\r", b + "\r");
    UnseenScan([h + "\r", a + "\r", b + "\r"]);
    assert [h, ""] + ([a, ""] + [b, ""]) == [h, "", a, "", b, ""];
  }

  lemma ReturnsEdit(ip: string)
    requires D.IsV4(ip)
    ensures EditOf(ReturnsText(ip)) == Prepend
    ensures Split(ReturnsText(ip), IsNewline) == ["[Interface]", "", KeyText("a"), "", D.AddressText(ip), ""]
  {
    hide D.IsV4, D.AddressText, KeyText, Split, EndedText, Lacks, Snug, EditOf;
    PlaceholderIsPlain();
    KeyPiece("a");
    KeyTextStarts("a");
    AddressPiece(ip);
    AddressEnds(ip);
    HeaderPiece();
    EndedLines("[Interface]", KeyText("a"), D.AddressText(ip));
  }

  lemma ScanEnds(pieces: seq<string>)
    ensures FindEdit(pieces, |pieces|, "", None) == Prepend
  {
  }

  lemma FoldEmpty(m: Machine, lines: seq<string>)
    ensures Fold(m, [""] + lines) == Fold(m, lines)
  {
    hide Step, Fold;
    EmptyLine(m);
    FoldOne(m, "", lines);
  }

  lemma ReturnsFold(ip: string)
    requires D.IsV4(ip)
    ensures Parse(ReturnsText(ip)).Ok? && Parse(ReturnsText(ip)).value.fields.privateKey == Some("a")
    ensures KeySetByAll("[interface]", Split(ReturnsText(ip), IsNewline)) == Some("a")
  {
    ReturnsEdit(ip);
    PlaceholderIsPlain();
    hide D.IsV4, D.AddressText, KeyText, Split, Fold, ReturnsText, KeySetByAll, Plain;
    var h, a, addr := "[Interface]", KeyText("a"), D.AddressText(ip);
    var body := ["", a, "", addr, ""];
    InterfaceWord();
    OpensSection(START, h);
    OpensSection(OPENED, h);
    FoldOne(START, h, body);
    FoldOne(OPENED, h, body);
    assert [h] + body == [h, "", a, "", addr, ""];
    BodyFold(ip, None);
    FoldWithKey(OPENED, None, [h, "", a, "", addr, ""]);
  }

  lemma BodyFold(ip: string, x: Option<string>)
    requires D.IsV4(ip)
    ensures Fold(WithKey(OPENED, x), ["", KeyText("a"), "", D.AddressText(ip), ""])
         == Ok(OPENED.(all := BLANK.(addresses := [Cidr(ip, 32)], privateKey := Some("a"))))
  {
    PlaceholderIsPlain();
    hide D.IsV4, D.AddressText, KeyText, Fold, Plain;
    var m, a, addr := WithKey(OPENED, x), KeyText("a"), D.AddressText(ip);
    FoldEmpty(m, [a, "", addr, ""]);
    assert [""] + [a, "", addr, ""] == ["", a, "", addr, ""];
    FoldConcat(m, [a], ["", addr, ""]);
    assert [a] + ["", addr, ""] == [a, "", addr, ""];
    WrittenOne(m, "a");
    var n := WithKey(OPENED, Some("a"));
    FoldEmpty(n, [addr, ""]);
    assert [""] + [addr, ""] == ["", addr, ""];
    FoldConcat(n, [addr], [""]);
    assert [addr] + [""] == [addr, ""];
    KeyThenAddress("a", ip);
    var done := Fold(n, [addr]).value;
    FoldEmpty(done, []);
    FoldNone(done);
    assert [""] + [] == [""];
  }

  /** With carriage returns the scan sees no section, prepends one, and the placeholder still wins: nothing changes. */
  lemma PlaceholderWins(ip: string, k: string)
    requires D.IsV4(ip) && Plain(k)
    ensures Parse(ReturnsText(ip)).Ok? && Parse(Edited(ReturnsText(ip), k)) == Parse(ReturnsText(ip))
    ensures Parse(ReturnsText(ip)).value.fields.privateKey == Some("a")
  {
    var text := ReturnsText(ip);
    ReturnsEdit(ip);
    ReturnsFold(ip);
    HeaderFirst(text, "[Interface]");
    hide D.IsV4, D.AddressText, KeyText, Split, Fold, ReturnsText, KeySetByAll, Plain, EditOf, Edited, Parse, CleanEdit;
    InjectionChangesOnlyTheKey(text, k);
    WholeIsAfter(text);
    assert Rekeyed(Parse(text).value, Some("a")) == Parse(text).value;
  }

  lemma WholeIsAfter(text: string)
    requires EditOf(text).Prepend?
    ensures CutOf(text).after == Split(text, IsNewline) && WrittenIn(text) == "[interface]"
  {
    hide Split, SplitEach;
    LinesOfPieces(text);
  }

  /** Prepending before a header is always clean. */
  lemma HeaderFirst(text: string, header: string)
    requires EditOf(text).Prepend? && Split(text, IsNewline)[0] == header
    requires IsSection(header) && Lacks(header, IsNewline)
    ensures CleanEdit(text)
  {
    hide Split, SplitEach, EditOf;
    WholeIsAfter(text);
    TrimSnug(header, IsBlankOrNewline);
    hide Trim;
    assert HeaderAt(CutOf(text).after) == 0;
  }

  // ----- a prepended section that takes in stray lines -----

  /** A line before the first section, and a header the scan misses. */
  function StrayText(ip: string): string {
    Join(["MTU = 1280", "[Interface]" + "\r", D.AddressText(ip)], '\n')
  }

  lemma MtuPiece()
    ensures Lacks("MTU = 1280", IsNewline) && Lacks("MTU = 1280", IsLineFeed)
    ensures !IsSection(Trim("MTU = 1280", IsBlank)) && !IsHeader("MTU = 1280")
  {
    TrimSnug("MTU = 1280", IsBlank);
    TrimSnug("MTU = 1280", IsBlankOrNewline);
  }

  lemma StrayScan(a: string, h: string, b: string)
    requires Lacks(a, IsNewline) && !IsSection(Trim(a, IsBlank))
    requires Lacks(h, IsNewline) && h != "" && !IsBlank(h[0])
    requires Lacks(b, IsNewline) && b != "" && Snug(b, IsBlank) && b[0] != '['
    ensures var text := Join([a, h + "\r", b], '\n');
      EditOf(text) == Prepend && Split(text, IsNewline) == [a, h, "", b]
  {
    LacksFeed(a);
    LacksFeed(b);
    UnbrokenIsOneLine(a);
    UnbrokenIsOneLine(b);
    NoHeader(b);
    hide Split, Join, Lacks, FindEdit, IsSection, Trim, EditOf, Snug;
    EndedPiece(h);
    ThreePieces(a, h + "\r", b);
    UnseenScan([a, h + "\r", b]);
    assert [a] + ([h, ""] + [b]) == [a, h, "", b];
  }

  lemma StrayEdit(ip: string)
    requires D.IsV4(ip)
    ensures EditOf(StrayText(ip)) == Prepend
    ensures Split(StrayText(ip), IsNewline) == ["MTU = 1280", "[Interface]", "", D.AddressText(ip)]
  {
    hide D.IsV4, D.AddressText, Split, Join, Lacks, Snug, EditOf, IsSection, Trim;
    MtuPiece();
    HeaderPiece();
    AddressPiece(ip);
    AddressEnds(ip);
    StrayScan("MTU = 1280", "[Interface]", D.AddressText(ip));
  }

  /** A header, an empty line and an address, after whatever the interface had. */
  lemma SectionWithAddress(m: Machine, ip: string)
    requires D.IsV4(ip) && Closed(m) == [] && m.all.addresses == []
    ensures Fold(m, ["[Interface]", "", D.AddressText(ip)])
         == Ok(OPENED.(all := m.all.(addresses := [Cidr(ip, 32)])))
  {
    hide D.IsV4, D.AddressText, Step, Lower, IsSection, Lacks, Closed, Fold;
    var addr, n := D.AddressText(ip), OPENED.(all := m.all);
    InterfaceWord();
    OpensSection(m, "[Interface]");
    FoldOne(m, "[Interface]", ["", addr]);
    assert ["[Interface]"] + ["", addr] == ["[Interface]", "", addr];
    FoldEmpty(n, [addr]);
    assert [""] + [addr] == ["", addr];
    AddressLine(n, ip);
    FoldOne(n, addr, []);
    assert [addr] + [] == [addr] && [] + [Cidr(ip, 32)] == [Cidr(ip, 32)];
    FoldNone(Step(n, addr).value);
  }

  lemma StrayParses(ip: string)
    requires D.IsV4(ip)
    ensures Parse(StrayText(ip)).Ok? && Parse(StrayText(ip)).value.fields.mtu == None
  {
    hide D.IsV4, D.AddressText, Split, Fold, StrayText, EditOf, IsHeader, IsSection, Lacks, Trim;
    var rest := ["[Interface]", "", D.AddressText(ip)];
    StrayEdit(ip);
    MtuPiece();
    assert ["MTU = 1280"] + rest == Split(StrayText(ip), IsNewline);
    FoldConcat(START, ["MTU = 1280"], rest);
    NothingBeforeHeader(["MTU = 1280"]);
    SectionWithAddress(START, ip);
  }

  lemma PrependedParse(text: string, k: string)
    requires EditOf(text).Prepend? && Plain(k)
    ensures Parse(Edited(text, k)) == Finish(Fold(WithKey(OPENED, Some(k)), Split(text, IsNewline)))
  {
    WholeIsAfter(text);
    assert CutOf(text).before == [] && Written(text, k) == ["[Interface]", KeyText(k)];
    hide KeyText, Split, Fold, Plain, EditOf, Edited, CutOf, Written;
    FoldNone(START);
    EditedParse(text, k, START);
    WrittenTwo(k);
  }

  /** The stray MTU, ignored before, takes effect in the prepended section. */
  lemma PrependingTakesInStrayLines(ip: string, k: string)
    requires D.IsV4(ip) && Plain(k)
    ensures var was, got := Parse(StrayText(ip)), Parse(Edited(StrayText(ip), k));
      was.Ok? && was.value.fields.mtu == None && got.Ok? && got.value.fields.mtu == Some(1280)
  {
    StrayParses(ip);
    hide D.IsV4, D.AddressText, Split, Fold, StrayText, Plain, EditOf, Edited, Parse, Step, Harmless;
    var rest := ["[Interface]", "", D.AddressText(ip)];
    StrayEdit(ip);
    PrependedParse(StrayText(ip), k);
    assert ["MTU = 1280"] + rest == Split(StrayText(ip), IsNewline);
    var m := WithKey(OPENED, Some(k));
    MtuLine(m);
    FoldOne(m, "MTU = 1280", rest);
    SectionWithAddress(m.(all := m.all.(mtu := Some(1280))), ip);
  }

  // ----- a key line the scan does not see -----

  function TabbedConfig(v: string, ip: string): string {
    Join(["[Interface]", TabbedText(v), D.AddressText(ip)], '\n')
  }

  lemma TabbedPiece(v: string)
    requires Plain(v)
    ensures Lacks(TabbedText(v), IsNewline) && Lacks(TabbedText(v), IsLineFeed)
    ensures TabbedText(v) != "" && TabbedText(v)[0] == 'P' && Snug(TabbedText(v), IsBlank)
  {
    var head, line := "PrivateKey\t", TabbedText(v);
    var mid := "= " + v;
    assert line == head + mid && line[|line| - 1] == v[|v| - 1];
    forall i | 0 <= i < |line| ensures !IsNewline(line[i]) {
      if i < |head| { assert line[i] == head[i]; }
      else if i >= |head| + 2 { assert line[i] == v[i - |head| - 2]; }
    }
  }

  lemma InsertScan(h: string, a: string, b: string)
    requires Lacks(h, IsLineFeed) && Lacks(a, IsLineFeed) && Lacks(b, IsLineFeed) && InterfaceHeader(h)
    requires !IsSection(Trim(a, IsBlank)) && !KeyLine("[interface]", a)
    requires !IsSection(Trim(b, IsBlank)) && !KeyLine("[interface]", b)
    ensures EditOf(Join([h, a, b], '\n')) == Insert(1)
  {
    hide Split, Join, Lacks, FindEdit, KeyLine, IsSection, Trim, InterfaceHeader;
    var pieces := [h, a, b];
    ThreePieces(h, a, b);
    ScanHeader(pieces, 0, "", None);
    ScanPast(pieces, 1, "[interface]", Some(0));
    ScanPast(pieces, 2, "[interface]", Some(0));
    ScanEndsAfter(pieces, 0);
  }

  lemma ScanEndsAfter(pieces: seq<string>, i: nat)
    requires i < |pieces|
    ensures FindEdit(pieces, |pieces|, "[interface]", Some(i)) == Insert(i + 1)
  {
  }

  lemma InsertLines(h: string, a: string, b: string)
    requires Lacks(h, IsNewline) && InterfaceHeader(h)
    requires Lacks(a, IsNewline) && a != "" && Snug(a, IsBlank) && a[0] != '[' && !KeyLine("[interface]", a)
    requires Lacks(b, IsNewline) && b != "" && Snug(b, IsBlank) && b[0] != '[' && !KeyLine("[interface]", b)
    ensures var text := Join([h, a, b], '\n');
      EditOf(text) == Insert(1) && Split(text, IsLineFeed) == [h, a, b] && Split(text, IsNewline) == [h, a, b]
  {
    LacksFeed(h);
    LacksFeed(a);
    LacksFeed(b);
    hide Split, Join, Lacks, Snug, EditOf, IsSection, Trim, KeyLine, InterfaceHeader;
    NoHeader(a);
    NoHeader(b);
    UnbrokenIsOneLine(h);
    UnbrokenIsOneLine(a);
    UnbrokenIsOneLine(b);
    ThreePieces(h, a, b);
    InsertScan(h, a, b);
    assert [h] + ([a] + [b]) == [h, a, b];
  }

  lemma TabbedEdit(v: string, ip: string)
    requires Plain(v) && D.IsV4(ip)
    ensures EditOf(TabbedConfig(v, ip)) == Insert(1)
    ensures Split(TabbedConfig(v, ip), IsLineFeed) == ["[Interface]", TabbedText(v), D.AddressText(ip)]
    ensures Split(TabbedConfig(v, ip), IsNewline) == ["[Interface]", TabbedText(v), D.AddressText(ip)]
  {
    hide D.IsV4, D.AddressText, TabbedText, Split, Join, Lacks, Snug, EditOf, KeyLine, Plain, InterfaceHeader, KeySetBy;
    TabbedPiece(v);
    TabbedLineIsMissed(v);
    AddressPiece(ip);
    AddressEnds(ip);
    NoKeyLine(D.AddressText(ip));
    HeaderPiece();
    HeaderIsSeen();
    InsertLines("[Interface]", TabbedText(v), D.AddressText(ip));
  }

  /** Read in an interface section, the tabbed line sets the key and the address line does not. */
  lemma TabbedLines(v: string, ip: string)
    requires Plain(v) && D.IsV4(ip)
    ensures Fold(OPENED, [TabbedText(v), D.AddressText(ip)])
         == Ok(OPENED.(all := BLANK.(addresses := [Cidr(ip, 32)], privateKey := Some(v))))
    ensures KeySetByAll("[interface]", [TabbedText(v), D.AddressText(ip)]) == Some(v)
  {
    var a, addr := TabbedText(v), D.AddressText(ip);
    TabbedLineIsMissed(v);
    TabbedSets(v);
    hide D.IsV4, D.AddressText, TabbedText, Step, Fold, Plain, KeySetBy, KeySetByAll, KeyLine;
    FoldOne(OPENED, a, [addr]);
    assert [a] + [addr] == [a, addr];
    KeyThenAddress(v, ip);
    FoldWithKey(OPENED, None, [a, addr]);
  }

  lemma TabbedSets(v: string)
    requires Plain(v)
    ensures Step(OPENED, TabbedText(v)) == Ok(WithKey(OPENED, Some(v)))
  {
    var line := TabbedText(v);
    assert line[0] == 'P' && line[|line| - 1] == v[|v| - 1];
    TrimSnug(line, IsBlankOrNewline);
    TabbedEntry(v);
    hide Trim, Entry;
  }

  lemma TabbedParses(v: string, ip: string)
    requires Plain(v) && D.IsV4(ip)
    ensures Parse(TabbedConfig(v, ip)).Ok?
  {
    hide D.IsV4, D.AddressText, TabbedText, TabbedConfig, Plain, EditOf, KeySetByAll, IsSection;
    hide Split, Fold, Lacks, Lower;
    var text, lines := TabbedConfig(v, ip), [TabbedText(v), D.AddressText(ip)];
    TabbedEdit(v, ip);
    TabbedLines(v, ip);
    InterfaceWord();
    OpensSection(START, "[Interface]");
    FoldOne(START, "[Interface]", lines);
    assert ["[Interface]"] + lines == Split(text, IsNewline);
  }

  /** An insertion after the first piece, in a text without further breaks. */
  lemma InsertedAfterFirst(text: string, h: string, lines: seq<string>)
    requires EditOf(text) == Insert(1) && Split(text, IsLineFeed) == [h] + lines && AllLack(lines, IsNewline)
    ensures CleanEdit(text) && CutOf(text).after == lines && WrittenIn(text) == "[interface]"
  {
    hide Split, SplitEach, EditOf, Lacks, SectionAfterAll;
    SplitEachPlain(lines, IsNewline);
    assert Split(text, IsLineFeed)[1..] == lines;
    InsertedInInterface(text);
  }

  /** A whole config whose own key stays in force after injection: a tab stands before its equals sign. */
  lemma TabbedKeyWins(v: string, ip: string, k: string)
    requires Plain(v) && D.IsV4(ip) && Plain(k) && k != v
    ensures Parse(TabbedConfig(v, ip)).Ok? && Parse(Edited(TabbedConfig(v, ip), k)).Ok?
    ensures Parse(Edited(TabbedConfig(v, ip), k)).value.fields.privateKey == Some(v) != Some(k)
  {
    hide D.IsV4, D.AddressText, TabbedText, Split, Fold, TabbedConfig, Plain, EditOf, Edited, CutOf, CleanEdit, Parse;
    hide KeySetByAll, Lacks, WrittenIn, Snug;
    var text, lines := TabbedConfig(v, ip), [TabbedText(v), D.AddressText(ip)];
    TabbedEdit(v, ip);
    TabbedLines(v, ip);
    TabbedParses(v, ip);
    TabbedPiece(v);
    AddressPiece(ip);
    assert ["[Interface]"] + lines == Split(text, IsLineFeed);
    InsertedAfterFirst(text, "[Interface]", lines);
    InjectionChangesOnlyTheKey(text, k);
  }

  // ----- printed configs that are not read back -----

  lemma V4Of(a: string, b: string, c: string, d: string)
    requires D.Octet(a) && D.Octet(b) && D.Octet(c) && D.Octet(d)
    ensures D.IsV4(a + "." + (b + "." + (c + "." + d)))
  {
    hide Split, Number;
    SplitPlain(a, D.IsDot);
    SplitPlain(b, D.IsDot);
    SplitPlain(c, D.IsDot);
    SplitPlain(d, D.IsDot);
    SplitAround(c, '.', d, D.IsDot);
    SplitAround(b, '.', c + "." + d, D.IsDot);
    SplitAround(a, '.', b + "." + (c + "." + d), D.IsDot);
    assert c + ['.'] + d == c + "." + d && b + ['.'] + (c + "." + d) == b + "." + (c + "." + d);
    assert a + ['.'] + (b + "." + (c + "." + d)) == a + "." + (b + "." + (c + "." + d));
    assert [a] + ([b] + ([c] + [d])) == [a, b, c, d];
  }

  lemma SmallOctets()
    ensures D.Octet("10") && D.Octet("0") && D.Octet("1") && D.Octet("2")
  {
    assert "10"[..1] == "1" && "1"[..0] == "" && "0"[..0] == "" && "2"[..0] == "";
    assert Number("1") == 1 && Number("0") == 0 && Number("2") == 2;
  }

  function HomeAddress(): string {
    "10.0.0.1"
  }

  function PeerAddress(): string {
    "10.0.0.2"
  }

  lemma ExampleAddresses()
    ensures D.IsV4(HomeAddress()) && D.IsV4(PeerAddress()) && HomeAddress() != PeerAddress()
  {
    hide D.Octet, D.IsV4;
    SmallOctets();
    V4Of("10", "0", "0", "1");
    V4Of("10", "0", "0", "2");
    assert "10" + "." + ("0" + "." + ("0" + "." + "1")) == HomeAddress();
    assert "10" + "." + ("0" + "." + ("0" + "." + "2")) == PeerAddress();
    assert HomeAddress()[7] != PeerAddress()[7];
  }

  /** 43 characters of the alphabet and the padding. */
  function SomeKey(): string {
    seq(43, _ => 'A') + "="
  }

  function BrokenKey(): string {
    "\n" + SomeKey()
  }

  lemma SomeKeyDecodes()
    ensures D.KeyDecodes(SomeKey()) && Lacks(SomeKey(), D.IsReturn)
  {
    assert Lacks(SomeKey(), D.IsReturn);
    NothingToDrop(SomeKey());
  }

  lemma LeadingReturn(key: string)
    ensures D.WithoutReturns("\n" + key) == D.WithoutReturns(key) && !Lacks("\n" + key, IsNewline)
  {
    var s := "\n" + key;
    assert s[0] == '\n' && s[1..] == key && IsNewline(s[0]);
    assert D.WithoutReturns(s) == "" + D.WithoutReturns(key);
  }

  lemma BrokenKeyDecodes()
    ensures D.KeyDecodes(BrokenKey()) && !Lacks(BrokenKey(), IsNewline)
  {
    hide SomeKey, D.WithoutReturns, Lacks;
    SomeKeyDecodes();
    LeadingReturn(SomeKey());
  }

  /** What the app reads is not what the printer was given. */
  predicate IsMisread(ip: string, peers: seq<D.Peer>) {
    var r := Parse(D.Unlines(D.AllLines(ip, peers)));
    !(r.Ok? && SaysWhatWasPrinted(r.value, ip, peers))
  }

  lemma OneBrokenPeer(ip: string, p: D.Peer, hubKey: string, v6: string -> bool)
    requires D.IsV4(ip) && D.PeerOk(ip, p, hubKey, v6) && !Unbroken(p)
    ensures D.Acceptable(ip, [p], hubKey, v6) && IsMisread(ip, [p])
  {
    hide D.IsV4, D.PeerOk, Unbroken, Parse, D.Unlines, D.AllLines, SaysWhatWasPrinted;
    assert !Unbroken([p][0]);
    RenderedReadsBackIff(ip, [p], hubKey, v6);
  }

  /** An accepted call whose text is not read back: a line break in front of a key. */
  lemma BrokenKeyIsMisread(hubKey: string, v6: string -> bool)
    requires hubKey != BrokenKey()
    ensures var peers := [D.Peer(BrokenKey(), PeerAddress(), "")];
      D.Acceptable(HomeAddress(), peers, hubKey, v6) && IsMisread(HomeAddress(), peers)
  {
    hide D.IsV4, BrokenKey, D.KeyDecodes, D.Acceptable, IsMisread, Lacks, HomeAddress, PeerAddress;
    ExampleAddresses();
    BrokenKeyDecodes();
    OneBrokenPeer(HomeAddress(), D.Peer(BrokenKey(), PeerAddress(), ""), hubKey, v6);
  }

  lemma LastAt(s: string, c: char, i: nat)
    requires i < |s| && s[i] == c && forall j :: i < j < |s| ==> s[j] != c
    ensures D.LastIndexOf(s, c) == i
  {
  }

  lemma FirstAt(s: string, c: char, i: nat)
    requires i < |s| && s[i] == c && forall j :: 0 <= j < i ==> s[j] != c
    ensures D.IndexOf(s, c) == i
  {
  }

  /** A bracketed host and a port are taken apart again. */
  lemma BracketedSplits(host: string, port: string)
    requires '[' !in host && ']' !in host && Digits(port)
    ensures D.SplitHostPort("[" + host + "]:" + port) == Some((host, port))
  {
    hide D.LastIndexOf, D.IndexOf;
    var s := "[" + host + "]:" + port;
    var end := |host| + 1;
    assert s[0] == '[' && s[end] == ']' && s[end + 1] == ':';
    assert forall j :: 1 <= j < end ==> s[j] == host[j - 1] && host[j - 1] in host;
    assert forall j :: end + 2 <= j < |s| ==> s[j] == port[j - end - 2] && IsDigit(s[j]);
    assert s[1..end] == host && s[end + 2..] == port;
    LastAt(s, ':', end + 1);
    FirstAt(s, ']', end);
    assert '[' !in s[1..] && ']' !in s[end + 1..];
  }

  /** An IPv6 literal whose zone is a line break. */
  function ZonedHost(): string {
    "2001:db8::1%\n"
  }

  function ZonedEndpoint(): string {
    "[" + ZonedHost() + "]:" + "51820"
  }

  lemma ZonedHostIs()
    ensures '[' !in ZonedHost() && ']' !in ZonedHost() && ':' in ZonedHost() && !Lacks(ZonedHost(), IsNewline)
  {
    assert ZonedHost()[4] == ':' && ZonedHost()[12] == '\n' && IsNewline(ZonedHost()[12]);
  }

  lemma ExamplePort()
    ensures Digits("51820") && D.PortOk("51820")
  {
    assert "51820"[..4] == "5182" && "5182"[..3] == "518" && "518"[..2] == "51" && "51"[..1] == "5" && "5"[..0] == "";
    assert Number("5") == 5 && Number("51") == 51 && Number("518") == 518 && Number("5182") == 5182;
  }

  lemma ZonedEndpointIs(v6: string -> bool)
    requires v6(ZonedHost())
    ensures D.ValidEndpoint(ZonedEndpoint(), v6) && ZonedEndpoint() != "" && !Lacks(ZonedEndpoint(), IsNewline)
  {
    ZonedHostIs();
    ExamplePort();
    hide D.PortOk, ZonedHost, D.SplitHostPort;
    BracketedSplits(ZonedHost(), "51820");
    var i :| 0 <= i < |ZonedHost()| && IsNewline(ZonedHost()[i]);
    assert ZonedEndpoint()[i + 1] == ZonedHost()[i];
  }

  lemma EndpointPeerOk(ip: string, p: D.Peer, hubKey: string, v6: string -> bool)
    requires D.KeyDecodes(p.publicKey) && p.publicKey != hubKey && D.IsV4(p.overlay) && p.overlay != ip
    requires D.ValidEndpoint(p.endpoint, v6) && !Lacks(p.endpoint, IsNewline)
    ensures D.PeerOk(ip, p, hubKey, v6) && !Unbroken(p)
  {
  }

  /** An accepted call whose text is not read back: a line break as the zone of an endpoint's address. */
  lemma BrokenEndpointIsMisread(hubKey: string, v6: string -> bool)
    requires hubKey != SomeKey() && v6(ZonedHost())
    ensures var peers := [D.Peer(SomeKey(), PeerAddress(), ZonedEndpoint())];
      D.Acceptable(HomeAddress(), peers, hubKey, v6) && IsMisread(HomeAddress(), peers)
  {
    hide *;
    ExampleAddresses();
    SomeKeyDecodes();
    ZonedEndpointIs(v6);
    var p := D.Peer(SomeKey(), PeerAddress(), ZonedEndpoint());
    EndpointPeerOk(HomeAddress(), p, hubKey, v6);
    OneBrokenPeer(HomeAddress(), p, hubKey, v6);
  }
}
