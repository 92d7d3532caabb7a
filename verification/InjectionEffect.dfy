/**
 What injecting a private key does to the parsed config, for every text the
 parser accepts. The injection works on the pieces between line feeds, the parser
 on the lines between any line breaks, so one piece can hold several lines.
 */
module InjectionEffect {
  import opened Options
  import opened Text
  import opened WireGuardConfig
  import opened KeyInjection

  // ----- the parser's lines around the edit -----

  /** before and after are the parser's lines the edit keeps, lost those it takes out. */
  datatype Cut = Cut(before: seq<string>, lost: seq<string>, after: seq<string>)

  function LinesOf(pieces: seq<string>): seq<string> {
    SplitEach(pieces, IsNewline)
  }

  function CutOf(original: string): Cut {
    var pieces := Split(original, IsLineFeed);
    match EditOf(original)
    case Replace(i) => Cut(LinesOf(pieces[..i]), Split(pieces[i], IsNewline), LinesOf(pieces[i + 1..]))
    case Insert(i) => Cut(LinesOf(pieces[..i]), [], LinesOf(pieces[i..]))
    case Prepend => Cut([], [], LinesOf(pieces))
  }

  /** The lines the edit puts in. */
  function Written(original: string, k: string): seq<string> {
    if EditOf(original).Prepend? then ["[Interface]", KeyText(k)] else [KeyText(k)]
  }

  lemma LinesOfPieces(text: string)
    ensures Split(text, IsNewline) == LinesOf(Split(text, IsLineFeed))
  {
    hide Split, Join, SplitEach;
    JoinOfSplit(text, '\n', IsLineFeed);
    SplitOfJoin(Split(text, IsLineFeed), '\n', IsNewline);
  }

  lemma LinesAt(pieces: seq<string>, i: nat)
    requires i < |pieces|
    ensures LinesOf(pieces[i..]) == Split(pieces[i], IsNewline) + LinesOf(pieces[i + 1..])
  {
    hide Split;
    assert pieces[i..][0] == pieces[i] && pieces[i..][1..] == pieces[i + 1..];
  }

  lemma OriginalLines(original: string)
    ensures var c := CutOf(original); Split(original, IsNewline) == c.before + c.lost + c.after
  {
    hide Split, SplitEach, EditOf;
    var pieces, e := Split(original, IsLineFeed), EditOf(original);
    LinesOfPieces(original);
    if !e.Prepend? {
      SplitEachConcat(pieces[..e.i], pieces[e.i..], IsNewline);
      assert pieces[..e.i] + pieces[e.i..] == pieces;
      if e.Replace? {
        LinesAt(pieces, e.i);
      }
    }
  }

  lemma LinesOfOne(line: string, pieces: seq<string>)
    requires Lacks(line, IsNewline)
    ensures LinesOf([line] + pieces) == [line] + LinesOf(pieces)
  {
    SplitPlain(line, IsNewline);
    hide Split;
    assert ([line] + pieces)[1..] == pieces;
  }

  /** Pieces with one key line among them. */
  lemma LinesWithKey(head: seq<string>, k: string, tail: seq<string>)
    requires Plain(k)
    ensures Split(Join(head + ([KeyText(k)] + tail), '\n'), IsNewline) == LinesOf(head) + [KeyText(k)] + LinesOf(tail)
  {
    hide Split, Join, SplitEach, Plain, KeyText, Lacks;
    KeyTextLacks(k);
    LinesOfOne(KeyText(k), tail);
    SplitOfJoin(head + ([KeyText(k)] + tail), '\n', IsNewline);
    SplitEachConcat(head, [KeyText(k)] + tail, IsNewline);
    Associate(LinesOf(head), [KeyText(k)], LinesOf(tail));
  }

  lemma TwoLinesFirst(a: string, b: string, rest: string)
    requires Lacks(a, IsNewline) && Lacks(b, IsNewline)
    ensures Split(a + "\n" + b + "\n" + rest, IsNewline) == [a, b] + Split(rest, IsNewline)
  {
    hide Split;
    UnbrokenIsOneLine(a);
    UnbrokenIsOneLine(b);
    hide Lacks;
    SplitAround(a, '\n', b + ['\n'] + rest, IsNewline);
    SplitAround(b, '\n', rest, IsNewline);
    assert a + ['\n'] + (b + ['\n'] + rest) == a + "\n" + b + "\n" + rest;
    assert [a] + ([b] + Split(rest, IsNewline)) == [a, b] + Split(rest, IsNewline);
  }

  lemma InterfaceWord()
    ensures Lacks("[Interface]", IsNewline) && IsSection("[Interface]") && Lower("[Interface]") == "[interface]"
    ensures "[Interface]" + "\n" == "[Interface]\n"
  {
  }

  lemma EditedLines(original: string, k: string)
    requires Plain(k)
    ensures var c := CutOf(original);
      Split(Edited(original, k), IsNewline) == c.before + Written(original, k) + c.after
  {
    hide Split, SplitEach, Join, EditOf, Plain, KeyText;
    var pieces, e := Split(original, IsLineFeed), EditOf(original);
    match e
    case Replace(i) =>
      LinesWithKey(pieces[..i], k, pieces[i + 1..]);
      assert pieces[i := KeyText(k)] == pieces[..i] + ([KeyText(k)] + pieces[i + 1..]);
    case Insert(i) =>
      LinesWithKey(pieces[..i], k, pieces[i..]);
      assert pieces[..i] + [KeyText(k)] + pieces[i..] == pieces[..i] + ([KeyText(k)] + pieces[i..]);
    case Prepend =>
      LinesOfPieces(original);
      KeyTextLacks(k);
      InterfaceWord();
      TwoLinesFirst("[Interface]", KeyText(k), original);
  }

  // ----- where the key is written -----

  /** The section the parser is in when it reads the written key. */
  function WrittenIn(original: string): string {
    if EditOf(original).Prepend? then "[interface]" else SectionAfterAll("", CutOf(original).before)
  }

  lemma HeaderHoldsNoBreak(raw: string)
    requires InterfaceHeader(raw)
    ensures Lacks(raw, IsNewline) && SectionAfterAny(raw)
  {
    hide Trim;
    var line := Trim(raw, IsBlank);
    forall i | 0 <= i < |line| ensures !IsNewline(line[i]) {
      assert Lower(line)[i] == LowerChar(line[i]) && Lower(line)[i] in "[interface]";
    }
    TrimDrops(raw, IsBlank, IsNewline);
    TrimOfLine(raw);
  }

  /** Whatever the section was, the line opens an interface section. */
  ghost predicate SectionAfterAny(raw: string) {
    forall section: string :: SectionAfter(section, raw) == "[interface]"
  }

  /** A line is inserted only where the parser, too, is in an interface section. */
  lemma InsertedInInterface(original: string)
    requires EditOf(original).Insert?
    ensures WrittenIn(original) == "[interface]"
  {
    hide Split, SplitEach, Trim, FindEdit, InterfaceHeader, SectionAfter, Lacks;
    var pieces, i := Split(original, IsLineFeed), EditOf(original).i;
    FindEditPicks(pieces, 0, "", None);
    var head, last := pieces[..i - 1], pieces[i - 1];
    HeaderHoldsNoBreak(last);
    assert pieces[..i] == head + ([last] + []);
    SplitEachConcat(head, [last] + [], IsNewline);
    LinesOfOne(last, []);
    LinesOfNone();
    var lines := LinesOf(pieces[..i]);
    assert lines == LinesOf(head) + [last];
    assert lines[..|lines| - 1] == LinesOf(head) && lines[|lines| - 1] == last;
  }

  lemma LinesOfNone()
    ensures LinesOf([]) == []
  {
  }

  // ----- edits that change nothing but the key -----

  predicate AllInert(section: string, lines: seq<string>) {
    forall i :: 0 <= i < |lines| ==> Inert(section, lines[i])
  }

  predicate IsHeader(raw: string) {
    IsSection(Trim(raw, IsBlankOrNewline))
  }

  /** Where the first section header is, or the number of lines. */
  function HeaderAt(lines: seq<string>): (n: nat)
    ensures n <= |lines| && (n < |lines| ==> IsHeader(lines[n]))
    ensures forall i :: 0 <= i < n ==> !IsHeader(lines[i])
  {
    if lines == [] || IsHeader(lines[0]) then 0 else 1 + HeaderAt(lines[1..])
  }

  /**
   What can be checked on the text before the call: the lines inside the replaced piece set nothing but the
   private key where the parser stands; or, for a prepended section, the lines before the first header set
   nothing but the private key when read in it. An insertion is always clean.
   */
  predicate CleanEdit(original: string) {
    var c := CutOf(original);
    match EditOf(original)
    case Replace(_) => AllInert(WrittenIn(original), c.lost)
    case Insert(_) => true
    case Prepend => AllInert("[interface]", c.after[..HeaderAt(c.after)])
  }

  /** A replaced piece without a further line break is always clean. */
  lemma UnbrokenPieceIsClean(original: string)
    requires var e := EditOf(original); e.Replace? && Lacks(Split(original, IsLineFeed)[e.i], IsNewline)
    ensures CleanEdit(original)
  {
    hide Split, SplitEach, FindEdit, KeyLine, Inert, Lacks, SectionAfterAll;
    var pieces, i := Split(original, IsLineFeed), EditOf(original).i;
    FindEditPicks(pieces, 0, "", None);
    KeyLineIsInert(WrittenIn(original), pieces[i]);
    UnbrokenIsOneLine(pieces[i]);
  }

  lemma UnbrokenIsOneLine(piece: string)
    requires Lacks(piece, IsNewline)
    ensures Split(piece, IsNewline) == [piece]
  {
    SplitPlain(piece, IsNewline);
  }

  lemma {:induction false} InertFold(m: Machine, lines: seq<string>) returns (x: Option<string>)
    requires AllInert(m.section, lines)
    ensures Fold(m, lines) == Ok(WithKey(m, x))
    ensures m.section != "[interface]" ==> x == m.all.privateKey
    decreases |lines|
  {
    hide Step, Inert;
    if lines == [] {
      x := m.all.privateKey;
      assert WithKey(m, x) == m;
    } else {
      var n := |lines| - 1;
      var y := InertFold(m, lines[..n]);
      InertStep(WithKey(m, y), lines[n]);
      OnlyInterfacesSetKeys(m.section, lines[n]);
      x := Later(y, KeySetBy(m.section, lines[n]));
    }
  }

  lemma OnlyInterfacesSetKeys(section: string, raw: string)
    ensures section != "[interface]" ==> KeySetBy(section, raw) == None
  {
  }

  function Rekeyed(c: Config, key: Option<string>): Config {
    c.(fields := c.fields.(privateKey := key))
  }

  lemma FinishKeyed(r: Result<Machine>, key: Option<string>)
    requires Finish(r).Ok?
    ensures Finish(Keyed(r, key)) == Ok(Rekeyed(Finish(r).value, key))
  {
  }

  /** The private key after the edit. */
  function NewKey(original: string, k: string): Option<string>
    requires Parse(original).Ok?
  {
    if WrittenIn(original) == "[interface]" then Later(Some(k), KeySetByAll("[interface]", CutOf(original).after))
    else Parse(original).value.fields.privateKey
  }

  /** The parser's state where the edit is. */
  lemma StateAtEdit(original: string) returns (m: Machine)
    requires Parse(original).Ok?
    ensures var c := CutOf(original);
      && Fold(START, c.before) == Ok(m) && m.section == SectionAfterAll("", c.before)
      && Finish(FoldOn(Fold(m, c.lost), c.after)) == Parse(original)
  {
    hide Fold, CutOf, SectionAfterAll;
    var c := CutOf(original);
    OriginalLines(original);
    FoldConcat(START, c.before + c.lost, c.after);
    FoldConcat(START, c.before, c.lost);
    FoldWithKey(START, None, c.before);
    m := Fold(START, c.before).value;
  }

  lemma EditedParse(original: string, k: string, m: Machine)
    requires Plain(k) && Fold(START, CutOf(original).before) == Ok(m)
    ensures Parse(Edited(original, k)) == Finish(FoldOn(Fold(m, Written(original, k)), CutOf(original).after))
  {
    hide Fold, CutOf, Edited, Written, Plain;
    var c := CutOf(original);
    EditedLines(original, k);
    FoldConcat(START, c.before + Written(original, k), c.after);
    FoldConcat(START, c.before, Written(original, k));
  }

  lemma WrittenOne(m: Machine, k: string)
    requires Plain(k)
    ensures Fold(m, [KeyText(k)]) == Ok(if m.section == "[interface]" then WithKey(m, Some(k)) else m)
  {
    hide Step, Plain, KeyText;
    if m.section == "[interface]" {
      KeyTextSets(m, k);
    } else {
      KeyTextIgnored(m, k);
    }
    assert [KeyText(k)][..0] == [];
  }

  lemma ReplacedOrInserted(original: string, k: string)
    requires Plain(k) && Parse(original).Ok? && CleanEdit(original) && !EditOf(original).Prepend?
    ensures Parse(Edited(original, k)) == Ok(Rekeyed(Parse(original).value, NewKey(original, k)))
  {
    var m := StateAtEdit(original);
    EditedParse(original, k, m);
    WrittenOne(m, k);
    if EditOf(original).Insert? {
      InsertedInInterface(original);
    }
    var c := CutOf(original);
    assert AllInert(m.section, c.lost);
    var x := InertFold(m, c.lost);
    hide Parse, Fold, CutOf, KeyText, Plain, EditOf, KeySetByAll, SectionAfterAll, AllInert, Edited, CleanEdit;
    var y := if m.section == "[interface]" then Some(k) else m.all.privateKey;
    assert WithKey(m, m.all.privateKey) == m;
    FoldWithKey(m, x, c.after);
    FoldWithKey(m, y, c.after);
    assert Parse(original) == Finish(Keyed(Fold(m, c.after), Later(x, KeySetByAll(m.section, c.after))));
    Rekey(Fold(m, c.after), Later(x, KeySetByAll(m.section, c.after)), Later(y, KeySetByAll(m.section, c.after)));
  }

  lemma Rekey(r: Result<Machine>, x: Option<string>, y: Option<string>)
    requires Finish(Keyed(r, x)).Ok?
    ensures Finish(Keyed(r, y)) == Ok(Rekeyed(Finish(Keyed(r, x)).value, y))
    ensures Finish(Keyed(r, x)).value.fields.privateKey == x
  {
  }

  const OPENED: Machine := Machine("[interface]", BLANK, BLANK, [])

  lemma WrittenTwo(k: string)
    requires Plain(k)
    ensures Fold(START, ["[Interface]", KeyText(k)]) == Ok(WithKey(OPENED, Some(k)))
  {
    hide Plain, KeyText, Lower, Lacks, IsSection;
    InterfaceWord();
    OpensSection(START, "[Interface]");
    hide Step;
    KeyTextSets(OPENED, k);
    FoldOne(START, "[Interface]", [KeyText(k)]);
    WrittenOne(OPENED, k);
    assert ["[Interface]"] + [KeyText(k)] == ["[Interface]", KeyText(k)];
  }

  lemma OpensSection(m: Machine, line: string)
    requires IsSection(line) && Lacks(line, IsNewline)
    ensures Step(m, line) == Ok(Machine(Lower(line), m.all, BLANK, Closed(m)))
  {
    TrimSnug(line, IsBlankOrNewline);
    hide Trim, Lower, Entry;
  }

  lemma HeaderOpens(m: Machine, raw: string)
    requires IsHeader(raw)
    ensures Step(m, raw) == Ok(Machine(SectionAfter("", raw), m.all, BLANK, Closed(m)))
  {
    hide Trim, Lower, Entry;
  }

  /** Before any header the parser takes nothing. */
  lemma UnheadedIsInert(lines: seq<string>)
    requires forall i :: 0 <= i < |lines| ==> !IsHeader(lines[i])
    ensures AllInert("", lines)
  {
    hide Trim, Entry;
  }

  lemma NothingBeforeHeader(lines: seq<string>)
    requires forall i :: 0 <= i < |lines| ==> !IsHeader(lines[i])
    ensures Fold(START, lines) == Ok(START)
  {
    hide AllInert, IsHeader;
    UnheadedIsInert(lines);
    var x := InertFold(START, lines);
    assert WithKey(START, None) == START;
  }

  /** A header read after the opened section, or first of all: the key apart, it makes no difference. */
  lemma FromTheHeaderOn(x: Option<string>, tail: seq<string>)
    requires tail != [] && IsHeader(tail[0])
    ensures exists y :: Fold(WithKey(OPENED, x), tail) == Keyed(Fold(START, tail), y)
  {
    hide Step, Fold, IsHeader;
    var rest := tail[1..];
    assert tail == [tail[0]] + rest;
    HeaderOpens(START, tail[0]);
    HeaderOpens(WithKey(OPENED, x), tail[0]);
    FoldOne(START, tail[0], rest);
    FoldOne(WithKey(OPENED, x), tail[0], rest);
    var n := Step(START, tail[0]).value;
    assert Step(WithKey(OPENED, x), tail[0]) == Ok(WithKey(n, x));
    FoldWithKey(n, x, rest);
  }

  lemma OpenedFold(after: seq<string>, y: Option<string>)
    requires AllInert("[interface]", after[..HeaderAt(after)]) && Finish(Fold(START, after)).Ok?
    ensures Keyed(Fold(OPENED, after), y) == Keyed(Fold(START, after), y)
  {
    hide Fold, AllInert, IsHeader, HeaderAt;
    var near, tail := after[..HeaderAt(after)], after[HeaderAt(after)..];
    assert near + tail == after;
    FoldConcat(START, near, tail);
    FoldConcat(OPENED, near, tail);
    NothingBeforeHeader(near);
    var x := InertFold(OPENED, near);
    FoldNone(START);
    if tail != [] {
      FromTheHeaderOn(x, tail);
    }
  }

  lemma Prepended(original: string, k: string)
    requires Plain(k) && Parse(original).Ok? && CleanEdit(original) && EditOf(original).Prepend?
    ensures Parse(Edited(original, k)) == Ok(Rekeyed(Parse(original).value, NewKey(original, k)))
  {
    var after := CutOf(original).after;
    assert AllInert("[interface]", after[..HeaderAt(after)]) && CutOf(original) == Cut([], [], after);
    assert Written(original, k) == ["[Interface]", KeyText(k)] && WrittenIn(original) == "[interface]";
    hide Fold, Parse, CutOf, EditOf, Edited, Written, WrittenIn, HeaderAt;
    hide Plain, KeySetByAll, AllInert, CleanEdit, KeyText;
    var m := StateAtEdit(original);
    FoldNone(START);
    EditedParse(original, k, START);
    WrittenTwo(k);
    var key := Later(Some(k), KeySetByAll("[interface]", after));
    OpenedFold(after, key);
    FoldWithKey(OPENED, Some(k), after);
    FinishKeyed(Fold(START, after), key);
  }

  lemma FoldNone(m: Machine)
    ensures Fold(m, []) == Ok(m)
  {
  }

  /**
   For every text the parser accepts, a clean edit changes the private key and nothing else. The key becomes k
   when the parser reads the written line in an interface section and no later line sets another, and stays
   what it was when the parser reads it in some other section.
   */
  lemma InjectionChangesOnlyTheKey(original: string, k: string)
    requires Plain(k) && Parse(original).Ok? && CleanEdit(original)
    ensures Parse(Edited(original, k)) == Ok(Rekeyed(Parse(original).value, NewKey(original, k)))
  {
    hide Parse, CleanEdit, Edited, NewKey, Plain;
    if EditOf(original).Prepend? {
      Prepended(original, k);
    } else {
      ReplacedOrInserted(original, k);
    }
  }

  /** The state in which the written line is read. */
  lemma StateAtWritten(original: string, k: string) returns (m: Machine)
    requires Plain(k) && Parse(Edited(original, k)).Ok?
    ensures Fold(START, CutOf(original).before) == Ok(m)
    ensures m.section == SectionAfterAll("", CutOf(original).before)
    ensures m.all.privateKey == KeySetByAll("", CutOf(original).before)
  {
    hide Fold, CutOf, Written, Edited, Plain, SectionAfterAll, KeySetByAll;
    var c := CutOf(original);
    EditedLines(original, k);
    FoldConcat(START, c.before + Written(original, k), c.after);
    FoldConcat(START, c.before, Written(original, k));
    FoldWithKey(START, None, c.before);
    assert WithKey(START, None) == START;
    m := Fold(START, c.before).value;
  }

  /** Which private key the edited text has, whatever else the edit does. */
  lemma KeyInForce(original: string, k: string)
    requires Plain(k) && Parse(Edited(original, k)).Ok?
    ensures var c, section := CutOf(original), WrittenIn(original);
      Parse(Edited(original, k)).value.fields.privateKey ==
        Later(if section == "[interface]" then Some(k) else KeySetByAll("", c.before), KeySetByAll(section, c.after))
  {
    var c, section := CutOf(original), WrittenIn(original);
    var m := StateAtWritten(original, k);
    EditedParse(original, k, m);
    if EditOf(original).Prepend? {
      assert c.before == [] && Written(original, k) == ["[Interface]", KeyText(k)];
      FoldNone(START);
      WrittenTwo(k);
      hide Fold, CutOf, Edited, Plain, KeySetByAll, EditOf;
      FoldWithKey(OPENED, Some(k), c.after);
    } else {
      assert Written(original, k) == [KeyText(k)] && section == m.section;
      WrittenOne(m, k);
      hide Fold, CutOf, Edited, Plain, KeySetByAll, EditOf;
      assert WithKey(m, m.all.privateKey) == m;
      FoldWithKey(m, if section == "[interface]" then Some(k) else m.all.privateKey, c.after);
    }
  }

  /**
   For every text whose edited form parses, clean or not: the injected key is the one in force if and only if the
   parser reads it in an interface section and no later line sets another, or some other line sets it anyway.
   */
  lemma KeyTakesEffectIff(original: string, k: string)
    requires Plain(k) && Parse(Edited(original, k)).Ok?
    ensures var c, section := CutOf(original), WrittenIn(original);
      var later := KeySetByAll(section, c.after);
      Parse(Edited(original, k)).value.fields.privateKey == Some(k) <==>
        if section == "[interface]" then later == None || later == Some(k)
        else Later(KeySetByAll("", c.before), later) == Some(k)
  {
    hide Parse, Edited, Plain, CutOf, KeySetByAll, WrittenIn;
    KeyInForce(original, k);
  }

  /** A clean edit always parses, so for it the condition decides alone. */
  lemma CleanKeyTakesEffectIff(original: string, k: string)
    requires Plain(k) && Parse(original).Ok? && CleanEdit(original)
    ensures Parse(Edited(original, k)).Ok?
    ensures Parse(Edited(original, k)).value.fields.privateKey == Some(k) <==>
      var later := KeySetByAll("[interface]", CutOf(original).after);
      if WrittenIn(original) == "[interface]" then later == None || later == Some(k)
      else Parse(original).value.fields.privateKey == Some(k)
  {
    hide Parse, CleanEdit, Edited, Plain, CutOf, KeySetByAll, WrittenIn;
    InjectionChangesOnlyTheKey(original, k);
  }

  // ----- exactly when nothing else changes -----

  /** The two results differ in the private key at most. */
  predicate SameButKey(a: Result<Config>, b: Result<Config>) {
    a.Ok? && b.Ok? && Rekeyed(a.value, None) == Rekeyed(b.value, None)
  }

  /** Which of the settings that keep only their last value some lines assign. */
  datatype Marks = Marks(mtu: bool, publicKey: bool, presharedKey: bool, endpoint: bool, keepalive: bool)

  const UNMARKED: Marks := Marks(false, false, false, false, false)

  function Marking(s: Marks, section: string, key: string): Marks {
    Marks(s.mtu || (section == "[interface]" && key == "mtu"),
          s.publicKey || (section == "[peer]" && key == "publickey"),
          s.presharedKey || (section == "[peer]" && key == "presharedkey"),
          s.endpoint || (section == "[peer]" && key == "endpoint"),
          s.keepalive || (section == "[peer]" && key == "persistentkeepalive"))
  }

  function MarkedBy(s: Marks, section: string, raw: string): Marks {
    var line := Trim(raw, IsBlankOrNewline);
    if line == "" || line[0] == '#' || IsSection(line) || Entry(line).None? then s
    else Marking(s, section, Entry(line).value.0)
  }

  function Marked(section: string, lines: seq<string>): Marks
    decreases |lines|
  {
    if lines == [] then UNMARKED
    else
      var n := |lines| - 1;
      MarkedBy(Marked(section, lines[..n]), SectionAfterAll(section, lines[..n]), lines[n])
  }

  function Last<T>(again: bool, earlier: T, later: T): T {
    if again then later else earlier
  }

  /** The settings f with z assigned on top, where s says which single values z assigns. */
  function Over(f: Fields, z: Fields, s: Marks): Fields {
    Fields(f.addresses + z.addresses, f.dns + z.dns, f.allowedIPs + z.allowedIPs,
           Last(s.mtu, f.mtu, z.mtu), Last(s.endpoint, f.endpointHost, z.endpointHost),
           Later(f.privateKey, z.privateKey), Last(s.publicKey, f.publicKey, z.publicKey),
           Last(s.presharedKey, f.presharedKey, z.presharedKey), Last(s.endpoint, f.endpoint, z.endpoint),
           Last(s.keepalive, f.keepalive, z.keepalive))
  }

  ghost predicate OverCommutes(f: Fields, z: Fields, s: Marks, section: string, key: string, value: string) {
    && (Apply(Over(f, z, s), section, key, value).Ok? <==> Apply(z, section, key, value).Ok?)
    && (Apply(z, section, key, value).Ok? ==>
          Apply(Over(f, z, s), section, key, value)
            == Ok(Over(f, Apply(z, section, key, value).value, Marking(s, section, key))))
  }

  lemma InterfaceOver(f: Fields, z: Fields, s: Marks, key: string, value: string)
    ensures OverCommutes(f, z, s, "[interface]", key, value)
  {
    hide ParseAddresses, ParseStrings, ParseInt, EndpointHost, Trim;
    if key == "address" && ParseAddresses(value).Ok? {
      AppendAssociates(f.addresses, z.addresses, ParseAddresses(value).value);
    } else if key == "dns" {
      AppendAssociates(f.dns, z.dns, ParseStrings(value));
    }
  }

  lemma RoutesOver(f: Fields, z: Fields, s: Marks, value: string)
    ensures OverCommutes(f, z, s, "[peer]", "allowedips", value)
  {
    hide ParseAddresses;
    if ParseAddresses(value).Ok? {
      AppendAssociates(f.allowedIPs, z.allowedIPs, ParseAddresses(value).value);
    }
  }

  lemma PeerOver(f: Fields, z: Fields, s: Marks, key: string, value: string)
    ensures OverCommutes(f, z, s, "[peer]", key, value)
  {
    if key == "allowedips" {
      hide OverCommutes;
      RoutesOver(f, z, s, value);
    } else {
      hide ParseAddresses, ParseInt, EndpointHost, Trim;
    }
  }

  lemma ApplyOver(f: Fields, z: Fields, s: Marks, section: string, key: string, value: string)
    ensures OverCommutes(f, z, s, section, key, value)
  {
    if section == "[interface]" {
      hide OverCommutes;
      InterfaceOver(f, z, s, key, value);
    } else if section == "[peer]" {
      hide OverCommutes;
      PeerOver(f, z, s, key, value);
    } else {
      hide Over;
    }
  }

  lemma AppendAssociates<T>(a: seq<T>, b: seq<T>, c: seq<T>)
    ensures a + b + c == a + (b + c)
  {
  }

  /** What the parser has after the lines that took it to z from nothing, when it had f and the peers before. */
  function Onto(f: Fields, peers: seq<Peer>, z: Machine, s: Marks): Machine {
    Machine(z.section, Over(f, z.all, s), z.current, peers + z.peers)
  }

  lemma ClosedOnto(f: Fields, peers: seq<Peer>, z: Machine, s: Marks)
    ensures Closed(Onto(f, peers, z, s)) == peers + Closed(z)
  {
    if z.section == "[peer]" {
      AppendAssociates(peers, z.peers, [PeerFrom(z.current)]);
    }
  }

  lemma StepOver(f: Fields, peers: seq<Peer>, z: Machine, s: Marks, raw: string)
    ensures Step(Onto(f, peers, z, s), raw).Ok? <==> Step(z, raw).Ok?
    ensures Step(z, raw).Ok? ==>
      Step(Onto(f, peers, z, s), raw) == Ok(Onto(f, peers, Step(z, raw).value, MarkedBy(s, z.section, raw)))
  {
    hide Trim, Entry, Apply, Over, Marking, Closed, Lower;
    var line := Trim(raw, IsBlankOrNewline);
    if line == "" || line[0] == '#' {
    } else if IsSection(line) {
      ClosedOnto(f, peers, z, s);
    } else if Entry(line).Some? {
      ApplyOver(f, z.all, s, z.section, Entry(line).value.0, Entry(line).value.1);
    }
  }

  lemma OverNothing(f: Fields)
    ensures Over(f, BLANK, UNMARKED) == f
  {
  }

  /** From a section header on, what the lines set does not depend on what was read before. */
  lemma {:induction false} FoldTail(m: Machine, tail: seq<string>)
    requires tail != [] && IsHeader(tail[0])
    ensures Fold(m, tail).Ok? <==> Fold(START, tail).Ok?
    ensures Fold(START, tail).Ok? ==>
      Fold(m, tail) == Ok(Onto(m.all, Closed(m), Fold(START, tail).value, Marked("", tail)))
    decreases |tail|
  {
    hide Step, IsHeader, Over, MarkedBy, Closed, SectionAfter;
    var n := |tail| - 1;
    if n == 0 {
      TailOfOne(m, tail[0]);
      assert tail == [tail[0]] && tail[..0] == [];
    } else {
      FoldTail(m, tail[..n]);
      if Fold(START, tail[..n]).Ok? {
        var z := Fold(START, tail[..n]).value;
        FoldWithKey(START, None, tail[..n]);
        StepOver(m.all, Closed(m), z, Marked("", tail[..n]), tail[n]);
      }
    }
  }

  lemma TailOfOne(m: Machine, raw: string)
    requires IsHeader(raw)
    ensures Step(START, raw).Ok? && Step(m, raw) == Ok(Onto(m.all, Closed(m), Step(START, raw).value, UNMARKED))
    ensures Marked("", [raw]) == UNMARKED
  {
    HeaderOpens(m, raw);
    HeaderOpens(START, raw);
    OverNothing(m.all);
    assert Closed(START) == [] && Closed(m) + [] == Closed(m);
    assert [raw][..0] == [];
    hide Over, Closed, Step, Entry;
  }

  /** The settings agree, the private key and the single values that s marks apart. */
  predicate Agree(f: Fields, g: Fields, s: Marks) {
    && f.addresses == g.addresses && f.dns == g.dns && f.allowedIPs == g.allowedIPs
    && (s.mtu || f.mtu == g.mtu) && (s.publicKey || f.publicKey == g.publicKey)
    && (s.presharedKey || f.presharedKey == g.presharedKey)
    && (s.endpoint || (f.endpoint == g.endpoint && f.endpointHost == g.endpointHost))
    && (s.keepalive || f.keepalive == g.keepalive)
  }

  /** Two states that a tail of sections takes to the same config: they agree on all the tail does not assign. */
  predicate Alike(a: Machine, b: Machine, tail: seq<string>) {
    Closed(a) == Closed(b) && Agree(a.all, b.all, Marked("", tail))
  }

  lemma Cancels<T>(a: seq<T>, b: seq<T>, c: seq<T>)
    ensures a + c == b + c <==> a == b
  {
    if a + c == b + c {
      assert a == (a + c)[..|a|] && b == (b + c)[..|b|];
    }
  }

  lemma OverCancels(f: Fields, g: Fields, z: Fields, s: Marks)
    ensures Over(f, z, s).(privateKey := None) == Over(g, z, s).(privateKey := None) <==> Agree(f, g, s)
  {
    Cancels(f.addresses, g.addresses, z.addresses);
    Cancels(f.dns, g.dns, z.dns);
    Cancels(f.allowedIPs, g.allowedIPs, z.allowedIPs);
  }

  /** The configs a tail of sections completes differ in the key at most exactly when the states were alike. */
  lemma TailDecides(a: Machine, b: Machine, tail: seq<string>)
    requires (tail == [] || IsHeader(tail[0])) && Finish(Fold(a, tail)).Ok?
    ensures SameButKey(Finish(Fold(a, tail)), Finish(Fold(b, tail))) <==> Alike(a, b, tail)
  {
    hide Fold, IsHeader, Over, Marked, Closed;
    if tail == [] {
      FoldNone(a);
      FoldNone(b);
      MarkedNone("");
    } else {
      FoldTail(a, tail);
      FoldTail(b, tail);
      var z, s := Fold(START, tail).value, Marked("", tail);
      ClosedOnto(a.all, Closed(a), z, s);
      ClosedOnto(b.all, Closed(b), z, s);
      Cancels(Closed(a), Closed(b), Closed(z));
      OverCancels(a.all, b.all, z.all, s);
      OverAddresses(a.all, z.all, s);
      OverAddresses(b.all, z.all, s);
    }
  }

  lemma OverAddresses(f: Fields, z: Fields, s: Marks)
    ensures Over(f, z, s).addresses == f.addresses + z.addresses
  {
  }

  lemma MarkedNone(section: string)
    ensures Marked(section, []) == UNMARKED
  {
  }

  /**
   By the first section header after the edit, the parser has the same peers and settings with it as without,
   apart from the private key and from single values that a later line assigns anyway.
   */
  predicate SettledByNextSection(original: string, k: string) {
    var c := CutOf(original);
    var near, tail := c.after[..HeaderAt(c.after)], c.after[HeaderAt(c.after)..];
    var was, got := Fold(START, c.before + c.lost + near), Fold(START, c.before + Written(original, k) + near);
    was.Ok? && got.Ok? && Alike(was.value, got.value, tail)
  }

  /** For every text the parser accepts: nothing but the key changes if and only if the edit settles in its section. */
  lemma OnlyTheKeyChangesIff(original: string, k: string)
    requires Plain(k) && Parse(original).Ok?
    ensures SameButKey(Parse(original), Parse(Edited(original, k))) <==> SettledByNextSection(original, k)
  {
    hide Fold, CutOf, Written, Edited, Plain, Alike, IsHeader, HeaderAt;
    var c := CutOf(original);
    var near, tail := c.after[..HeaderAt(c.after)], c.after[HeaderAt(c.after)..];
    assert near + tail == c.after;
    OriginalLines(original);
    EditedLines(original, k);
    Associate(c.before + c.lost, near, tail);
    Associate(c.before + Written(original, k), near, tail);
    FoldConcat(START, c.before + c.lost + near, tail);
    FoldConcat(START, c.before + Written(original, k) + near, tail);
    var was, got := Fold(START, c.before + c.lost + near), Fold(START, c.before + Written(original, k) + near);
    if got.Ok? {
      TailDecides(was.value, got.value, tail);
    }
  }

  // ----- the same in plain terms, for lines lost from or gained by an interface section -----

  lemma UnheadedStep(m: Machine, z: Fields, s: Marks, raw: string)
    requires m.section == "[interface]" && !IsHeader(raw)
    ensures var a, b := Step(m.(all := Over(m.all, z, s)), raw), Step(OPENED.(all := z), raw);
      && (a.Ok? <==> b.Ok?)
      && (b.Ok? ==> b.value == OPENED.(all := b.value.all)
                    && a == Ok(m.(all := Over(m.all, b.value.all, MarkedBy(s, "[interface]", raw)))))
  {
    hide Trim, Entry, Apply, Over, Marking, Lower;
    var line := Trim(raw, IsBlankOrNewline);
    if line != "" && line[0] != '#' && Entry(line).Some? {
      ApplyOver(m.all, z, s, "[interface]", Entry(line).value.0, Entry(line).value.1);
    }
  }

  /** Lines without a header, read in an interface section. */
  lemma {:induction false} UnheadedFold(m: Machine, lines: seq<string>)
    requires m.section == "[interface]" && forall i :: 0 <= i < |lines| ==> !IsHeader(lines[i])
    ensures Fold(m, lines).Ok? <==> Fold(OPENED, lines).Ok?
    ensures SectionAfterAll("[interface]", lines) == "[interface]"
    ensures Fold(OPENED, lines).Ok? ==>
      && Fold(OPENED, lines).value == OPENED.(all := Fold(OPENED, lines).value.all)
      && Fold(m, lines) == Ok(m.(all := Over(m.all, Fold(OPENED, lines).value.all, Marked("[interface]", lines))))
    decreases |lines|
  {
    hide Step, Over, MarkedBy;
    if lines == [] {
      OverNothing(m.all);
    } else {
      var n := |lines| - 1;
      UnheadedFold(m, lines[..n]);
      if Fold(OPENED, lines[..n]).Ok? {
        UnheadedStep(m, Fold(OPENED, lines[..n]).value.all, Marked("[interface]", lines[..n]), lines[n]);
      }
    }
    hide IsHeader;
  }

  /** Settings an interface section has no say in. */
  predicate InterfaceOnly(z: Fields, s: Marks) {
    z.allowedIPs == [] && !s.publicKey && !s.presharedKey && !s.endpoint && !s.keepalive
  }

  lemma InterfaceOnlyStep(z: Fields, s: Marks, raw: string)
    requires InterfaceOnly(z, s) && !IsHeader(raw) && Step(OPENED.(all := z), raw).Ok?
    ensures InterfaceOnly(Step(OPENED.(all := z), raw).value.all, MarkedBy(s, "[interface]", raw))
  {
    hide Trim, Entry, ParseAddresses, ParseStrings, ParseInt, Lower;
  }

  lemma {:induction false} UnheadedIsInterfaceOnly(lines: seq<string>)
    requires (forall i :: 0 <= i < |lines| ==> !IsHeader(lines[i])) && Fold(OPENED, lines).Ok?
    ensures InterfaceOnly(Fold(OPENED, lines).value.all, Marked("[interface]", lines))
    decreases |lines|
  {
    hide Step, IsHeader, MarkedBy;
    if lines != [] {
      var n := |lines| - 1;
      UnheadedFold(OPENED, lines[..n]);
      UnheadedIsInterfaceOnly(lines[..n]);
      InterfaceOnlyStep(Fold(OPENED, lines[..n]).value.all, Marked("[interface]", lines[..n]), lines[n]);
    }
  }

  /** What lines set does not depend on the settings before them, only on the section and the peer being read. */
  lemma {:induction false} FoldOver(m: Machine, lines: seq<string>)
    ensures var z := Fold(Machine(m.section, BLANK, m.current, []), lines);
      && (Fold(m, lines).Ok? <==> z.Ok?)
      && (z.Ok? ==> Fold(m, lines) == Ok(Onto(m.all, m.peers, z.value, Marked(m.section, lines))))
    decreases |lines|
  {
    hide Step, Over, MarkedBy, SectionAfter;
    var base := Machine(m.section, BLANK, m.current, []);
    if lines == [] {
      OverNothing(m.all);
      assert m.peers + [] == m.peers;
    } else {
      var n := |lines| - 1;
      FoldOver(m, lines[..n]);
      if Fold(base, lines[..n]).Ok? {
        FoldWithKey(base, None, lines[..n]);
        StepOver(m.all, m.peers, Fold(base, lines[..n]).value, Marked(m.section, lines[..n]), lines[n]);
      }
    }
  }

  /** Two states that differ in settings only end in configs that agree exactly on what is left of the difference. */
  lemma SettingsDecide(m: Machine, f: Fields, g: Fields, lines: seq<string>)
    requires Finish(Fold(m.(all := f), lines)).Ok?
    ensures SameButKey(Finish(Fold(m.(all := f), lines)), Finish(Fold(m.(all := g), lines))) <==>
      Agree(f, g, Marked(m.section, lines))
  {
    hide Fold, Over, Marked, Closed;
    var s := Marked(m.section, lines);
    FoldOver(m.(all := f), lines);
    FoldOver(m.(all := g), lines);
    var z := Fold(Machine(m.section, BLANK, m.current, []), lines).value;
    ClosedOnto(f, m.peers, z, s);
    ClosedOnto(g, m.peers, z, s);
    OverCancels(f, g, z.all, s);
    OverAddresses(f, z.all, s);
    OverAddresses(g, z.all, s);
  }

  /**
   The lines hold no address and no DNS server, and the MTU they set, if any, is the one set before or is set
   again by the lines that follow in the section and after it.
   */
  predicate Idle(lines: seq<string>, mtu: Option<int>, after: seq<string>) {
    && Fold(OPENED, lines).Ok?
    && var z := Fold(OPENED, lines).value.all;
    && z.addresses == [] && z.dns == []
    && (Marked("[interface]", lines).mtu ==> z.mtu == mtu || Marked("[interface]", after).mtu)
  }

  lemma AppendsNothing<T>(a: seq<T>, b: seq<T>)
    ensures a + b == a <==> b == []
  {
    assert |a + b| == |a| + |b|;
  }

  lemma LostBlock(m: Machine, lost: seq<string>, after: seq<string>, k: string)
    requires m.section == "[interface]" && forall i :: 0 <= i < |lost| ==> !IsHeader(lost[i])
    requires Finish(FoldOn(Fold(m, lost), after)).Ok?
    ensures SameButKey(Finish(FoldOn(Fold(m, lost), after)), Finish(Fold(WithKey(m, Some(k)), after))) <==>
      Idle(lost, m.all.mtu, after)
  {
    hide Fold, Marked, IsHeader;
    UnheadedFold(m, lost);
    UnheadedIsInterfaceOnly(lost);
    var z, s := Fold(OPENED, lost).value.all, Marked("[interface]", lost);
    var f, g := Over(m.all, z, s), m.all.(privateKey := Some(k));
    SettingsDecide(m, f, g, after);
    AppendsNothing(m.all.addresses, z.addresses);
    AppendsNothing(m.all.dns, z.dns);
    AppendsNothing(m.all.allowedIPs, z.allowedIPs);
  }

  /** The MTU the text has set where the edit is. */
  function MtuBefore(original: string): Option<int> {
    var r := Fold(START, CutOf(original).before);
    if r.Ok? then r.value.all.mtu else None
  }

  /**
   A piece replaced where the parser, too, is in an interface section, and holding no section header: nothing but
   the key changes if and only if the piece held no address, no DNS server and no MTU that mattered.
   */
  lemma ReplacementIsHarmlessIff(original: string, k: string)
    requires Plain(k) && Parse(original).Ok? && EditOf(original).Replace? && WrittenIn(original) == "[interface]"
    requires forall i :: 0 <= i < |CutOf(original).lost| ==> !IsHeader(CutOf(original).lost[i])
    ensures SameButKey(Parse(original), Parse(Edited(original, k))) <==>
      Idle(CutOf(original).lost, MtuBefore(original), CutOf(original).after)
  {
    var m := StateAtEdit(original);
    EditedParse(original, k, m);
    WrittenOne(m, k);
    hide Parse, Fold, CutOf, Edited, Plain, Idle, IsHeader, KeyText;
    LostBlock(m, CutOf(original).lost, CutOf(original).after, k);
  }

  /**
   A prepended section, in every case: nothing but the key changes if and only if the lines before the text's first
   header parse as interface lines and hold no address, no DNS server and no MTU that mattered.
   */
  lemma PrependingIsHarmlessIff(original: string, k: string)
    requires Plain(k) && Parse(original).Ok? && EditOf(original).Prepend?
    ensures var after := CutOf(original).after;
      var near, tail := after[..HeaderAt(after)], after[HeaderAt(after)..];
      SameButKey(Parse(original), Parse(Edited(original, k))) <==>
        && Fold(OPENED, near).Ok?
        && var z := Fold(OPENED, near).value.all;
        && z.addresses == [] && z.dns == []
        && (Marked("[interface]", near).mtu && z.mtu != None ==> Marked("", tail).mtu)
  {
    var after := CutOf(original).after;
    assert CutOf(original) == Cut([], [], after) && Written(original, k) == ["[Interface]", KeyText(k)];
    hide Parse, Fold, CutOf, Edited, Plain, KeyText, EditOf, Written;
    var m := StateAtEdit(original);
    FoldNone(START);
    EditedParse(original, k, START);
    WrittenTwo(k);
    GainedBlock(after, k);
  }

  lemma GainedBlock(after: seq<string>, k: string)
    requires Finish(Fold(START, after)).Ok?
    ensures var near, tail := after[..HeaderAt(after)], after[HeaderAt(after)..];
      SameButKey(Finish(Fold(START, after)), Finish(Fold(WithKey(OPENED, Some(k)), after))) <==>
        && Fold(OPENED, near).Ok?
        && var z := Fold(OPENED, near).value.all;
        && z.addresses == [] && z.dns == []
        && (Marked("[interface]", near).mtu && z.mtu != None ==> Marked("", tail).mtu)
  {
    hide Fold, Marked, IsHeader, HeaderAt;
    var near, tail := after[..HeaderAt(after)], after[HeaderAt(after)..];
    var m := WithKey(OPENED, Some(k));
    assert near + tail == after;
    FoldConcat(START, near, tail);
    FoldConcat(m, near, tail);
    NothingBeforeHeader(near);
    UnheadedFold(m, near);
    if Fold(OPENED, near).Ok? {
      UnheadedIsInterfaceOnly(near);
      TailDecides(START, Fold(m, near).value, tail);
    }
  }

  // ----- texts whose only line break is the line feed -----

  predicate LineFeedOnly(text: string) {
    forall i :: 0 <= i < |text| && IsNewline(text[i]) ==> text[i] == '\n'
  }

  function SectionAt(lines: seq<string>, i: nat): string
    requires i <= |lines|
  {
    SectionAfterAll("", lines[..i])
  }

  lemma SectionAtNext(lines: seq<string>, i: nat)
    requires i < |lines|
    ensures SectionAt(lines, i + 1) == SectionAfter(SectionAt(lines, i), lines[i])
  {
    assert lines[..i + 1][..i] == lines[..i];
  }

  /** The scan and the parser see the same sections. */
  predicate Placed(lines: seq<string>, e: Edit)
    requires e.Replace? ==> e.i < |lines|
    requires e.Insert? ==> 0 < e.i <= |lines|
  {
    match e
    case Replace(i) => SectionAt(lines, i) == "[interface]"
    case Insert(i) => SectionAt(lines, i) == "[interface]"
    case Prepend => forall i :: 0 <= i <= |lines| ==> SectionAt(lines, i) != "[interface]"
  }

  lemma {:induction false} FindEditPlaces(lines: seq<string>, i: nat, section: string, header: Option<nat>)
    requires AllLack(lines, IsNewline) && i <= |lines| && section == SectionAt(lines, i)
    requires header.Some? ==> header.value < i && SectionAt(lines, header.value + 1) == "[interface]"
    requires header.None? ==> forall j :: 0 <= j <= i ==> SectionAt(lines, j) != "[interface]"
    ensures Placed(lines, FindEdit(lines, i, section, header))
    decreases |lines| - i
  {
    hide Trim, KeyLine, IsSection, Lower, SectionAt;
    if i < |lines| {
      TrimOfLine(lines[i]);
      SectionAtNext(lines, i);
      var line := Trim(lines[i], IsBlank);
      if IsSection(line) {
        FindEditPlaces(lines, i + 1, Lower(line), if Lower(line) == "[interface]" then Some(i) else header);
      } else if !KeyLine(section, lines[i]) {
        FindEditPlaces(lines, i + 1, section, header);
      } else {
        KeyLineSection(section, lines[i]);
      }
    }
  }

  lemma StepAddresses(m: Machine, raw: string)
    requires m.section != "[interface]" && Step(m, raw).Ok?
    ensures Step(m, raw).value.all.addresses == m.all.addresses
  {
    hide Trim, Entry, ParseAddresses, ParseStrings, EndpointHost, Lower;
  }

  lemma {:induction false} NoInterfaceNoAddress(lines: seq<string>)
    requires forall i :: 0 <= i <= |lines| ==> SectionAt(lines, i) != "[interface]"
    requires Fold(START, lines).Ok?
    ensures Fold(START, lines).value.all.addresses == []
    decreases |lines|
  {
    hide Step;
    if lines != [] {
      var n := |lines| - 1;
      var rest := lines[..n];
      forall i | 0 <= i <= n ensures SectionAt(rest, i) != "[interface]" {
        assert rest[..i] == lines[..i];
        assert SectionAt(lines, i) != "[interface]";
      }
      NoInterfaceNoAddress(rest);
      FoldWithKey(START, None, rest);
      assert SectionAt(rest, n) != "[interface]" && rest[..n] == rest;
      StepAddresses(Fold(START, rest).value, lines[n]);
    }
  }

  lemma PiecesAreLines(text: string)
    requires LineFeedOnly(text)
    ensures Split(text, IsLineFeed) == Split(text, IsNewline)
    ensures AllLack(Split(text, IsLineFeed), IsNewline)
  {
    SplitAgree(text, IsLineFeed, IsNewline);
    forall i | 0 <= i < |Split(text, IsNewline)| ensures Lacks(Split(text, IsNewline)[i], IsNewline) {
      SplitPartsLack(text, IsNewline, i);
    }
  }

  /** With line feeds only, every edit is clean and the key is always written in an interface section. */
  lemma LineFeedTextsAreClean(original: string)
    requires LineFeedOnly(original) && Parse(original).Ok?
    ensures CleanEdit(original) && WrittenIn(original) == "[interface]"
  {
    hide Split, SplitEach, Fold, FindEdit, Lacks, SectionAfterAll, Inert;
    var pieces, e := Split(original, IsLineFeed), EditOf(original);
    PiecesAreLines(original);
    StartOfLines(pieces);
    FindEditPlaces(pieces, 0, "", None);
    match e
    case Replace(i) =>
      UnbrokenPieceIsClean(original);
      SplitEachPlain(pieces[..i], IsNewline);
    case Insert(i) =>
      InsertedInInterface(original);
    case Prepend =>
      NoInterfaceNoAddress(pieces);
      assert false;
  }

  lemma StartOfLines(lines: seq<string>)
    ensures SectionAt(lines, 0) == ""
  {
  }
}
