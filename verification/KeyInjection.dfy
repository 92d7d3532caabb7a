/**
 Putting the device's private key into a server-provided config: which line is
 replaced or inserted, and what the parser makes of single lines.
 */
module KeyInjection {
  import opened Options
  import opened Text
  import opened WireGuardConfig

  function KeyText(k: string): string {
    "PrivateKey = " + k
  }

  function WithoutSpaces(s: string): string {
    if s == "" then "" else (if s[0] == ' ' then "" else [s[0]]) + WithoutSpaces(s[1..])
  }

  predicate KeyLine(section: string, raw: string) {
    section == "[interface]" && "privatekey=" <= WithoutSpaces(Lower(Trim(raw, IsBlank)))
  }

  datatype Edit = Replace(i: nat) | Insert(i: nat) | Prepend

  function FindEdit(lines: seq<string>, i: nat, section: string, header: Option<nat>): (e: Edit)
    requires i <= |lines| && (header.Some? ==> header.value < i)
    ensures e.Replace? ==> e.i < |lines|
    ensures e.Insert? ==> 0 < e.i <= |lines|
    decreases |lines| - i
  {
    if i == |lines| then
      if header.Some? then Insert(header.value + 1) else Prepend
    else
      var line := Trim(lines[i], IsBlank);
      if IsSection(line) then
        FindEdit(lines, i + 1, Lower(line), if Lower(line) == "[interface]" then Some(i) else header)
      else if KeyLine(section, lines[i]) then Replace(i)
      else FindEdit(lines, i + 1, section, header)
  }

  function EditOf(original: string): (e: Edit)
    ensures e.Replace? ==> e.i < |Split(original, IsLineFeed)|
    ensures e.Insert? ==> 0 < e.i <= |Split(original, IsLineFeed)|
  {
    FindEdit(Split(original, IsLineFeed), 0, "", None)
  }

  function Edited(original: string, k: string): string {
    var lines := Split(original, IsLineFeed);
    match EditOf(original)
    case Replace(i) => Join(lines[i := KeyText(k)], '\n')
    case Insert(i) => Join(lines[..i] + [KeyText(k)] + lines[i..], '\n')
    case Prepend => "[Interface]\n" + KeyText(k) + "\n" + original
  }

  method SettingPrivateKey(original: string, k: string) returns (text: string)
    ensures text == Edited(original, k)
  {
    hide Trim, KeyLine, IsSection, Lower, Join, Split;
    var lines := Split(original, IsLineFeed);
    var section := "";
    var header: Option<nat> := None;
    for i := 0 to |lines|
      invariant header.Some? ==> header.value < i
      invariant FindEdit(lines, 0, "", None) == FindEdit(lines, i, section, header)
    {
      var line := Trim(lines[i], IsBlank);
      if IsSection(line) {
        section := Lower(line);
        if section == "[interface]" {
          header := Some(i);
        }
        continue;
      }
      if KeyLine(section, lines[i]) {
        return Join(lines[i := KeyText(k)], '\n');
      }
    }
    if header.Some? {
      return Join(lines[..header.value + 1] + [KeyText(k)] + lines[header.value + 1..], '\n');
    }
    return "[Interface]\n" + KeyText(k) + "\n" + original;
  }

  // ----- the place the scan picks -----

  predicate InterfaceHeader(raw: string) {
    IsSection(Trim(raw, IsBlank)) && Lower(Trim(raw, IsBlank)) == "[interface]"
  }

  /** A replaced line is a key line; an inserted one follows an interface header. */
  predicate Picked(lines: seq<string>, e: Edit)
    requires e.Replace? ==> e.i < |lines|
    requires e.Insert? ==> 0 < e.i <= |lines|
  {
    match e
    case Replace(i) => KeyLine("[interface]", lines[i])
    case Insert(i) => InterfaceHeader(lines[i - 1])
    case Prepend => true
  }

  lemma {:induction false} FindEditPicks(lines: seq<string>, i: nat, section: string, header: Option<nat>)
    requires i <= |lines| && (header.Some? ==> header.value < i && InterfaceHeader(lines[header.value]))
    ensures Picked(lines, FindEdit(lines, i, section, header))
    decreases |lines| - i
  {
    hide Trim, KeyLine, IsSection, Lower;
    if i < |lines| {
      var line := Trim(lines[i], IsBlank);
      if IsSection(line) {
        FindEditPicks(lines, i + 1, Lower(line), if Lower(line) == "[interface]" then Some(i) else header);
      } else if !KeyLine(section, lines[i]) {
        FindEditPicks(lines, i + 1, section, header);
      } else {
        KeyLineSection(section, lines[i]);
      }
    }
  }

  lemma KeyLineSection(section: string, raw: string)
    requires KeyLine(section, raw)
    ensures section == "[interface]"
  {
  }

  // ----- what a replaced line held -----

  /** A key that survives being printed on a line: not empty, no white space at its ends, no line break. */
  predicate Plain(k: string) {
    k != "" && Snug(k, IsBlankOrNewline) && Lacks(k, IsNewline)
  }

  lemma TrimOfLine(raw: string)
    requires Lacks(raw, IsNewline)
    ensures Trim(raw, IsBlank) == Trim(raw, IsBlankOrNewline)
  {
    TrimAgree(raw, IsBlank, IsBlankOrNewline);
  }

  lemma {:induction false} WithoutSpacesHead(s: string)
    requires s == "" || s[0] != ' '
    ensures s != "" ==> WithoutSpaces(s) != "" && WithoutSpaces(s)[0] == s[0]
    ensures s == "" ==> WithoutSpaces(s) == ""
  {
  }

  lemma KeyLineHead(raw: string)
    requires KeyLine("[interface]", raw)
    ensures var line := Trim(raw, IsBlank);
      line != "" && LowerChar(line[0]) == 'p'
  {
    var line := Trim(raw, IsBlank);
    TrimIs(raw, IsBlank);
    if line != "" {
      assert Lower(line)[0] == LowerChar(line[0]);
      assert LowerChar(line[0]) != ' ';
    }
    WithoutSpacesHead(Lower(line));
    assert "privatekey="[0] == 'p';
    assert WithoutSpaces(Lower(line))[0] == 'p';
  }

  lemma HeadIsKept(line: string)
    requires line != "" && LowerChar(line[0]) == 'p'
    ensures DropLeading(line, '=') == line && Find(line, '=') > 0 && !IsBlank(line[0])
  {
  }

  lemma {:induction false} WithoutSpacesConcat(a: string, b: string)
    ensures WithoutSpaces(a + b) == WithoutSpaces(a) + WithoutSpaces(b)
  {
    if a == "" {
      assert a + b == b;
    } else {
      assert (a + b)[1..] == a[1..] + b;
      WithoutSpacesConcat(a[1..], b);
    }
  }

  lemma {:induction false} KeptBySpaces(s: string, c: char)
    requires c != ' '
    ensures c in WithoutSpaces(s) <==> c in s
  {
    if s != "" {
      assert s == [s[0]] + s[1..];
      KeptBySpaces(s[1..], c);
    }
  }

  lemma LowerConcat(a: string, b: string)
    ensures Lower(a + b) == Lower(a) + Lower(b)
  {
  }

  lemma LowerKeepsEquals(s: string)
    ensures '=' in Lower(s) <==> '=' in s
  {
    assert forall i :: 0 <= i < |s| ==> (Lower(s)[i] == '=' <==> s[i] == '=');
    if '=' in s {
      var i :| 0 <= i < |s| && s[i] == '=';
      assert Lower(s)[i] == '=';
    }
  }

  /** Before its equals sign a key line spells "privatekey", spaces apart. */
  lemma KeyLineWord(line: string, i: nat)
    requires "privatekey=" <= WithoutSpaces(Lower(line))
    requires i < |line| && line[i] == '=' && '=' !in line[..i]
    ensures WithoutSpaces(Lower(line[..i])) == "privatekey"
  {
    var name, rest := Lower(line[..i]), Lower(line[i..]);
    assert line == line[..i] + line[i..];
    LowerConcat(line[..i], line[i..]);
    WithoutSpacesConcat(name, rest);
    LowerKeepsEquals(line[..i]);
    KeptBySpaces(name, '=');
    assert rest[0] == '=';
    WithoutSpacesHead(rest);
    SamePrefix(WithoutSpaces(name), WithoutSpaces(rest), "privatekey");
  }

  lemma SamePrefix(a: string, b: string, word: string)
    requires '=' !in a && b != "" && b[0] == '=' && '=' !in word && word + "=" <= a + b
    ensures a == word
  {
    var whole, w := a + b, word + "=";
    assert whole[|a|] == '=' && w[|word|] == '=' && whole[|word|] == w[|word|];
    assert a == whole[..|a|] && word == w[..|word|];
  }

  lemma LowerPiece(s: string, i: nat, j: nat, c: char)
    requires i <= j <= |s| && c in Lower(s[i..j])
    ensures c in Lower(s)
  {
    var n :| 0 <= n < |Lower(s[i..j])| && Lower(s[i..j])[n] == c;
    assert s[i..j][n] == s[i + n] && Lower(s)[i + n] == c;
  }

  /** The name a key line is read under has no letter that "privatekey" lacks. */
  lemma KeyLineLetters(line: string, c: char)
    requires "privatekey=" <= WithoutSpaces(Lower(line)) && line != "" && LowerChar(line[0]) == 'p'
    requires Entry(line).Some? && c in Entry(line).value.0 && c != ' '
    ensures c in "privatekey"
  {
    hide Trim, Find, DropLeading, Lower, WithoutSpaces;
    HeadIsKept(line);
    var i := Find(line, '=');
    var name := line[..i];
    FindLacks(line, '=');
    KeyLineWord(line, i);
    TrimIs(name, IsBlank);
    var a, b :| 0 <= a <= b <= |name| && Trim(name, IsBlank) == name[a..b];
    LowerPiece(name, a, b, c);
    KeptBySpaces(Lower(name), c);
  }

  lemma FindLacks(s: string, c: char)
    ensures c !in s[..Find(s, c)]
  {
  }

  /** The settings a section takes, the private key apart. */
  predicate Takes(section: string, key: string) {
    || (section == "[interface]" && (key == "address" || key == "dns" || key == "mtu"))
    || (section == "[peer]" && (key == "publickey" || key == "presharedkey" || key == "allowedips"
                                || key == "endpoint" || key == "persistentkeepalive"))
  }

  /** Read in the section, the line is no header and sets nothing but, at most, the private key. */
  predicate Inert(section: string, raw: string) {
    var line := Trim(raw, IsBlankOrNewline);
    line == "" || line[0] == '#'
    || (!IsSection(line) && (Entry(line).Some? ==> !Takes(section, Entry(line).value.0)))
  }

  lemma TakenHasOtherLetters(section: string, key: string)
    requires Takes(section, key)
    ensures 's' in key || 'u' in key || 'd' in key
  {
    assert "address"[6] == 's' && "dns"[2] == 's' && "mtu"[2] == 'u' && "publickey"[1] == 'u';
    assert "presharedkey"[3] == 's' && "allowedips"[9] == 's';
    assert "endpoint"[2] == 'd' && "persistentkeepalive"[3] == 's';
  }

  lemma KeyLineIsNotTaken(section: string, line: string)
    requires "privatekey=" <= WithoutSpaces(Lower(line)) && line != "" && LowerChar(line[0]) == 'p'
    requires Entry(line).Some?
    ensures !Takes(section, Entry(line).value.0)
  {
    hide Entry, Lower, WithoutSpaces, Takes;
    var key := Entry(line).value.0;
    if Takes(section, key) {
      TakenHasOtherLetters(section, key);
      var c :| c in key && (c == 's' || c == 'u' || c == 'd');
      KeyLineLetters(line, c);
    }
  }

  /** A key line without a further line break is inert wherever the parser stands. */
  lemma KeyLineIsInert(section: string, raw: string)
    requires KeyLine("[interface]", raw) && Lacks(raw, IsNewline)
    ensures Inert(section, raw)
  {
    hide Trim, Lower, WithoutSpaces, Takes, Entry, Lacks;
    TrimOfLine(raw);
    KeyLineHead(raw);
    if Entry(Trim(raw, IsBlank)).Some? {
      KeyLineIsNotTaken(section, Trim(raw, IsBlank));
    }
  }

  lemma InertStep(m: Machine, raw: string)
    requires Inert(m.section, raw)
    ensures Step(m, raw) == Ok(WithKey(m, Later(m.all.privateKey, KeySetBy(m.section, raw))))
  {
    hide Trim, Entry, ParseAddresses, ParseStrings, ParseInt, EndpointHost, Lower;
  }

  // ----- what a written line does -----

  lemma FindAt(s: string, c: char, i: nat)
    requires i < |s| && s[i] == c && forall j :: 0 <= j < i ==> s[j] != c
    ensures Find(s, c) == i
  {
  }

  /** A word that can stand before the equals sign. */
  predicate Name(name: string) {
    && name != "" && Snug(name, IsBlankOrNewline) && '=' !in name && Lacks(name, IsNewline)
    && name[0] != '#' && name[0] != '['
  }

  /** A line `name = value` is read back as its name, in lower case, and its value. */
  lemma EntryOf(name: string, value: string)
    requires name != "" && Snug(name, IsBlank) && '=' !in name
    requires value != "" && Snug(value, IsBlank)
    ensures Entry(name + " = " + value) == Some((Lower(name), value))
  {
    var line, i := name + " = " + value, |name| + 1;
    assert line[0] == name[0] && line[0] in name;
    assert DropLeading(line, '=') == line;
    assert line[i] == '=';
    forall j | 0 <= j < i ensures line[j] != '=' {
      if j < |name| { assert line[j] == name[j] && name[j] in name; }
    }
    FindAt(line, '=', i);
    assert line[..i] == name + [' '];
    assert line[i + 1..] == [' '] + value;
    TrimTrailingOne(name, ' ', IsBlank);
    TrimLeadingOne(' ', value, IsBlank);
  }

  /** A line `name = value` assigns the value to the name. */
  lemma LineAssigns(m: Machine, name: string, value: string)
    requires Name(name)
    requires value != "" && Snug(value, IsBlankOrNewline)
    ensures Step(m, name + " = " + value) == Assign(m, Lower(name), value)
  {
    var line := name + " = " + value;
    assert line[0] == name[0] && line[|line| - 1] == value[|value| - 1];
    TrimSnug(line, IsBlankOrNewline);
    EntryOf(name, value);
    hide Trim, Entry, Assign;
  }

  lemma KeyTextSets(m: Machine, k: string)
    requires m.section == "[interface]" && Plain(k)
    ensures Step(m, KeyText(k)) == Ok(WithKey(m, Some(k)))
  {
    hide Step, Name, Lower;
    PrivateKeyWord();
    LineAssigns(m, "PrivateKey", k);
    assert "PrivateKey" + " = " == "PrivateKey = ";
  }

  lemma KeyTextIgnored(m: Machine, k: string)
    requires m.section != "[interface]" && Plain(k)
    ensures Step(m, KeyText(k)) == Ok(m)
  {
    hide Step, Name, Lower;
    PrivateKeyWord();
    LineAssigns(m, "PrivateKey", k);
    assert "PrivateKey" + " = " == "PrivateKey = ";
  }

  lemma PrivateKeyWord()
    ensures Name("PrivateKey") && Lower("PrivateKey") == "privatekey"
  {
  }

  lemma FoldOne(m: Machine, line: string, rest: seq<string>)
    ensures Fold(m, [line] + rest) == FoldOn(Step(m, line), rest)
  {
    hide Step;
    FoldConcat(m, [line], rest);
    assert [line][..0] == [] && Fold(m, []) == Ok(m);
    assert Fold(m, [line]) == Step(m, line);
  }

  lemma KeyTextLacks(k: string)
    requires Plain(k)
    ensures Lacks(KeyText(k), IsNewline)
  {
    var s := "PrivateKey = ";
    assert Lacks(s, IsNewline);
    forall i | 0 <= i < |KeyText(k)| ensures !IsNewline(KeyText(k)[i]) {
      if i >= |s| { assert KeyText(k)[i] == k[i - |s|]; } else { assert KeyText(k)[i] == s[i]; }
    }
  }

  lemma {:induction false} NoSpacesToDrop(a: string, b: string)
    requires ' ' !in a
    ensures WithoutSpaces(a + b) == a + WithoutSpaces(b)
  {
    if a == "" {
      assert a + b == b;
    } else {
      assert a[0] in a && (a + b)[1..] == a[1..] + b;
      NoSpacesToDrop(a[1..], b);
    }
  }

  function TabbedText(v: string): string {
    "PrivateKey\t" + ("= " + v)
  }

  lemma TabbedEntry(v: string)
    requires Plain(v)
    ensures Entry(TabbedText(v)) == Some(("privatekey", v))
  {
    hide Trim, Lower;
    var head, line := "PrivateKey\t", TabbedText(v);
    assert line[0] == 'P';
    assert DropLeading(line, '=') == line;
    assert forall j :: 0 <= j < |head| ==> line[j] == head[j];
    FindAt(line, '=', |head|);
    assert line[..|head|] == "PrivateKey" + ['\t'];
    assert line[|head| + 1..] == [' '] + v;
    TrimTrailingOne("PrivateKey", '\t', IsBlank);
    TrimLeadingOne(' ', v, IsBlank);
    PrivateKeyWord();
  }

  lemma TabbedIsNoKeyLine(v: string)
    requires Snug(TabbedText(v), IsBlank)
    ensures !KeyLine("[interface]", TabbedText(v))
  {
    hide Trim, WithoutSpaces;
    var low, line := "privatekey\t", TabbedText(v);
    TrimSnug(line, IsBlank);
    assert Lower(line) == low + Lower("= " + v);
    NoSpacesToDrop(low, Lower("= " + v));
    assert "privatekey="[10] != low[10];
  }

  /** A key line with a tab before its equals sign sets a key and is not the one injection replaces. */
  lemma TabbedLineIsMissed(v: string)
    requires Plain(v)
    ensures KeySetBy("[interface]", TabbedText(v)) == Some(v)
    ensures !KeyLine("[interface]", TabbedText(v))
  {
    hide Trim, WithoutSpaces, KeyLine, Entry;
    var line := TabbedText(v);
    assert line[0] == 'P' && line[|line| - 1] == v[|v| - 1];
    TrimSnug(line, IsBlankOrNewline);
    TabbedEntry(v);
    TabbedIsNoKeyLine(v);
  }
}
