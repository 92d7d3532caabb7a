/**
 Splitting, joining and trimming of text, as the Go and Swift libraries do it.
 */
module Text {
  /** White space as Go's strings.TrimSpace takes it. */
  predicate IsSpace(c: char) {
    || '\t' <= c <= '\r' || c == ' ' || c == '\U{85}' || c == '\U{A0}' || c == '\U{1680}'
    || '\U{2000}' <= c <= '\U{200a}' || c == '\U{2028}' || c == '\U{2029}' || c == '\U{202f}'
    || c == '\U{205f}' || c == '\U{3000}'
  }

  predicate IsDigit(c: char) {
    '0' <= c <= '9'
  }

  predicate Digits(s: string) {
    s != "" && forall i :: 0 <= i < |s| ==> IsDigit(s[i])
  }

  /** The decimal value of digits. */
  function Number(s: string): nat
    requires forall i :: 0 <= i < |s| ==> IsDigit(s[i])
  {
    if s == "" then 0
    else
      assert IsDigit(s[|s| - 1]);
      Number(s[..|s| - 1]) * 10 + (s[|s| - 1] as int - '0' as int)
  }

  predicate IsComma(c: char) {
    c == ','
  }

  /** The first part gets one more character in front. */
  function Grow(c: char, parts: seq<string>): (r: seq<string>)
    requires parts != []
    ensures r != []
  {
    [[c] + parts[0]] + parts[1..]
  }

  function Split(s: string, sep: char -> bool): (r: seq<string>)
    ensures r != []
  {
    if s == "" then [""]
    else if sep(s[0]) then [""] + Split(s[1..], sep)
    else Grow(s[0], Split(s[1..], sep))
  }

  lemma GrowConcat(c: char, left: seq<string>, right: seq<string>)
    requires left != []
    ensures Grow(c, left + right) == Grow(c, left) + right
  {
    assert (left + right)[1..] == left[1..] + right;
  }

  /** A separator between two texts splits them apart, whatever they are. */
  lemma {:induction false} SplitAround(left: string, c: char, right: string, sep: char -> bool)
    requires sep(c)
    ensures Split(left + [c] + right, sep) == Split(left, sep) + Split(right, sep)
  {
    var whole := left + [c] + right;
    if left == "" {
      assert whole[1..] == right && whole[0] == c;
    } else {
      hide Grow;
      var l, r := Split(left[1..], sep), Split(right, sep);
      SplitAround(left[1..], c, right, sep);
      assert whole[1..] == left[1..] + [c] + right && whole[0] == left[0];
      GrowConcat(left[0], l, r);
      if sep(left[0]) {
        assert [""] + (l + r) == ([""] + l) + r;
      }
    }
  }

  lemma {:induction false} SplitPlain(s: string, sep: char -> bool)
    requires forall i :: 0 <= i < |s| ==> !sep(s[i])
    ensures Split(s, sep) == [s]
  {
    if s != "" {
      SplitPlain(s[1..], sep);
      assert [s[0]] + s[1..] == s;
    }
  }

  function Join(parts: seq<string>, c: char): string {
    if parts == [] then ""
    else if |parts| == 1 then parts[0]
    else parts[0] + [c] + Join(parts[1..], c)
  }

  function SplitEach(parts: seq<string>, sep: char -> bool): (r: seq<string>)
    ensures parts != [] ==> r != []
  {
    if parts == [] then [] else Split(parts[0], sep) + SplitEach(parts[1..], sep)
  }

  /** Joining texts and splitting the whole is splitting each of them. */
  lemma {:induction false} SplitOfJoin(parts: seq<string>, c: char, sep: char -> bool)
    requires parts != [] && sep(c)
    ensures Split(Join(parts, c), sep) == SplitEach(parts, sep)
  {
    if |parts| > 1 {
      SplitOfJoin(parts[1..], c, sep);
      SplitAround(parts[0], c, Join(parts[1..], c), sep);
    }
  }

  lemma {:induction false} SplitEachConcat(a: seq<string>, b: seq<string>, sep: char -> bool)
    ensures SplitEach(a + b, sep) == SplitEach(a, sep) + SplitEach(b, sep)
  {
    hide Split;
    if a == [] {
      assert a + b == b;
    } else {
      SplitEachConcat(a[1..], b, sep);
      assert (a + b)[1..] == a[1..] + b;
      Associate(Split(a[0], sep), SplitEach(a[1..], sep), SplitEach(b, sep));
    }
  }

  lemma Associate(a: seq<string>, b: seq<string>, c: seq<string>)
    ensures a + (b + c) == a + b + c
  {
  }

  function TrimLeft(s: string, space: char -> bool): string {
    if s != "" && space(s[0]) then TrimLeft(s[1..], space) else s
  }

  function TrimRight(s: string, space: char -> bool): string {
    if s != "" && space(s[|s| - 1]) then TrimRight(s[..|s| - 1], space) else s
  }

  function Trim(s: string, space: char -> bool): string {
    TrimRight(TrimLeft(s, space), space)
  }

  /** Text that neither starts nor ends with white space is left alone. */
  predicate Snug(s: string, space: char -> bool) {
    s == "" || (!space(s[0]) && !space(s[|s| - 1]))
  }

  lemma TrimSnug(s: string, space: char -> bool)
    requires Snug(s, space)
    ensures Trim(s, space) == s
  {
  }

  lemma TrimLeadingOne(c: char, s: string, space: char -> bool)
    requires space(c) && Snug(s, space)
    ensures Trim([c] + s, space) == s
  {
    assert ([c] + s)[1..] == s;
    assert TrimLeft([c] + s, space) == TrimLeft(s, space);
    TrimSnug(s, space);
  }

  lemma TrimTrailingOne(s: string, c: char, space: char -> bool)
    requires space(c) && s != "" && Snug(s, space)
    ensures Trim(s + [c], space) == s
  {
    assert (s + [c])[..|s|] == s;
    assert TrimLeft(s + [c], space) == s + [c];
    assert TrimRight(s + [c], space) == TrimRight(s, space);
  }

  predicate Lacks(s: string, p: char -> bool) {
    forall i :: 0 <= i < |s| ==> !p(s[i])
  }

  /** Two separators that agree on the text split it alike. */
  lemma {:induction false} SplitAgree(s: string, p: char -> bool, q: char -> bool)
    requires forall i :: 0 <= i < |s| ==> p(s[i]) == q(s[i])
    ensures Split(s, p) == Split(s, q)
  {
    if s != "" {
      SplitAgree(s[1..], p, q);
    }
  }

  /** No part holds a separator, nor any character the text lacks. */
  lemma {:induction false} SplitPartsLack(s: string, sep: char -> bool, i: nat)
    requires i < |Split(s, sep)|
    ensures Lacks(Split(s, sep)[i], sep)
    decreases |s|
  {
    if s != "" {
      var rest := Split(s[1..], sep);
      if sep(s[0]) {
        if i > 0 { SplitPartsLack(s[1..], sep, i - 1); }
      } else {
        SplitPartsLack(s[1..], sep, i);
        if i == 0 { assert Split(s, sep)[0] == [s[0]] + rest[0]; }
      }
    }
  }

  predicate AllLack(parts: seq<string>, p: char -> bool) {
    forall i :: 0 <= i < |parts| ==> Lacks(parts[i], p)
  }

  lemma {:induction false} SplitEachPlain(parts: seq<string>, sep: char -> bool)
    requires AllLack(parts, sep)
    ensures SplitEach(parts, sep) == parts
  {
    if parts != [] {
      SplitPlain(parts[0], sep);
      assert AllLack(parts[1..], sep);
      SplitEachPlain(parts[1..], sep);
      assert [parts[0]] + parts[1..] == parts;
    }
  }

  /** Joined lines split into themselves. */
  lemma SplitOfJoinPlain(parts: seq<string>, c: char, sep: char -> bool)
    requires parts != [] && sep(c) && AllLack(parts, sep)
    ensures Split(Join(parts, c), sep) == parts
  {
    SplitOfJoin(parts, c, sep);
    SplitEachPlain(parts, sep);
  }

  lemma {:induction false} TrimLeftIs(s: string, space: char -> bool)
    ensures var r := TrimLeft(s, space);
      |r| <= |s| && r == s[|s| - |r|..] && (r == "" || !space(r[0]))
  {
    if s != "" && space(s[0]) {
      TrimLeftIs(s[1..], space);
    }
  }

  lemma {:induction false} TrimRightIs(s: string, space: char -> bool)
    ensures var r := TrimRight(s, space);
      |r| <= |s| && r == s[..|r|] && (r == "" || !space(r[|r| - 1]))
    ensures s != "" && !space(s[0]) ==> TrimRight(s, space) != ""
    decreases |s|
  {
    if s != "" && space(s[|s| - 1]) {
      TrimRightIs(s[..|s| - 1], space);
    }
  }

  /** Trimming leaves a piece of the text with no white space at its ends. */
  lemma TrimIs(s: string, space: char -> bool)
    ensures Snug(Trim(s, space), space)
    ensures exists i, j :: 0 <= i <= j <= |s| && Trim(s, space) == s[i..j]
    ensures s != "" && !space(s[0]) ==> Trim(s, space) != "" && Trim(s, space)[0] == s[0]
  {
    var l := TrimLeft(s, space);
    TrimLeftIs(s, space);
    TrimRightIs(l, space);
    var r := TrimRight(l, space);
    var i := |s| - |l|;
    assert r == s[i..i + |r|];
  }

  lemma TrimLacks(s: string, space: char -> bool, p: char -> bool)
    requires Lacks(s, p)
    ensures Lacks(Trim(s, space), p)
  {
    TrimIs(s, space);
    var i, j :| 0 <= i <= j <= |s| && Trim(s, space) == s[i..j];
  }

  lemma {:induction false} TrimLeftAgree(s: string, p: char -> bool, q: char -> bool)
    requires forall i :: 0 <= i < |s| ==> p(s[i]) == q(s[i])
    ensures TrimLeft(s, p) == TrimLeft(s, q)
  {
    if s != "" && p(s[0]) {
      TrimLeftAgree(s[1..], p, q);
    }
  }

  lemma {:induction false} TrimRightAgree(s: string, p: char -> bool, q: char -> bool)
    requires forall i :: 0 <= i < |s| ==> p(s[i]) == q(s[i])
    ensures TrimRight(s, p) == TrimRight(s, q)
    decreases |s|
  {
    if s != "" && p(s[|s| - 1]) {
      TrimRightAgree(s[..|s| - 1], p, q);
    }
  }

  lemma TrimAgree(s: string, p: char -> bool, q: char -> bool)
    requires forall i :: 0 <= i < |s| ==> p(s[i]) == q(s[i])
    ensures Trim(s, p) == Trim(s, q)
  {
    TrimLeftAgree(s, p, q);
    TrimLeftIs(s, p);
    TrimRightAgree(TrimLeft(s, p), p, q);
  }

  /** Splitting at one character and joining with it gives the text back. */
  lemma {:induction false} JoinOfSplit(s: string, c: char, sep: char -> bool)
    requires forall x: char :: sep(x) <==> x == c
    ensures Join(Split(s, sep), c) == s
  {
    if s != "" {
      var rest := Split(s[1..], sep);
      JoinOfSplit(s[1..], c, sep);
      assert s == [s[0]] + s[1..];
      if sep(s[0]) {
        assert ([""] + rest)[1..] == rest;
        assert Join([""] + rest, c) == "" + [c] + Join(rest, c);
      } else {
        GrowJoin(s[0], rest, c);
      }
    }
  }

  lemma GrowJoin(x: char, parts: seq<string>, c: char)
    requires parts != []
    ensures Join(Grow(x, parts), c) == [x] + Join(parts, c)
  {
    assert Grow(x, parts)[1..] == parts[1..];
    if |parts| > 1 {
      assert [x] + parts[0] + [c] + Join(parts[1..], c) == [x] + (parts[0] + [c] + Join(parts[1..], c));
    }
  }

  lemma {:induction false} TrimLeftDrops(s: string, space: char -> bool, p: char -> bool)
    requires (forall c: char :: space(c) ==> !p(c)) && Lacks(TrimLeft(s, space), p)
    ensures Lacks(s, p)
  {
    if s != "" && space(s[0]) {
      TrimLeftDrops(s[1..], space, p);
      assert forall i :: 0 < i < |s| ==> s[i] == s[1..][i - 1];
    }
  }

  lemma {:induction false} TrimRightDrops(s: string, space: char -> bool, p: char -> bool)
    requires (forall c: char :: space(c) ==> !p(c)) && Lacks(TrimRight(s, space), p)
    ensures Lacks(s, p)
    decreases |s|
  {
    if s != "" && space(s[|s| - 1]) {
      TrimRightDrops(s[..|s| - 1], space, p);
      assert forall i :: 0 <= i < |s| - 1 ==> s[i] == s[..|s| - 1][i];
    }
  }

  /** What trimming takes off is white space only. */
  lemma TrimDrops(s: string, space: char -> bool, p: char -> bool)
    requires (forall c: char :: space(c) ==> !p(c)) && Lacks(Trim(s, space), p)
    ensures Lacks(s, p)
  {
    TrimRightDrops(TrimLeft(s, space), space, p);
    TrimLeftDrops(s, space, p);
  }
}
