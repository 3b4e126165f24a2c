/** The .NET string operations the protocol code relies on: char.IsWhiteSpace,
    String.Trim, String.Split, ToLower and StringReader.ReadLine. */
module Text {
  import opened Common

  /** char.IsWhiteSpace: the Unicode space, line and paragraph separators,
      the C0 controls U+0009..U+000D and U+0085. This set is fixed by .NET and
      does not depend on the culture. */
  predicate IsWhiteSpace(c: char) {
    || c == ' ' || ('\t' <= c <= '\r') || c == '\U{85}' || c == '\U{A0}'
    || c == '\U{1680}' || ('\U{2000}' <= c <= '\U{200A}') || c == '\U{2028}'
    || c == '\U{2029}' || c == '\U{202F}' || c == '\U{205F}' || c == '\U{3000}'
  }

  /** Number of leading white-space characters. */
  function LeadingSpace(s: string): (n: nat)
    ensures n <= |s|
    ensures forall i :: 0 <= i < n ==> IsWhiteSpace(s[i])
    ensures n < |s| ==> !IsWhiteSpace(s[n])
  {
    if s == [] || !IsWhiteSpace(s[0]) then 0 else 1 + LeadingSpace(s[1..])
  }

  /** Number of trailing white-space characters. */
  function TrailingSpace(s: string): (n: nat)
    ensures n <= |s|
    ensures forall i :: |s| - n <= i < |s| ==> IsWhiteSpace(s[i])
    ensures n < |s| ==> !IsWhiteSpace(s[|s| - 1 - n])
  {
    if s == [] || !IsWhiteSpace(s[|s| - 1]) then 0 else 1 + TrailingSpace(s[..|s| - 1])
  }

  /** String.Trim(): drops white space at both ends and keeps the middle. */
  function Trim(s: string): (r: string)
    ensures |r| <= |s|
    ensures r != [] ==> !IsWhiteSpace(r[0]) && !IsWhiteSpace(r[|r| - 1])
    ensures LeadingSpace(s) + |r| <= |s| && r == s[LeadingSpace(s)..LeadingSpace(s) + |r|]
    ensures (forall i :: 0 <= i < |s| ==> !IsWhiteSpace(s[i])) ==> r == s
    ensures r == [] <==> forall i :: 0 <= i < |s| ==> IsWhiteSpace(s[i])
  {
    var a := LeadingSpace(s);
    var t := s[a..];
    var r := t[..|t| - TrailingSpace(t)];
    assert r != [] ==> r[0] == s[a];
    r
  }

  /** ToLower() on ASCII letters; every other character is left as it is. */
  function AsciiLowerChar(c: char): (d: char)
    ensures 'A' <= c <= 'Z' ==> d as int == c as int + 32
    ensures !('A' <= c <= 'Z') ==> d == c
  {
    if 'A' <= c <= 'Z' then (c as int + 32) as char else c
  }

  function AsciiLower(s: string): (r: string)
    ensures |r| == |s| && forall i :: 0 <= i < |s| ==> r[i] == AsciiLowerChar(s[i])
  {
    seq(|s|, i requires 0 <= i < |s| => AsciiLowerChar(s[i]))
  }

  /** ToLower() with a given per-character mapping. */
  function MapChars(s: string, f: char -> char): (r: string)
    ensures |r| == |s| && forall i :: 0 <= i < |s| ==> r[i] == f(s[i])
  {
    seq(|s|, i requires 0 <= i < |s| => f(s[i]))
  }

  /** Index of the first separator, or |s| when there is none. */
  function FirstSep(s: string, isSep: char -> bool): (i: nat)
    ensures i <= |s|
    ensures forall j :: 0 <= j < i ==> !isSep(s[j])
    ensures i < |s| ==> isSep(s[i])
  {
    if s == [] then 0 else if isSep(s[0]) then 0 else 1 + FirstSep(s[1..], isSep)
  }

  /** String.Split on every character `isSep` accepts: the pieces between
      separators, in order, including the empty ones. */
  function Split(s: string, isSep: char -> bool): (r: seq<string>)
    ensures |r| >= 1 && |r[0]| <= |s|
    ensures forall k, i :: 0 <= k < |r| && 0 <= i < |r[k]| ==> !isSep(r[k][i])
    decreases |s|
  {
    var i := FirstSep(s, isSep);
    if i == |s| then [s] else [s[..i]] + Split(s[i + 1..], isSep)
  }

  function Concat(ss: seq<string>): string {
    if ss == [] then "" else ss[0] + Concat(ss[1..])
  }

  /** The characters of `s` that `drop` rejects, in order. */
  function Keep(s: string, drop: char -> bool): (r: string)
    ensures |r| <= |s|
    ensures forall i :: 0 <= i < |r| ==> !drop(r[i])
  {
    if s == [] then "" else (if drop(s[0]) then "" else [s[0]]) + Keep(s[1..], drop)
  }

  function CountWhere(s: string, p: char -> bool): nat {
    if s == [] then 0 else (if p(s[0]) then 1 else 0) + CountWhere(s[1..], p)
  }

  lemma {:induction false} KeepAppend(a: string, b: string, drop: char -> bool)
    ensures Keep(a + b, drop) == Keep(a, drop) + Keep(b, drop)
    decreases |a|
  {
    if a != [] {
      var h := if drop(a[0]) then "" else [a[0]];
      assert (a + b)[0] == a[0] && (a + b)[1..] == a[1..] + b;
      KeepAppend(a[1..], b, drop);
      calc {
        Keep(a + b, drop);
        h + Keep(a[1..] + b, drop);
        h + (Keep(a[1..], drop) + Keep(b, drop));
        (h + Keep(a[1..], drop)) + Keep(b, drop);
        Keep(a, drop) + Keep(b, drop);
      }
    } else {
      assert a + b == b;
    }
  }

  lemma {:induction false} CountAppend(a: string, b: string, p: char -> bool)
    ensures CountWhere(a + b, p) == CountWhere(a, p) + CountWhere(b, p)
    decreases |a|
  {
    if a != [] {
      assert (a + b)[0] == a[0] && (a + b)[1..] == a[1..] + b;
      CountAppend(a[1..], b, p);
    } else {
      assert a + b == b;
    }
  }

  /** Keep drops exactly the characters `drop` accepts. */
  lemma {:induction false} KeepLength(s: string, drop: char -> bool)
    ensures |Keep(s, drop)| + CountWhere(s, drop) == |s|
    decreases |s|
  {
    if s != [] {
      KeepLength(s[1..], drop);
    }
  }

  lemma NoneKept(s: string, drop: char -> bool)
    requires forall i :: 0 <= i < |s| ==> !drop(s[i])
    ensures Keep(s, drop) == s && CountWhere(s, drop) == 0
  {
  }

  /** Unfolds Split once when the text holds a separator. */
  lemma SplitStep(s: string, isSep: char -> bool)
    requires FirstSep(s, isSep) < |s|
    ensures Split(s, isSep) == [s[..FirstSep(s, isSep)]] + Split(s[FirstSep(s, isSep) + 1..], isSep)
  {
  }

  lemma KeepOne(c: char, drop: char -> bool)
    ensures Keep([c], drop) == (if drop(c) then "" else [c])
    ensures CountWhere([c], drop) == (if drop(c) then 1 else 0)
  {
    assert [c][1..] == [];
  }

  /** Dropping a separator between a separator-free head and a tail. */
  lemma KeepAround(head: string, c: char, tail: string, isSep: char -> bool)
    requires isSep(c)
    requires forall j :: 0 <= j < |head| ==> !isSep(head[j])
    ensures Keep(head + ([c] + tail), isSep) == head + Keep(tail, isSep)
    ensures CountWhere(head + ([c] + tail), isSep) == 1 + CountWhere(tail, isSep)
  {
    KeepAroundKeep(head, c, tail, isSep);
    CountAround(head, c, tail, isSep);
  }

  lemma KeepAroundKeep(head: string, c: char, tail: string, isSep: char -> bool)
    requires isSep(c)
    requires forall j :: 0 <= j < |head| ==> !isSep(head[j])
    ensures Keep(head + ([c] + tail), isSep) == head + Keep(tail, isSep)
  {
    var t := [c] + tail;
    assert t[0] == c && t[1..] == tail;
    assert Keep(t, isSep) == Keep(tail, isSep);
    KeepAppend(head, t, isSep);
    NoneKept(head, isSep);
  }

  lemma CountAround(head: string, c: char, tail: string, isSep: char -> bool)
    requires isSep(c)
    requires forall j :: 0 <= j < |head| ==> !isSep(head[j])
    ensures CountWhere(head + ([c] + tail), isSep) == 1 + CountWhere(tail, isSep)
  {
    NoneKept(head, isSep);
    KeepOne(c, isSep);
    CountAppend([c], tail, isSep);
    CountAppend(head, [c] + tail, isSep);
  }

  /** Splitting at a separator that has none before it. */
  lemma SepDecompose(s: string, isSep: char -> bool, i: nat)
    requires i < |s| && isSep(s[i])
    requires forall j :: 0 <= j < i ==> !isSep(s[j])
    ensures Keep(s, isSep) == s[..i] + Keep(s[i + 1..], isSep)
    ensures CountWhere(s, isSep) == 1 + CountWhere(s[i + 1..], isSep)
  {
    var head, c, tail := s[..i], s[i], s[i + 1..];
    assert s == head + ([c] + tail);
    KeepAround(head, c, tail, isSep);
  }

  /** Split loses exactly the separators: the pieces joined back are the input
      without its separators, and there is one piece more than separators. */
  lemma {:induction false} SplitPieces(s: string, isSep: char -> bool)
    ensures Concat(Split(s, isSep)) == Keep(s, isSep)
    ensures |Split(s, isSep)| == CountWhere(s, isSep) + 1
    decreases |s|
  {
    var i := FirstSep(s, isSep);
    if i == |s| {
      NoneKept(s, isSep);
    } else {
      var tail := s[i + 1..];
      SplitPieces(tail, isSep);
      SepDecompose(s, isSep, i);
      SplitStep(s, isSep);
      var r := Split(s, isSep);
      assert r[0] == s[..i] && r[1..] == Split(tail, isSep);
    }
  }

  predicate IsLineBreak(c: char) { c == '\r' || c == '\n' }

  predicate NoLineBreak(s: string) {
    forall i :: 0 <= i < |s| ==> !IsLineBreak(s[i])
  }

  /** Index of the first CR or LF, or |s|. */
  function LineEnd(s: string): (i: nat)
    ensures i <= |s|
    ensures forall j :: 0 <= j < i ==> !IsLineBreak(s[j])
    ensures i < |s| ==> IsLineBreak(s[i])
  {
    if s == [] || IsLineBreak(s[0]) then 0 else 1 + LineEnd(s[1..])
  }

  /** The length of the line break at index i: none at the end of the text,
      two for CRLF, one for a lone CR or LF. */
  function BreakLength(s: string, i: nat): (k: nat)
    requires i <= |s|
    ensures i + k <= |s|
    ensures k == 0 <==> i == |s|
    ensures k == 2 <==> i + 1 < |s| && s[i] == '\r' && s[i + 1] == '\n'
  {
    if i == |s| then 0
    else if s[i] == '\r' && i + 1 < |s| && s[i + 1] == '\n' then 2
    else 1
  }

  /** StringReader.ReadLine: the text up to the next CR, LF or CRLF, and what
      is left to read; nothing once the text is used up. */
  function ReadLine(s: string): (r: Option<(string, string)>)
    ensures r.None? <==> s == []
    ensures r.Some? ==> NoLineBreak(r.value.0) && |r.value.1| < |s|
  {
    if s == [] then None
    else
      var i := LineEnd(s);
      var rest :=
        if i == |s| then ""
        else if s[i] == '\r' && i + 1 < |s| && s[i + 1] == '\n' then s[i + 2..]
        else s[i + 1..];
      Some((s[..i], rest))
  }

  /** Where ReadLine cuts: the line is the text before the first CR or LF,
      and the rest starts after that break, a CRLF counting as one. */
  lemma ReadLineBreaks(s: string)
    ensures ReadLine(s).Some? ==> ReadLine(s).value.0 == s[..LineEnd(s)]
    ensures ReadLine(s).Some? ==> ReadLine(s).value.1 == s[LineEnd(s) + BreakLength(s, LineEnd(s))..]
  {
  }

  /** All the lines a StringReader yields, in order. */
  function Lines(s: string): seq<string>
    decreases |s|
  {
    match ReadLine(s)
    case None => []
    case Some((line, rest)) => [line] + Lines(rest)
  }

  /** No line read holds a line break, and there are no more lines than
      characters. */
  lemma {:induction false} LinesHaveNoBreaks(s: string)
    ensures |Lines(s)| <= |s|
    ensures forall k :: 0 <= k < |Lines(s)| ==> NoLineBreak(Lines(s)[k])
    decreases |s|
  {
    var r := ReadLine(s);
    if r.Some? {
      LinesHaveNoBreaks(r.value.1);
      assert Lines(s) == [r.value.0] + Lines(r.value.1);
    }
  }

  lemma LinesUnfold(s: string)
    ensures ReadLine(s).None? ==> Lines(s) == []
    ensures ReadLine(s).Some? ==> Lines(s) == [ReadLine(s).value.0] + Lines(ReadLine(s).value.1)
  {
  }

  /** The lines joined with a separator between them. */
  function JoinLines(ls: seq<string>, sep: string): string
    decreases |ls|
  {
    if ls == [] then "" else if |ls| == 1 then ls[0] else ls[0] + sep + JoinLines(ls[1..], sep)
  }

  lemma ReadLineOfBroken(l: string, nl: NewLine, rest: string)
    requires NoLineBreak(l)
    ensures ReadLine(l + nl.Text() + rest) == Some((l, rest))
  {
    var s := l + nl.Text() + rest;
    var i := LineEnd(s);
    assert s[|l|] == nl.Text()[0];
    assert forall j :: 0 <= j < |l| ==> s[j] == l[j];
    assert i == |l|;
    assert s[..i] == l;
    match nl
    case CRLF => assert s[i + 2..] == rest;
    case LF => assert s[i + 1..] == rest;
  }

  lemma ReadLineOfLast(l: string)
    requires l != [] && NoLineBreak(l)
    ensures ReadLine(l) == Some((l, ""))
  {
    assert l[..LineEnd(l)] == l;
  }

  /** Lines written with the platform newline between them are read back one
      by one, as long as none holds a line break and the last is not empty. */
  lemma {:induction false} LinesOfJoined(ls: seq<string>, nl: NewLine)
    requires |ls| >= 1 && ls[|ls| - 1] != []
    requires forall k :: 0 <= k < |ls| ==> NoLineBreak(ls[k])
    ensures Lines(JoinLines(ls, nl.Text())) == ls
    decreases |ls|
  {
    if |ls| == 1 {
      ReadLineOfLast(ls[0]);
      assert Lines("") == [];
    } else {
      var rest := JoinLines(ls[1..], nl.Text());
      ReadLineOfBroken(ls[0], nl, rest);
      LinesOfJoined(ls[1..], nl);
      assert ls == [ls[0]] + ls[1..];
    }
  }

  /** The three line breaks ReadLine accepts, whichever the host's own is. */
  predicate IsBreak(b: string) { b == "\r\n" || b == "\n" || b == "\r" }

  /** One line and any of the three breaks, read off the front of the text;
      a lone CR must not be followed by an LF, or the two form one CRLF. */
  lemma ReadLineOfAnyBreak(l: string, b: string, rest: string)
    requires NoLineBreak(l) && IsBreak(b)
    requires b == "\r" ==> rest == [] || rest[0] != '\n'
    ensures ReadLine(l + b + rest) == Some((l, rest))
  {
    var s := l + b + rest;
    assert s[|l|] == b[0];
    assert forall j :: 0 <= j < |l| ==> s[j] == l[j];
    assert LineEnd(s) == |l|;
    assert s[..|l|] == l;
    if b == "\r\n" {
      assert s[|l| + 2..] == rest;
    } else {
      assert s[|l| + 1..] == rest;
    }
  }

  /** Lines separated by given breaks, one per gap. */
  function JoinBy(ls: seq<string>, bs: seq<string>): string
    requires |ls| == |bs| + 1
    decreases |bs|
  {
    if bs == [] then ls[0] else ls[0] + bs[0] + JoinBy(ls[1..], bs[1..])
  }

  /** Text from the service may use CRLF, LF or CR between its lines, and
      mix them; the lines come back the same whatever the host's newline is,
      as long as no lone CR is directly followed by an empty line and the
      last line is not empty. */
  lemma {:induction false} LinesOfAnyBreaks(ls: seq<string>, bs: seq<string>)
    requires |ls| == |bs| + 1 && ls[|ls| - 1] != []
    requires forall k :: 0 <= k < |ls| ==> NoLineBreak(ls[k])
    requires forall k :: 0 <= k < |bs| ==> IsBreak(bs[k])
    requires forall k :: 0 <= k < |bs| && bs[k] == "\r" ==> ls[k + 1] != []
    ensures Lines(JoinBy(ls, bs)) == ls
    decreases |bs|
  {
    if bs == [] {
      ReadLineOfLast(ls[0]);
      assert Lines("") == [];
    } else {
      var rest := JoinBy(ls[1..], bs[1..]);
      FirstGap(ls, bs);
      LinesUnfold(JoinBy(ls, bs));
      OtherGaps(ls, bs);
      LinesOfAnyBreaks(ls[1..], bs[1..]);
      assert ls == [ls[0]] + ls[1..];
    }
  }

  /** The first line and break of a joined text are read off as one line. */
  lemma FirstGap(ls: seq<string>, bs: seq<string>)
    requires |ls| == |bs| + 1 && |bs| > 0
    requires NoLineBreak(ls[0]) && IsBreak(bs[0])
    requires NoLineBreak(ls[1]) && (bs[0] == "\r" ==> ls[1] != [])
    ensures ReadLine(JoinBy(ls, bs)) == Some((ls[0], JoinBy(ls[1..], bs[1..])))
  {
    var rest := JoinBy(ls[1..], bs[1..]);
    if bs[0] == "\r" {
      assert !IsLineBreak(ls[1][0]);
      JoinByHead(ls[1..], bs[1..]);
    }
    ReadLineOfAnyBreak(ls[0], bs[0], rest);
  }

  /** The remaining lines and breaks meet the conditions again. */
  lemma OtherGaps(ls: seq<string>, bs: seq<string>)
    requires |ls| == |bs| + 1 && |bs| > 0 && ls[|ls| - 1] != []
    requires forall k :: 0 <= k < |ls| ==> NoLineBreak(ls[k])
    requires forall k :: 0 <= k < |bs| ==> IsBreak(bs[k])
    requires forall k :: 0 <= k < |bs| && bs[k] == "\r" ==> ls[k + 1] != []
    ensures var ls', bs' := ls[1..], bs[1..];
      && ls'[|ls'| - 1] != []
      && (forall k :: 0 <= k < |ls'| ==> NoLineBreak(ls'[k]))
      && (forall k :: 0 <= k < |bs'| ==> IsBreak(bs'[k]))
      && (forall k :: 0 <= k < |bs'| && bs'[k] == "\r" ==> ls'[k + 1] != [])
  {
    var ls', bs' := ls[1..], bs[1..];
    forall k | 0 <= k < |bs'| && bs'[k] == "\r" ensures ls'[k + 1] != [] {
      assert bs[k + 1] == "\r";
    }
  }

  lemma JoinByHead(ls: seq<string>, bs: seq<string>)
    requires |ls| == |bs| + 1 && ls[0] != []
    ensures JoinBy(ls, bs) != [] && JoinBy(ls, bs)[0] == ls[0][0]
  {
  }

  /** A CRLF-separated text read on a host whose newline is LF: the CR is
      not left on the line. */
  lemma CrlfTextOnAnyHost(l0: string, l1: string)
    requires NoLineBreak(l0) && NoLineBreak(l1) && l1 != []
    ensures Lines(l0 + "\r\n" + l1) == [l0, l1]
  {
    LinesOfAnyBreaks([l0, l1], ["\r\n"]);
    assert JoinBy([l0, l1], ["\r\n"]) == l0 + "\r\n" + l1;
  }

  /** One line and its newline, read off the front of the text. */
  lemma LinesStep(l: string, nl: NewLine, rest: string)
    requires NoLineBreak(l)
    ensures Lines(l + nl.Text() + rest) == [l] + Lines(rest)
  {
    ReadLineOfBroken(l, nl, rest);
  }

  lemma LinesOfLast(l: string)
    requires l != [] && NoLineBreak(l)
    ensures Lines(l) == [l]
  {
    ReadLineOfLast(l);
    assert Lines("") == [];
  }

  lemma ListOfFour<T>(ls: seq<T>, a: T, b: T, c: T, d: T)
    requires ls == [a] + ([b] + ([c] + [d]))
    ensures ls == [a, b, c, d]
  {
  }

  /** Four lines written with the platform newline between them. */
  lemma LinesOfFour(l0: string, l1: string, l2: string, l3: string, nl: NewLine)
    requires NoLineBreak(l0) && NoLineBreak(l1) && NoLineBreak(l2) && NoLineBreak(l3) && l3 != []
    ensures Lines(l0 + nl.Text() + (l1 + nl.Text() + (l2 + nl.Text() + l3))) == [l0, l1, l2, l3]
  {
    LinesOfFourNested(l0, l1, l2, l3, nl);
    ListOfFour(Lines(l0 + nl.Text() + (l1 + nl.Text() + (l2 + nl.Text() + l3))), l0, l1, l2, l3);
  }

  lemma LinesOfFourNested(l0: string, l1: string, l2: string, l3: string, nl: NewLine)
    requires NoLineBreak(l0) && NoLineBreak(l1) && NoLineBreak(l2) && NoLineBreak(l3) && l3 != []
    ensures Lines(l0 + nl.Text() + (l1 + nl.Text() + (l2 + nl.Text() + l3))) == [l0] + ([l1] + ([l2] + [l3]))
  {
    var n := nl.Text();
    var r2 := l2 + n + l3;
    var r1 := l1 + n + r2;
    LinesStep(l0, nl, r1);
    LinesStep(l1, nl, r2);
    LinesStep(l2, nl, l3);
    LinesOfLast(l3);
  }

  /** Four header lines, a blank line and then a body read on its own. */
  lemma LinesOfHeadedBody(l0: string, l1: string, l2: string, l3: string, body: string, nl: NewLine)
    requires NoLineBreak(l0) && NoLineBreak(l1) && NoLineBreak(l2) && NoLineBreak(l3)
    ensures Lines(l0 + nl.Text() + (l1 + nl.Text() + (l2 + nl.Text() + (l3 + nl.Text() + ("" + nl.Text() + body)))))
         == [l0] + ([l1] + ([l2] + ([l3] + ([""] + Lines(body)))))
  {
    var n := nl.Text();
    var r4 := "" + n + body;
    var r3 := l3 + n + r4;
    var r2 := l2 + n + r3;
    var r1 := l1 + n + r2;
    LinesStep(l0, nl, r1);
    LinesStep(l1, nl, r2);
    LinesStep(l2, nl, r3);
    LinesStep(l3, nl, r4);
    LinesStep("", nl, body);
  }

  /** The pieces a StringBuilder appends one after another, regrouped line by line. */
  lemma RegroupHeaded(l0: string, l1: string, l2: string, l3: string, body: string, n: string)
    ensures "" + (l0 + n) + (l1 + n) + (l2 + n) + (l3 + n) + n + body
         == l0 + n + (l1 + n + (l2 + n + (l3 + n + ("" + n + body))))
  {
    assert "" + n == n && "" + (l0 + n) == l0 + n;
  }

  lemma NoLineBreakAppend(a: string, b: string)
    requires NoLineBreak(a) && NoLineBreak(b)
    ensures NoLineBreak(a + b)
  {
    assert forall i :: 0 <= i < |a + b| ==> (a + b)[i] == if i < |a| then a[i] else b[i - |a|];
  }

  /** The left-nested text a builder appends line by line is the
      right-nested text of the same lines. */
  lemma RegroupFour<T>(l0: seq<T>, l1: seq<T>, l2: seq<T>, l3: seq<T>, n: seq<T>)
    ensures [] + l0 + n + l1 + n + l2 + n + l3 == l0 + n + (l1 + n + (l2 + n + l3))
  {
  }
}
