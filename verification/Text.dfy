/** The string operations the programs rely on, with Python's conventions. */
module Text {
  import opened Prelude

  /** Characters removed by `str.strip()`. */
  predicate IsSpace(c: char) {
    c in "\t\n\r \U{B}\U{C}\U{1C}\U{1D}\U{1E}\U{1F}\U{85}\U{A0}\U{1680}\U{2028}\U{2029}\U{202F}\U{205F}\U{3000}"
    || '\U{2000}' <= c <= '\U{200A}'
  }

  /** Characters at which `str.splitlines()` ends a line. */
  predicate IsLineBreak(c: char) {
    c in "\n\r\U{B}\U{C}\U{1C}\U{1D}\U{1E}\U{85}\U{2028}\U{2029}"
  }

  predicate OneLine(s: string) { forall c :: c in s ==> !IsLineBreak(c) }

  /** By code point: tab to carriage return, the four separators and the space; of these, all but tab, the last
      separator and the space end lines. */
  lemma AsciiSpaces(c: char)
    requires c as int < 128
    ensures IsSpace(c) <==> 9 <= c as int <= 13 || 28 <= c as int <= 32
    ensures IsLineBreak(c) <==> 10 <= c as int <= 13 || 28 <= c as int <= 30
  {
  }

  function TrimLeft(s: string): string {
    if s != "" && IsSpace(s[0]) then TrimLeft(s[1..]) else s
  }

  function TrimRight(s: string): string {
    if s != "" && IsSpace(s[|s|-1]) then TrimRight(s[..|s|-1]) else s
  }

  function Strip(s: string): string { TrimRight(TrimLeft(s)) }

  /** Nothing to strip. */
  predicate Trimmed(s: string) { s == "" || (!IsSpace(s[0]) && !IsSpace(s[|s|-1])) }

  lemma {:induction false} TrimRightSuffix(s: string)
    ensures var t := TrimRight(s); |t| <= |s| && t == s[..|t|] && (t == "" || !IsSpace(t[|t|-1]))
  {
    var n := |s| - 1;
    if n < 0 || !IsSpace(s[n]) {
      assert TrimRight(s) == s;
    } else {
      var init := s[..n];
      TrimRightSuffix(init);
      var t := TrimRight(init);
      assert TrimRight(s) == t;
      assert t == init[..|t|] == s[..|t|];
    }
  }

  lemma {:induction false} TrimLeftHead(s: string)
    ensures var t := TrimLeft(s); |t| <= |s| && t == s[|s|-|t|..] && (t == "" || !IsSpace(t[0]))
  {
    if s == "" || !IsSpace(s[0]) {
      assert TrimLeft(s) == s;
    } else {
      var rest := s[1..];
      TrimLeftHead(rest);
      var t := TrimLeft(rest);
      assert TrimLeft(s) == t;
      assert t == rest[|rest|-|t|..] == s[|s|-|t|..];
    }
  }

  lemma StripFixpoint(s: string)
    ensures Trimmed(Strip(s)) && (Strip(s) == s <==> Trimmed(s))
  {
    var t := TrimLeft(s);
    TrimLeftHead(s);
    TrimRightSuffix(t);
    var u := TrimRight(t);
    assert u != "" ==> u[0] == t[0];
    assert Trimmed(u);
    if Trimmed(s) {
      assert t == s;
      assert u == t;
    }
  }

  predicate AllSpace(s: string) { forall c :: c in s ==> IsSpace(c) }

  lemma SpaceSnoc(s: string, c: char)
    requires AllSpace(s) && IsSpace(c)
    ensures AllSpace(s + [c])
  {
  }

  lemma {:induction false} TrimRightRest(s: string)
    ensures |TrimRight(s)| <= |s| && AllSpace(s[|TrimRight(s)|..])
  {
    var n := |s| - 1;
    if n < 0 || !IsSpace(s[n]) {
      assert TrimRight(s) == s;
    } else {
      var init := s[..n];
      assert TrimRight(s) == TrimRight(init);
      TrimRightRest(init);
      var k := |TrimRight(init)|;
      SpaceSnoc(init[k..], s[n]);
      assert s[k..] == init[k..] + [s[n]];
    }
  }

  lemma {:induction false} TrimLeftRest(s: string)
    ensures |TrimLeft(s)| <= |s| && AllSpace(s[..|s|-|TrimLeft(s)|])
  {
    TrimLeftHead(s);
    if s != "" && IsSpace(s[0]) {
      TrimLeftRest(s[1..]);
      TrimLeftHead(s[1..]);
      var k := |s| - |TrimLeft(s)|;
      assert s[..k] == [s[0]] + s[1..][..k-1];
    }
  }

  /** `strip` takes white space off both ends, all of it, and nothing else. */
  lemma StripMeans(s: string) returns (front: string, back: string)
    ensures s == front + Strip(s) + back && AllSpace(front) && AllSpace(back) && Trimmed(Strip(s))
  {
    var t := TrimLeft(s);
    TrimLeftHead(s);
    TrimLeftRest(s);
    TrimRightSuffix(t);
    TrimRightRest(t);
    StripFixpoint(s);
    front, back := s[..|s|-|t|], t[|Strip(s)|..];
    assert s == front + t && t == Strip(s) + back;
    JoinAgain(front, Strip(s), back);
  }

  lemma {:induction false} TrimLeftDrops(a: string, s: string)
    requires AllSpace(a)
    ensures TrimLeft(a + s) == TrimLeft(s)
  {
    if a == "" {
      assert a + s == s;
    } else {
      assert (a + s)[1..] == a[1..] + s && a[0] in a;
      TrimLeftDrops(a[1..], s);
    }
  }

  lemma TrimRightSnoc(s: string, c: char)
    requires IsSpace(c)
    ensures TrimRight(s + [c]) == TrimRight(s)
  {
    assert (s + [c])[..|s|] == s;
  }

  lemma {:induction false} TrimRightDrops(s: string, b: string)
    requires AllSpace(b)
    ensures TrimRight(s + b) == TrimRight(s)
  {
    if b == "" {
      assert s + b == s;
    } else {
      var init, c := b[..|b|-1], b[|b|-1];
      assert b == init + [c] && c in b;
      TrimRightDrops(s, init);
      TrimRightSnoc(s + init, c);
      assert s + b == (s + init) + [c];
    }
  }

  lemma TrimLeftStops(s: string, b: string)
    requires s != "" && !IsSpace(s[0])
    ensures TrimLeft(s + b) == s + b
  {
  }

  lemma {:induction false} TrimLeftBefore(s: string, b: string)
    requires AllSpace(b)
    ensures TrimLeft(s + b) == if AllSpace(s) then "" else TrimLeft(s) + b
  {
    if s == "" {
      assert s + b == b;
      TrimLeftDrops(b, "");
      assert b + "" == b;
    } else if IsSpace(s[0]) {
      assert (s + b)[1..] == s[1..] + b && s == [s[0]] + s[1..];
      TrimLeftBefore(s[1..], b);
    } else {
      assert s[0] in s;
      TrimLeftStops(s, b);
    }
  }

  lemma StripFront(a: string, s: string)
    requires AllSpace(a)
    ensures Strip(a + s) == Strip(s)
  {
    TrimLeftDrops(a, s);
  }

  lemma StripBack(s: string, b: string)
    requires AllSpace(b)
    ensures Strip(s + b) == Strip(s)
  {
    TrimLeftBefore(s, b);
    if AllSpace(s) {
      TrimLeftDrops(s, "");
      assert s + "" == s;
    } else {
      TrimRightDrops(TrimLeft(s), b);
    }
  }

  /** White space put around changes nothing. */
  lemma StripPadded(a: string, s: string, b: string)
    requires AllSpace(a) && AllSpace(b)
    ensures Strip(a + s + b) == Strip(s)
  {
    assert a + s + b == a + (s + b);
    StripFront(a, s + b);
    StripBack(s, b);
  }

  function Upper(s: string): (r: string)
    ensures |r| == |s|
  {
    seq(|s|, i requires 0 <= i < |s| => if 'a' <= s[i] <= 'z' then s[i] - 'a' + 'A' else s[i])
  }

  function Lower(s: string): (r: string)
    ensures |r| == |s|
  {
    seq(|s|, i requires 0 <= i < |s| => if 'A' <= s[i] <= 'Z' then s[i] - 'A' + 'a' else s[i])
  }

  /** The same character, or the two cases of one ASCII letter. */
  predicate SameLetter(c: char, d: char) {
    || c == d
    || ('A' <= c <= 'Z' && d as int == c as int + 32)
    || ('a' <= c <= 'z' && d as int == c as int - 32)
  }

  predicate SameButCase(a: string, b: string) {
    |a| == |b| && forall i :: 0 <= i < |a| ==> SameLetter(a[i], b[i])
  }

  lemma CaseForgotten(a: string, b: string)
    ensures Upper(a) == Upper(b) <==> SameButCase(a, b)
    ensures Lower(a) == Lower(b) <==> SameButCase(a, b)
  {
    if |a| == |b| {
      forall i | 0 <= i < |a|
        ensures Upper(a)[i] == Upper(b)[i] <==> SameLetter(a[i], b[i])
        ensures Lower(a)[i] == Lower(b)[i] <==> SameLetter(a[i], b[i])
      {
      }
    }
  }

  lemma SpaceHasNoCase(c: char, d: char)
    requires SameLetter(c, d)
    ensures IsSpace(c) <==> IsSpace(d)
  {
  }

  lemma {:induction false} TrimLeftLower(s: string)
    ensures TrimLeft(Lower(s)) == Lower(TrimLeft(s))
  {
    if s != "" {
      assert Lower(s)[1..] == Lower(s[1..]);
      SpaceHasNoCase(s[0], Lower(s)[0]);
      TrimLeftLower(s[1..]);
    }
  }

  lemma LowerInit(s: string)
    requires s != ""
    ensures var n := |s| - 1;
      Lower(s)[..n] == Lower(s[..n]) && (IsSpace(s[n]) <==> IsSpace(Lower(s)[n]))
  {
    SpaceHasNoCase(s[|s|-1], Lower(s)[|s|-1]);
  }

  lemma {:induction false} TrimRightLower(s: string)
    ensures TrimRight(Lower(s)) == Lower(TrimRight(s))
  {
    if s != "" {
      var n := |s| - 1;
      LowerInit(s);
      if IsSpace(s[n]) {
        TrimRightLower(s[..n]);
        assert TrimRight(s) == TrimRight(s[..n]);
        assert TrimRight(Lower(s)) == TrimRight(Lower(s)[..n]);
      }
    }
  }

  lemma StripLower(s: string)
    ensures Strip(Lower(s)) == Lower(Strip(s))
  {
    TrimLeftLower(s);
    TrimRightLower(TrimLeft(s));
  }

  predicate At(s: string, i: nat, p: string) { i + |p| <= |s| && s[i..i+|p|] == p }

  /** Where `p` first occurs in `s`. */
  function Index(s: string, p: string): (r: Option<nat>)
    ensures r.Some? ==> At(s, r.value, p)
  {
    if |s| < |p| then None
    else if s[..|p|] == p then Some(0)
    else if s == "" then None
    else
      var r := Index(s[1..], p);
      if r.None? then None else assert s[1..][r.value..r.value+|p|] == s[r.value+1..r.value+1+|p|]; Some(r.value + 1)
  }

  lemma AtTail(s: string, i: nat, p: string)
    requires s != "" && i > 0
    ensures At(s, i, p) == At(s[1..], i - 1, p)
  {
    if i + |p| <= |s| {
      assert s[1..][i-1..i-1+|p|] == s[i..i+|p|];
    }
  }

  lemma {:induction false} IndexIsFirst(s: string, p: string, j: nat)
    requires p != "" && (Index(s, p).Some? ==> j < Index(s, p).value)
    ensures !At(s, j, p)
  {
    if |s| >= |p| && j > 0 {
      AtTail(s, j, p);
      IndexIsFirst(s[1..], p, j - 1);
    }
  }

  lemma IndexIs(s: string, p: string, i: nat)
    requires p != "" && At(s, i, p) && forall j: nat :: j < i ==> !At(s, j, p)
    ensures Index(s, p) == Some(i)
  {
    if Index(s, p).None? || i < Index(s, p).value {
      IndexIsFirst(s, p, i);
    }
  }

  lemma IndexNone(s: string, p: string)
    requires p != "" && forall j: nat :: !At(s, j, p)
    ensures Index(s, p) == None
  {
  }

  /** `s.split(c)` for one character. */
  function Split(s: string, c: char): (r: seq<string>)
    ensures |r| >= 1
    ensures forall part :: part in r ==> c !in part
    ensures c !in s ==> r == [s]
  {
    if s == "" then [""]
    else if s[0] == c then [""] + Split(s[1..], c)
    else var rest := Split(s[1..], c); assert [s[0]] + s[1..] == s; [[s[0]] + rest[0]] + rest[1..]
  }

  lemma {:induction false} SplitFirst(a: string, c: char, rest: string)
    requires c !in a
    ensures Split(a + [c] + rest, c) == [a] + Split(rest, c)
  {
    if a == "" {
      assert a + [c] + rest == [c] + rest;
    } else {
      assert (a + [c] + rest)[1..] == a[1..] + [c] + rest;
      SplitFirst(a[1..], c, rest);
      assert [a[0]] + a[1..] == a;
    }
  }

  lemma JoinCons(a: string, rest: seq<string>, c: char)
    requires rest != []
    ensures Join([a] + rest, c) == a + [c] + Join(rest, c)
  {
    assert ([a] + rest)[1..] == rest;
  }

  lemma JoinLonger(x: char, parts: seq<string>, c: char)
    requires parts != []
    ensures Join([[x] + parts[0]] + parts[1..], c) == [x] + Join(parts, c)
  {
    assert ([[x] + parts[0]] + parts[1..])[1..] == parts[1..];
  }

  lemma SplitHead(x: char, s: string, c: char)
    ensures var rest := Split(s, c);
      Split([x] + s, c) == if x == c then [""] + rest else [[x] + rest[0]] + rest[1..]
  {
    assert ([x] + s)[1..] == s;
  }

  lemma {:induction false} SplitJoins(s: string, c: char)
    ensures Join(Split(s, c), c) == s
  {
    if s != "" {
      var x, rest := s[0], s[1..];
      assert s == [x] + rest;
      SplitJoins(rest, c);
      SplitHead(x, rest, c);
      if x == c {
        JoinCons("", Split(rest, c), c);
      } else {
        JoinLonger(x, Split(rest, c), c);
      }
    }
  }

  function Join(parts: seq<string>, c: char): string
    requires |parts| >= 1
  {
    if |parts| == 1 then parts[0] else parts[0] + [c] + Join(parts[1..], c)
  }

  function Concat(parts: seq<string>): string {
    if parts == [] then "" else parts[0] + Concat(parts[1..])
  }

  lemma {:induction false} ConcatAppend(a: seq<string>, b: seq<string>)
    ensures Concat(a + b) == Concat(a) + Concat(b)
  {
    if a == [] {
      assert a + b == b;
    } else {
      assert (a + b)[1..] == a[1..] + b;
      ConcatAppend(a[1..], b);
    }
  }

  // ---- Lines with their ends kept ----

  predicate IsNewline(c: char) { c == '\n' }

  /** Text that ends where a line ends. */
  predicate Whole(ends: char -> bool, text: string) { text == "" || ends(text[|text|-1]) }

  predicate IsLine(ends: char -> bool, line: string) {
    line != "" && ends(line[|line|-1]) && forall i :: 0 <= i < |line| - 1 ==> !ends(line[i])
  }

  predicate AllLines(ends: char -> bool, lines: seq<string>) { forall line :: line in lines ==> IsLine(ends, line) }

  /** The lines of a text, each with its end; only the last may lack one. */
  function KeptLines(ends: char -> bool, text: string): seq<string> {
    if text == "" then []
    else if ends(text[0]) then [[text[0]]] + KeptLines(ends, text[1..])
    else
      var rest := KeptLines(ends, text[1..]);
      if rest == [] then [text] else [[text[0]] + rest[0]] + rest[1..]
  }

  lemma ConcatCons(a: string, rest: seq<string>)
    ensures Concat([a] + rest) == a + Concat(rest)
  {
    assert ([a] + rest)[1..] == rest;
  }

  lemma ConcatLonger(x: char, parts: seq<string>)
    requires parts != []
    ensures Concat([[x] + parts[0]] + parts[1..]) == [x] + Concat(parts)
  {
    ConcatCons([x] + parts[0], parts[1..]);
    JoinAgain([x], parts[0], Concat(parts[1..]));
  }

  lemma {:induction false} KeptLinesRebuild(ends: char -> bool, text: string)
    ensures Concat(KeptLines(ends, text)) == text && (KeptLines(ends, text) == [] <==> text == "")
  {
    if text != "" {
      var rest := KeptLines(ends, text[1..]);
      KeptLinesRebuild(ends, text[1..]);
      assert text == [text[0]] + text[1..];
      if ends(text[0]) {
        ConcatAppend([[text[0]]], rest);
        assert Concat([[text[0]]]) == [text[0]] + Concat([]);
      } else if rest == [] {
        assert Concat([text]) == text + Concat([]);
      } else {
        ConcatLonger(text[0], rest);
      }
    }
  }

  lemma {:induction false} KeptLinesAreLines(ends: char -> bool, text: string)
    requires Whole(ends, text)
    ensures AllLines(ends, KeptLines(ends, text))
  {
    if text != "" {
      var rest := KeptLines(ends, text[1..]);
      KeptLinesAreLines(ends, text[1..]);
      KeptLinesRebuild(ends, text[1..]);
      if !ends(text[0]) {
        assert IsLine(ends, rest[0]) by { assert rest[0] in rest; }
        LongerLine(ends, text[0], rest[0]);
      }
    }
  }

  lemma LongerLine(ends: char -> bool, c: char, line: string)
    requires IsLine(ends, line) && !ends(c)
    ensures IsLine(ends, [c] + line)
  {
  }

  lemma {:induction false} FirstLine(ends: char -> bool, line: string, more: string)
    requires IsLine(ends, line)
    ensures KeptLines(ends, line + more) == [line] + KeptLines(ends, more)
  {
    assert (line + more)[1..] == line[1..] + more;
    if |line| == 1 {
      assert line == [line[0]] && line[1..] + more == more;
    } else {
      FirstLine(ends, line[1..], more);
      assert [line[0]] + line[1..] == line;
    }
  }

  lemma {:induction false} KeptLinesUnique(ends: char -> bool, lines: seq<string>)
    requires AllLines(ends, lines)
    ensures KeptLines(ends, Concat(lines)) == lines
  {
    if lines != [] {
      assert lines[0] in lines;
      KeptLinesUnique(ends, lines[1..]);
      FirstLine(ends, lines[0], Concat(lines[1..]));
      assert [lines[0]] + lines[1..] == lines;
    }
  }

  /** A line with its end, or a last line without one. */
  predicate Piece(ends: char -> bool, line: string) { line != "" && forall i :: 0 <= i < |line| - 1 ==> !ends(line[i]) }

  lemma PieceLonger(ends: char -> bool, c: char, line: string)
    requires !ends(c) && Piece(ends, line)
    ensures Piece(ends, [c] + line)
  {
  }

  predicate Inside(line: string, text: string) { forall c :: c in line ==> c in text }

  lemma {:induction false} KeptPieces(ends: char -> bool, text: string)
    ensures forall line :: line in KeptLines(ends, text) ==> Piece(ends, line) && Inside(line, text)
  {
    if text != "" {
      var c, rest := text[0], KeptLines(ends, text[1..]);
      assert text == [c] + text[1..];
      KeptPieces(ends, text[1..]);
      KeptLinesRebuild(ends, text[1..]);
      forall line | line in KeptLines(ends, text)
        ensures Piece(ends, line) && Inside(line, text)
      {
        if line in rest {
          assert Inside(line, text[1..]);
        } else if ends(c) {
          assert line == [c];
        } else if rest == [] {
          assert line == text && |text| == 1;
        } else {
          assert rest[0] in rest && line == [c] + rest[0];
          PieceLonger(ends, c, rest[0]);
        }
      }
    }
  }

  lemma ConcatMore(lines: seq<string>, more: string)
    requires lines != []
    ensures Concat(lines) + more == lines[0] + (Concat(lines[1..]) + more)
  {
  }

  /** Whole lines in front are read as they are, whatever follows. */
  lemma {:induction false} KeptLinesAfter(ends: char -> bool, lines: seq<string>, more: string)
    requires AllLines(ends, lines)
    ensures KeptLines(ends, Concat(lines) + more) == lines + KeptLines(ends, more)
  {
    if lines == [] {
      assert Concat(lines) + more == more;
    } else {
      var first, rest := lines[0], lines[1..];
      assert lines == [first] + rest && first in lines;
      KeptLinesAfter(ends, rest, more);
      ConcatMore(lines, more);
      FirstLine(ends, first, Concat(rest) + more);
      assert lines + KeptLines(ends, more) == [first] + (rest + KeptLines(ends, more));
    }
  }

  lemma {:induction false} PartsInside(s: string, c: char)
    ensures forall part, x :: part in Split(s, c) && x in part ==> x in s
  {
    if s != "" {
      PartsInside(s[1..], c);
      assert s == [s[0]] + s[1..];
    }
  }

  // ---- Universal newlines ----

  /** What a file opened in text mode yields: every "\r\n" and every other '\r' becomes '\n'. */
  function Universal(s: string): string {
    if s == "" then ""
    else if s[0] == '\r' then ['\n'] + Universal(if |s| > 1 && s[1] == '\n' then s[2..] else s[1..])
    else [s[0]] + Universal(s[1..])
  }

  predicate CrLfAt(s: string, i: nat) { i + 1 < |s| && s[i] == '\r' && s[i+1] == '\n' }

  predicate CrLfFree(s: string) { forall i: nat :: i < |s| ==> !CrLfAt(s, i) }

  lemma {:induction false} UniversalHasNoCr(s: string)
    ensures '\r' !in Universal(s)
  {
    if s != "" {
      UniversalHasNoCr(if s[0] == '\r' && |s| > 1 && s[1] == '\n' then s[2..] else s[1..]);
    }
  }

  lemma CrLfFreeTail(s: string)
    requires s != ""
    ensures CrLfFree(s) <==> !CrLfAt(s, 0) && CrLfFree(s[1..])
  {
    forall i: nat | i < |s[1..]|
      ensures CrLfAt(s[1..], i) == CrLfAt(s, i + 1)
    {
    }
    if !CrLfAt(s, 0) && CrLfFree(s[1..]) {
      forall i: nat | i < |s|
        ensures !CrLfAt(s, i)
      {
        if i > 0 {
          assert !CrLfAt(s[1..], i - 1);
        }
      }
    }
  }

  function Translated(c: char): char { if c == '\r' then '\n' else c }

  /** Without a "\r\n" nothing moves. */
  lemma {:induction false} UniversalPointwise(s: string)
    requires CrLfFree(s)
    ensures |Universal(s)| == |s| && forall i :: 0 <= i < |s| ==> Universal(s)[i] == Translated(s[i])
  {
    if s != "" {
      CrLfFreeTail(s);
      UniversalPointwise(s[1..]);
      assert Universal(s) == [Translated(s[0])] + Universal(s[1..]);
    }
  }

  lemma {:induction false} UniversalShrinks(s: string)
    ensures |Universal(s)| <= |s| && (|Universal(s)| == |s| <==> CrLfFree(s))
  {
    if s != "" {
      CrLfFreeTail(s);
      if CrLfAt(s, 0) {
        UniversalShrinks(s[2..]);
      } else {
        UniversalShrinks(s[1..]);
      }
    }
  }

  lemma UniversalSame(s: string)
    requires '\r' !in s
    ensures Universal(s) == s
  {
    UniversalPointwise(s);
  }

  lemma {:induction false} UniversalAfter(a: string, b: string)
    requires '\r' !in a
    ensures Universal(a + b) == a + Universal(b)
  {
    if a == "" {
      assert a + b == b;
    } else {
      assert (a + b)[1..] == a[1..] + b;
      UniversalAfter(a[1..], b);
    }
  }

  lemma UniversalAppend(a: string, b: string)
    requires CrLfFree(a) && CrLfFree(b) && (a == "" || a[|a|-1] != '\r')
    ensures CrLfFree(a + b) && Universal(a + b) == Universal(a) + Universal(b)
  {
    forall i: nat | i < |a + b|
      ensures !CrLfAt(a + b, i)
    {
      if i < |a| {
        assert !CrLfAt(a, i);
      } else {
        assert !CrLfAt(b, i - |a|);
      }
    }
    UniversalPointwise(a);
    UniversalPointwise(b);
    UniversalPointwise(a + b);
  }

  lemma UniversalFrom(s: string, n: nat)
    requires CrLfFree(s) && n <= |s|
    ensures |Universal(s)| == |s| && Universal(s[n..]) == Universal(s)[n..]
  {
    forall i: nat | i < |s[n..]|
      ensures !CrLfAt(s[n..], i)
    {
      assert !CrLfAt(s, n + i);
    }
    UniversalPointwise(s);
    UniversalPointwise(s[n..]);
  }

  // ---- Decimal numerals ----

  predicate IsDigit(c: char) { '0' <= c <= '9' }

  function Digit(n: nat): char
    requires n < 10
  {
    '0' + n as char
  }

  function Decimal(n: nat): (r: string)
    ensures r != "" && forall c :: c in r ==> IsDigit(c)
  {
    if n < 10 then [Digit(n)] else Decimal(n / 10) + [Digit(n % 10)]
  }

  function Numeral(s: string): nat
    requires forall c :: c in s ==> IsDigit(c)
  {
    if s == "" then 0 else
    assert IsDigit(s[|s|-1]);
    10 * Numeral(s[..|s|-1]) + (s[|s|-1] as int - '0' as int)
  }

  lemma {:induction false} DecimalReads(n: nat)
    ensures Numeral(Decimal(n)) == n
  {
    if n >= 10 {
      DecimalReads(n / 10);
      assert Decimal(n)[..|Decimal(n)|-1] == Decimal(n / 10);
    } else {
      assert Numeral([Digit(n)]) == 10 * Numeral("") + n;
    }
  }
}
