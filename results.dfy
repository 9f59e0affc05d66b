/**
 * The results entry page: the driver roster, the paste-results parser
 * (handlePasteResults) and the one-position update (handlePositionChange).
 */
module Results {
  import opened Scoring

  /** DRIVERS, the twenty three-letter codes a result may name. */
  const Drivers: seq<string> := [
    "VER", "PER", "LEC", "SAI", "HAM", "RUS", "NOR", "PIA",
    "ALO", "STR", "OCO", "GAS", "BOT", "ZHO", "ALB", "SAR",
    "MAG", "HUL", "TSU", "RIC"
  ]

  /** The roster holds twenty different codes, each of three capital letters. */
  lemma RosterWellFormed()
    ensures |Drivers| == 20
    ensures forall i :: 0 <= i < |Drivers| ==> |Drivers[i]| == 3 && CapitalWord(Drivers[i])
    ensures forall i, j :: 0 <= i < j < |Drivers| ==> Drivers[i] != Drivers[j]
  {
    forall i, j | 0 <= i < j < |Drivers|
      ensures Drivers[i] != Drivers[j]
    {
      assert Drivers[i][0] != Drivers[j][0] || Drivers[i][1] != Drivers[j][1] || Drivers[i][2] != Drivers[j][2];
    }
  }

  // ---------------------------------------------------------------------
  // String.prototype.trim
  // ---------------------------------------------------------------------

  /** The characters trim removes: ECMAScript WhiteSpace and LineTerminator. */
  predicate IsJsWhitespace(c: char) {
    || c == '\t' || c == '\n' || c == '\U{000B}' || c == '\U{000C}' || c == '\r' || c == ' '
    || c == '\U{00A0}' || c == '\U{1680}' || ('\U{2000}' <= c <= '\U{200A}')
    || c == '\U{2028}' || c == '\U{2029}' || c == '\U{202F}' || c == '\U{205F}'
    || c == '\U{3000}' || c == '\U{FEFF}'
  }

  /** Nothing but whitespace: the lines `line.trim()` makes falsy. */
  predicate Blank(s: string) {
    forall i :: 0 <= i < |s| ==> IsJsWhitespace(s[i])
  }

  /** Drop leading whitespace. */
  function TrimStart(s: string): (r: string)
    ensures |r| <= |s|
  {
    if s == [] || !IsJsWhitespace(s[0]) then s else TrimStart(s[1..])
  }

  /** Drop trailing whitespace. */
  function TrimEnd(s: string): (r: string)
    ensures |r| <= |s|
  {
    if s == [] || !IsJsWhitespace(s[|s| - 1]) then s else TrimEnd(s[..|s| - 1])
  }

  /** s.trim() */
  function Trim(s: string): string {
    TrimEnd(TrimStart(s))
  }

  /** TrimStart drops a blank prefix and stops at the first character that is not whitespace. */
  lemma {:induction false} TrimStartFacts(s: string)
    ensures |TrimStart(s)| <= |s| && TrimStart(s) == s[|s| - |TrimStart(s)|..]
    ensures Blank(s[..|s| - |TrimStart(s)|])
    ensures TrimStart(s) == [] || !IsJsWhitespace(TrimStart(s)[0])
  {
    if s != [] && IsJsWhitespace(s[0]) {
      TrimStartFacts(s[1..]);
      var r := TrimStart(s[1..]);
      var n := |s| - |r|;
      forall i | 0 <= i < n
        ensures IsJsWhitespace(s[..n][i])
      {
        if i > 0 {
          assert s[..n][i] == s[1..][..n - 1][i - 1];
        }
      }
    }
  }

  /** TrimEnd drops a blank suffix and stops at the last character that is not whitespace. */
  lemma {:induction false} TrimEndFacts(s: string)
    ensures |TrimEnd(s)| <= |s| && TrimEnd(s) == s[..|TrimEnd(s)|]
    ensures Blank(s[|TrimEnd(s)|..])
    ensures TrimEnd(s) == [] || !IsJsWhitespace(TrimEnd(s)[|TrimEnd(s)| - 1])
  {
    if s != [] && IsJsWhitespace(s[|s| - 1]) {
      TrimEndFacts(s[..|s| - 1]);
      var r := TrimEnd(s[..|s| - 1]);
      var tail := s[|r|..];
      forall i | 0 <= i < |tail|
        ensures IsJsWhitespace(tail[i])
      {
        if i < |tail| - 1 {
          assert tail[i] == s[..|s| - 1][|r|..][i];
        }
      }
    }
  }

  /** Where the trimmed text starts in s: the length of its leading whitespace. */
  function TrimOffset(s: string): nat {
    |s| - |TrimStart(s)|
  }

  /** s.trim() is the slice of s between its leading and trailing whitespace. */
  lemma TrimFacts(s: string)
    ensures TrimOffset(s) + |Trim(s)| <= |s| && Trim(s) == s[TrimOffset(s)..TrimOffset(s) + |Trim(s)|]
    ensures Blank(s[..TrimOffset(s)]) && Blank(s[TrimOffset(s) + |Trim(s)|..])
    ensures Trim(s) == [] || (!IsJsWhitespace(Trim(s)[0]) && !IsJsWhitespace(Trim(s)[|Trim(s)| - 1]))
  {
    var t := TrimStart(s);
    TrimStartFacts(s);
    TrimEndFacts(t);
    var r := TrimEnd(t);
    assert s[TrimOffset(s) + |r|..] == t[|r|..];
  }

  lemma TrimStartEmptyIffBlank(s: string)
    ensures TrimStart(s) == [] <==> Blank(s)
  {
    TrimStartFacts(s);
    assert s[..|s|] == s;
  }

  lemma TrimEndEmptyIffBlank(s: string)
    ensures TrimEnd(s) == [] <==> Blank(s)
  {
    TrimEndFacts(s);
    assert s[0..] == s;
  }

  /** A line is dropped by the blank-line filter exactly when it is all whitespace. */
  lemma TrimEmptyIffBlank(s: string)
    ensures Trim(s) == [] <==> Blank(s)
  {
    TrimStartEmptyIffBlank(s);
    TrimEndEmptyIffBlank(TrimStart(s));
    TrimStartFacts(s);
  }

  /** A text with no whitespace at either end is its own trim. */
  lemma TrimOfTrimmed(s: string)
    requires s == [] || (!IsJsWhitespace(s[0]) && !IsJsWhitespace(s[|s| - 1]))
    ensures Trim(s) == s
  {
    TrimFacts(s);
  }

  /** Trimming twice is trimming once. */
  lemma TrimIdempotent(s: string)
    ensures Trim(Trim(s)) == Trim(s)
  {
    TrimFacts(s);
    TrimOfTrimmed(Trim(s));
  }

  // ---------------------------------------------------------------------
  // String.prototype.split('\n') and its inverse, Array.prototype.join('\n')
  // ---------------------------------------------------------------------

  /** text.split('\n'): the pieces between newlines, at least one. */
  function SplitLines(s: string): (r: seq<string>)
    ensures |r| >= 1
    ensures forall i :: 0 <= i < |r| ==> '\n' !in r[i]
  {
    if s == [] then [[]]
    else
      var rest := SplitLines(s[1..]);
      if s[0] == '\n' then [[]] + rest
      else [[s[0]] + rest[0]] + rest[1..]
  }

  /** lines.join('\n') */
  function JoinLines(lines: seq<string>): string
    requires |lines| >= 1
  {
    if |lines| == 1 then lines[0] else lines[0] + "\n" + JoinLines(lines[1..])
  }

  /** Splitting loses nothing: joining the pieces gives the text back. */
  lemma {:induction false} JoinSplit(s: string)
    ensures JoinLines(SplitLines(s)) == s
  {
    if s != [] {
      var rest := SplitLines(s[1..]);
      JoinSplit(s[1..]);
      assert s == [s[0]] + s[1..];
      if s[0] != '\n' && |rest| > 1 {
        var r := SplitLines(s);
        assert r[1..] == rest[1..];
        assert JoinLines(r) == [s[0]] + rest[0] + "\n" + JoinLines(rest[1..]);
      }
    }
  }

  /** A piece without newlines splits to itself. */
  lemma {:induction false} SplitOneLine(a: string)
    requires '\n' !in a
    ensures SplitLines(a) == [a]
  {
    if a != [] {
      SplitOneLine(a[1..]);
      assert a == [a[0]] + a[1..];
    }
  }

  /** A leading piece ended by a newline splits off on its own. */
  lemma {:induction false} SplitFirstLine(a: string, rest: string)
    requires '\n' !in a
    ensures SplitLines(a + "\n" + rest) == [a] + SplitLines(rest)
  {
    if a == [] {
      assert a + "\n" + rest == ['\n'] + rest;
      assert (['\n'] + rest)[1..] == rest;
    } else {
      var s := a + "\n" + rest;
      assert s[1..] == a[1..] + "\n" + rest;
      SplitFirstLine(a[1..], rest);
      assert a == [a[0]] + a[1..];
    }
  }

  /** Joining newline-free pieces and splitting again gives the pieces back. */
  lemma {:induction false} SplitJoin(lines: seq<string>)
    requires |lines| >= 1
    requires forall i :: 0 <= i < |lines| ==> '\n' !in lines[i]
    ensures SplitLines(JoinLines(lines)) == lines
  {
    if |lines| == 1 {
      SplitOneLine(lines[0]);
    } else {
      SplitJoin(lines[1..]);
      SplitFirstLine(lines[0], JoinLines(lines[1..]));
      assert lines == [lines[0]] + lines[1..];
    }
  }

  // ---------------------------------------------------------------------
  // .filter(line => line.trim())
  // ---------------------------------------------------------------------

  /** The lines that are not blank, in their order. */
  function NonBlank(lines: seq<string>): (r: seq<string>)
    ensures |r| <= |lines|
  {
    if lines == [] then []
    else
      var init, last := lines[..|lines| - 1], lines[|lines| - 1];
      NonBlank(init) + (if Blank(last) then [] else [last])
  }

  /** The filter keeps exactly the lines that are not blank. */
  lemma {:induction false} NonBlankExactly(lines: seq<string>)
    ensures forall l :: l in NonBlank(lines) <==> l in lines && !Blank(l)
  {
    if lines != [] {
      var init, last := lines[..|lines| - 1], lines[|lines| - 1];
      assert lines == init + [last];
      NonBlankExactly(init);
    }
  }

  lemma {:induction false} NonBlankAppend(a: seq<string>, b: seq<string>)
    ensures NonBlank(a + b) == NonBlank(a) + NonBlank(b)
    decreases |b|
  {
    if b == [] {
      assert a + b == a;
    } else {
      var init, last := b[..|b| - 1], b[|b| - 1];
      assert a + b == (a + init) + [last];
      assert (a + b)[..|a + b| - 1] == a + init;
      NonBlankAppend(a, init);
    }
  }

  /** A blank or whitespace-only line, wherever it appears, changes nothing. */
  lemma BlankLineIgnored(a: seq<string>, line: string, b: seq<string>)
    requires Blank(line)
    ensures NonBlank(a + [line] + b) == NonBlank(a + b)
  {
    NonBlankAppend(a + [line], b);
    NonBlankAppend(a, [line]);
    NonBlankAppend(a, b);
    assert [line][..0] == [];
  }

  // ---------------------------------------------------------------------
  // .toUpperCase(), for the ASCII letters
  // ---------------------------------------------------------------------

  function UpperChar(c: char): char {
    if 'a' <= c <= 'z' then (c as int - 32) as char else c
  }

  function ToUpper(s: string): string {
    if s == [] then [] else [UpperChar(s[0])] + ToUpper(s[1..])
  }

  /**
   * Upper-casing keeps the length, turns each lower-case ASCII letter into its
   * capital, leaves no lower-case ASCII letter and changes nothing else.
   */
  lemma {:induction false} ToUpperFacts(s: string)
    ensures |ToUpper(s)| == |s|
    ensures forall i :: 0 <= i < |s| && 'a' <= s[i] <= 'z' ==> ToUpper(s)[i] as int == s[i] as int - 32
    ensures forall i :: 0 <= i < |s| ==> !('a' <= ToUpper(s)[i] <= 'z')
    ensures forall i :: 0 <= i < |s| && !('a' <= s[i] <= 'z') ==> ToUpper(s)[i] == s[i]
  {
    if s != [] {
      ToUpperFacts(s[1..]);
    }
  }

  /** Upper-casing twice is upper-casing once. */
  lemma ToUpperIdempotent(s: string)
    ensures ToUpper(ToUpper(s)) == ToUpper(s)
  {
    ToUpperFacts(s);
    ToUpperFacts(ToUpper(s));
  }

  /** driver.trim().toUpperCase() */
  function Code(line: string): string {
    ToUpper(Trim(line))
  }

  /**
   * The code read from a line is its text between the surrounding whitespace,
   * upper-cased; it is empty exactly when the line is blank.
   */
  lemma CodeFacts(line: string)
    ensures TrimOffset(line) + |Code(line)| <= |line|
    ensures Code(line) == ToUpper(line[TrimOffset(line)..TrimOffset(line) + |Code(line)|])
    ensures Code(line) == [] <==> Blank(line)
    ensures forall i :: 0 <= i < |Code(line)| ==> !('a' <= Code(line)[i] <= 'z')
  {
    TrimFacts(line);
    ToUpperFacts(Trim(line));
    TrimEmptyIffBlank(line);
  }

  /** Capital ASCII letters only. */
  predicate CapitalWord(d: string) {
    forall i :: 0 <= i < |d| ==> 'A' <= d[i] <= 'Z'
  }

  lemma ToUpperOfCapitals(d: string)
    requires CapitalWord(d)
    ensures ToUpper(d) == d
  {
    ToUpperFacts(d);
  }

  /** A word in capitals, with nothing around it, is read as itself. */
  lemma CapitalWordReadAsItself(d: string)
    requires CapitalWord(d)
    ensures Code(d) == d
  {
    assert d == [] || (!IsJsWhitespace(d[0]) && !IsJsWhitespace(d[|d| - 1]));
    TrimOfTrimmed(d);
    ToUpperOfCapitals(d);
  }

  /** Every roster code, typed as it is, is read as itself. */
  lemma RosterCodesReadAsThemselves(d: string)
    requires d in Drivers
    ensures Code(d) == d
  {
    assert CapitalWord(d);
    CapitalWordReadAsItself(d);
  }

  /**
   * A code typed in any mix of cases, with whitespace around it, is read as
   * the code: "ver" and " Ver\r" both name VER.
   */
  lemma AnyCaseCodeReadAsCapitals(before: string, typed: string, after: string, d: string)
    requires Blank(before) && Blank(after)
    requires CapitalWord(d) && |typed| == |d| && d != []
    requires forall i :: 0 <= i < |d| ==> typed[i] == d[i] || typed[i] as int == d[i] as int + 32
    ensures Code(before + typed + after) == d
  {
    assert 'A' <= d[0] <= 'Z' && 'A' <= d[|d| - 1] <= 'Z';
    assert !IsJsWhitespace(typed[0]) && !IsJsWhitespace(typed[|typed| - 1]);
    TrimAround(before, typed, after);
    ToUpperOfAnyCase(typed, d);
  }

  /** Upper-casing a word typed in any mix of cases gives the word in capitals. */
  lemma ToUpperOfAnyCase(typed: string, d: string)
    requires CapitalWord(d) && |typed| == |d|
    requires forall i :: 0 <= i < |d| ==> typed[i] == d[i] || typed[i] as int == d[i] as int + 32
    ensures ToUpper(typed) == d
  {
    var u := ToUpper(typed);
    ToUpperFacts(typed);
    forall i | 0 <= i < |d|
      ensures u[i] == d[i]
    {
      if typed[i] != d[i] {
        assert 'a' <= typed[i] <= 'z';
      }
    }
  }

  /** Whitespace around a text that neither starts nor ends with whitespace is what trim removes. */
  lemma TrimAround(before: string, t: string, after: string)
    requires Blank(before) && Blank(after)
    requires t != [] && !IsJsWhitespace(t[0]) && !IsJsWhitespace(t[|t| - 1])
    ensures Trim(before + t + after) == t
  {
    var line := before + t + after;
    TrimStartPast(before, t + after);
    assert line == before + (t + after);
    TrimEndPast(t, after);
  }

  /** TrimStart skips a blank prefix and stops at a character that is not whitespace. */
  lemma {:induction false} TrimStartPast(w: string, rest: string)
    requires Blank(w) && rest != [] && !IsJsWhitespace(rest[0])
    ensures TrimStart(w + rest) == rest
  {
    if w != [] {
      assert (w + rest)[1..] == w[1..] + rest;
      TrimStartPast(w[1..], rest);
    }
  }

  /** TrimEnd drops a blank suffix and stops at a character that is not whitespace. */
  lemma {:induction false} TrimEndPast(rest: string, w: string)
    requires Blank(w) && rest != [] && !IsJsWhitespace(rest[|rest| - 1])
    ensures TrimEnd(rest + w) == rest
  {
    if w != [] {
      assert (rest + w)[..|rest + w| - 1] == rest + w[..|w| - 1];
      TrimEndPast(rest, w[..|w| - 1]);
    } else {
      assert rest + w == rest;
    }
  }

  // ---------------------------------------------------------------------
  // handlePasteResults, lines 143-164
  // ---------------------------------------------------------------------

  /** pasteText.trim().split('\n').filter(line => line.trim()) */
  function PasteLines(text: string): seq<string> {
    NonBlank(SplitLines(Trim(text)))
  }

  /**
   * The lines handed to the forEach are the newline-separated pieces of the
   * trimmed text that are not blank: none of them holds a newline or is blank.
   */
  lemma PasteLinesFacts(text: string)
    ensures forall l :: l in PasteLines(text) <==> l in SplitLines(Trim(text)) && !Blank(l)
    ensures forall i :: 0 <= i < |PasteLines(text)| ==> '\n' !in PasteLines(text)[i] && !Blank(PasteLines(text)[i])
    ensures |PasteLines(text)| <= |SplitLines(Trim(text))|
  {
    var pieces := SplitLines(Trim(text));
    NonBlankExactly(pieces);
    forall i | 0 <= i < |PasteLines(text)|
      ensures '\n' !in PasteLines(text)[i] && !Blank(PasteLines(text)[i])
    {
      var l := PasteLines(text)[i];
      assert l in PasteLines(text);
      var k :| 0 <= k < |pieces| && pieces[k] == l;
    }
  }

  /** The code read from each line. */
  function Codes(lines: seq<string>): (codes: seq<string>)
    ensures |codes| == |lines|
    ensures forall i :: 0 <= i < |lines| ==> codes[i] == Code(lines[i])
  {
    if lines == [] then [] else [Code(lines[0])] + Codes(lines[1..])
  }

  /**
   * newPositions after the forEach over the codes: the code at index i, if
   * it is on the roster, fills position i + 1.
   */
  function Assign(codes: seq<string>): (m: PositionMap)
    ensures forall k :: k in m ==> 1 <= k <= |codes|
    ensures forall i :: 0 <= i < |codes| ==> (i + 1 in m <==> codes[i] in Drivers)
    ensures forall i :: 0 <= i < |codes| && i + 1 in m ==> m[i + 1] == codes[i]
  {
    if codes == [] then map[]
    else
      var n := |codes|;
      var m := Assign(codes[..n - 1]);
      AssignExtend(codes, m);
      if codes[n - 1] in Drivers then m[n := codes[n - 1]] else m
  }

  /** The assignment of all but the last code, extended by the last one, assigns all of them. */
  lemma AssignExtend(codes: seq<string>, m: PositionMap)
    requires codes != []
    requires var init := codes[..|codes| - 1];
      && (forall k :: k in m ==> 1 <= k <= |init|)
      && (forall i :: 0 <= i < |init| ==> (i + 1 in m <==> init[i] in Drivers))
      && (forall i :: 0 <= i < |init| && i + 1 in m ==> m[i + 1] == init[i])
    ensures var n := |codes|;
      var r := if codes[n - 1] in Drivers then m[n := codes[n - 1]] else m;
      && (forall k :: k in r ==> 1 <= k <= n)
      && (forall i :: 0 <= i < n ==> (i + 1 in r <==> codes[i] in Drivers))
      && (forall i :: 0 <= i < n && i + 1 in r ==> r[i + 1] == codes[i])
  {
    var n := |codes|;
    var init := codes[..n - 1];
    var r := if codes[n - 1] in Drivers then m[n := codes[n - 1]] else m;
    forall i | 0 <= i < n
      ensures (i + 1 in r <==> codes[i] in Drivers) && (i + 1 in r ==> r[i + 1] == codes[i])
    {
      if i < n - 1 {
        assert codes[i] == init[i];
      }
    }
  }

  function ParseLines(lines: seq<string>): PositionMap {
    Assign(Codes(lines))
  }

  /** An unrecognised line leaves its own position empty and moves no other driver. */
  lemma LineAffectsOnlyItsPosition(lines: seq<string>, i: nat, line: string)
    requires i < |lines|
    ensures var before, after := ParseLines(lines), ParseLines(lines[i := line]);
      forall k :: k != i + 1 ==> (k in before <==> k in after) && (k in before ==> before[k] == after[k])
    ensures Code(line) !in Drivers ==> i + 1 !in ParseLines(lines[i := line])
  {
    var before, after := Codes(lines), Codes(lines[i := line]);
    AssignAgreesElsewhere(before, after, i);
  }

  /** Codes that differ at one index give assignments that differ at most at its position. */
  lemma AssignAgreesElsewhere(c1: seq<string>, c2: seq<string>, i: nat)
    requires i < |c1| == |c2|
    requires forall j :: 0 <= j < |c1| && j != i ==> c1[j] == c2[j]
    ensures forall k :: k != i + 1 ==> (k in Assign(c1) <==> k in Assign(c2))
    ensures forall k :: k != i + 1 && k in Assign(c1) ==> Assign(c1)[k] == Assign(c2)[k]
    ensures c2[i] !in Drivers ==> i + 1 !in Assign(c2)
  {
    var m1, m2 := Assign(c1), Assign(c2);
    forall k | k != i + 1 && (k in m1 || k in m2)
      ensures k in m1 && k in m2 && m1[k] == m2[k]
    {
      assert c1[k - 1] == c2[k - 1];
    }
  }

  /**
   * Every parsed position is numbered from 1 to the number of lines, and holds
   * the trimmed, upper-cased code of its line, which is on the roster.
   */
  lemma ParsedPositions(lines: seq<string>)
    ensures forall k :: k in ParseLines(lines) ==>
      && 1 <= k <= |lines|
      && ParseLines(lines)[k] == Code(lines[k - 1])
      && ParseLines(lines)[k] in Drivers
  {
    forall k | k in ParseLines(lines)
      ensures 1 <= k <= |lines| && ParseLines(lines)[k] == Code(lines[k - 1]) && ParseLines(lines)[k] in Drivers
    {
      ParsedPosition(lines, k);
    }
  }

  lemma ParsedPosition(lines: seq<string>, k: nat)
    requires k in ParseLines(lines)
    ensures 1 <= k <= |lines| && ParseLines(lines)[k] == Code(lines[k - 1]) && ParseLines(lines)[k] in Drivers
  {
    var codes := Codes(lines);
    assert codes[k - 1] == Code(lines[k - 1]);
  }

  /** A line whose code is on the roster fills the position after its index with that code. */
  lemma RosterLineFilled(lines: seq<string>, i: nat)
    requires i < |lines| && Code(lines[i]) in Drivers
    ensures i + 1 in ParseLines(lines) && ParseLines(lines)[i + 1] == Code(lines[i])
  {
  }

  /** A code given on several lines fills every one of their positions. */
  lemma DuplicatesKept(lines: seq<string>, i: nat, j: nat)
    requires i < j < |lines| && Code(lines[i]) == Code(lines[j]) && Code(lines[i]) in Drivers
    ensures i + 1 in ParseLines(lines) && j + 1 in ParseLines(lines)
    ensures ParseLines(lines)[i + 1] == ParseLines(lines)[j + 1]
  {
    RosterLineFilled(lines, i);
    RosterLineFilled(lines, j);
  }

  /** One more code: if on the roster, it is added at the next position. */
  lemma AssignStep(codes: seq<string>, n: nat)
    requires n < |codes|
    ensures Assign(codes[..n + 1]) ==
      if codes[n] in Drivers then Assign(codes[..n])[n + 1 := codes[n]] else Assign(codes[..n])
  {
    assert codes[..n + 1][..n] == codes[..n];
  }

  /** What handlePasteResults leaves on screen besides the positions. */
  datatype PasteMessage = MessageUnchanged | LoadedCount(count: nat) | NoValidCodes

  /**
   * handlePasteResults with the prompt's answer as pasteText (None when
   * cancelled) and the current positions as positions: the new positions and
   * the message set.
   */
  method HandlePasteResults(pasteText: Option<string>, positions: PositionMap)
    returns (newState: PositionMap, message: PasteMessage)
    ensures pasteText.None? || pasteText.value == [] ==> newState == positions && message == MessageUnchanged
    ensures pasteText.Some? && pasteText.value != [] ==>
      var parsed := ParseLines(PasteLines(pasteText.value));
      if |parsed| > 0 then newState == parsed && message == LoadedCount(|parsed|)
      else newState == positions && message == NoValidCodes
  {
    if pasteText.None? || pasteText.value == [] {
      return positions, MessageUnchanged;
    }
    var lines := PasteLines(pasteText.value);
    var newPositions: PositionMap := map[];
    for index := 0 to |lines|
      invariant newPositions == Assign(Codes(lines)[..index])
    {
      var driverCode := Code(lines[index]);
      AssignStep(Codes(lines), index);
      if driverCode in Drivers {
        newPositions := newPositions[index + 1 := driverCode];
      }
    }
    assert Codes(lines)[..|lines|] == Codes(lines);
    if |newPositions| > 0 {
      newState, message := newPositions, LoadedCount(|newPositions|);
    } else {
      newState, message := positions, NoValidCodes;
    }
  }

  lemma NoRosterCodeNothingAssigned(codes: seq<string>)
    requires forall i :: 0 <= i < |codes| ==> codes[i] !in Drivers
    ensures Assign(codes) == map[]
  {
    var m := Assign(codes);
    forall k: nat
      ensures k !in m
    {
      if 1 <= k <= |codes| {
        assert codes[k - 1] !in Drivers;
      }
    }
    assert m.Keys == {};
  }

  lemma NoRosterCodeNothingParsed(lines: seq<string>)
    requires forall i :: 0 <= i < |lines| ==> Code(lines[i]) !in Drivers
    ensures ParseLines(lines) == map[]
  {
    var codes := Codes(lines);
    assert forall i :: 0 <= i < |codes| ==> codes[i] == Code(lines[i]);
    NoRosterCodeNothingAssigned(codes);
  }

  /** The paste is refused exactly when no non-blank line names a roster driver. */
  lemma RejectedIffNoRosterCode(lines: seq<string>)
    ensures |ParseLines(lines)| == 0 <==> forall i :: 0 <= i < |lines| ==> Code(lines[i]) !in Drivers
  {
    if forall i :: 0 <= i < |lines| ==> Code(lines[i]) !in Drivers {
      NoRosterCodeNothingParsed(lines);
    } else {
      var i :| 0 <= i < |lines| && Code(lines[i]) in Drivers;
      RosterLineFilled(lines, i);
      assert i + 1 in ParseLines(lines).Keys;
    }
  }

  // ---------------------------------------------------------------------
  // handlePositionChange, lines 67-71
  // ---------------------------------------------------------------------

  /** { ...prev, [position]: driver } */
  function SetPosition(positions: PositionMap, position: nat, driver: string): (r: PositionMap)
    ensures r.Keys == positions.Keys + {position}
    ensures position in r && r[position] == driver
    ensures forall k :: k in positions && k != position ==> r[k] == positions[k]
  {
    positions[position := driver]
  }

  /** Choosing a driver twice for one position keeps the later choice. */
  lemma SetPositionLastWins(positions: PositionMap, position: nat, d1: string, d2: string)
    ensures SetPosition(SetPosition(positions, position, d1), position, d2) == SetPosition(positions, position, d2)
  {
  }

  /** Resetting a position to "Select driver" ("") takes it out of scoring. */
  lemma ClearedPositionNeverScores(positions: PositionMap, position: nat, actual: PositionMap)
    ensures !Hit(SetPosition(positions, position, ""), actual, position)
  {
  }
}
