/**
 * The behaviour of the few java.lang.String operations the task tracker relies
 * on: indexOf, split with a literal separator, the regex '.' class, and the
 * decimal conversions of Integer.toString and Integer.valueOf.
 */
module JavaStrings {

  /** s starts with prefix (String.startsWith). */
  predicate StartsWith(s: string, prefix: string) {
    |prefix| <= |s| && s[..|prefix|] == prefix
  }

  /** sep occurs in s starting at index i. */
  predicate OccursAt(s: string, sep: string, i: nat) {
    i + |sep| <= |s| && s[i..i + |sep|] == sep
  }

  /** s.indexOf(sep, from): the first occurrence of sep at or after from, or -1. */
  function IndexFrom(s: string, sep: string, from: nat): (r: int)
    requires from <= |s|
    ensures r == -1 || (from <= r && OccursAt(s, sep, r))
    ensures forall i: nat :: from <= i && (r == -1 || i < r) ==> !OccursAt(s, sep, i)
    decreases |s| - from
  {
    if OccursAt(s, sep, from) then from
    else if |s| <= from + |sep| then -1
    else IndexFrom(s, sep, from + 1)
  }

  /** s.indexOf(sep): the first occurrence of sep in s, or -1 when there is none. */
  function IndexOf(s: string, sep: string): (r: int)
    ensures r == -1 || (0 <= r && OccursAt(s, sep, r))
    ensures forall i: nat :: (r == -1 || i < r) ==> !OccursAt(s, sep, i)
  {
    IndexFrom(s, sep, 0)
  }

  /** s.contains(sep). */
  predicate Contains(s: string, sep: string) {
    IndexOf(s, sep) >= 0
  }

  /**
   * The pieces of s between the leftmost non-overlapping occurrences of sep,
   * searching again after the end of each match, as java.util.regex.Matcher.find
   * does for a pattern that matches exactly the literal sep.
   */
  function Pieces(s: string, sep: string): (r: seq<string>)
    requires sep != ""
    ensures |r| >= 1
    decreases |s|
  {
    var i := IndexOf(s, sep);
    if i < 0 then [s] else [s[..i]] + Pieces(s[i + |sep|..], sep)
  }

  /** The longest prefix of ps that does not end with an empty string. */
  function DropTrailingEmpty(ps: seq<string>): (r: seq<string>)
    ensures |r| <= |ps| && r == ps[..|r|]
    ensures r == [] || r[|r| - 1] != ""
    ensures forall i :: |r| <= i < |ps| ==> ps[i] == ""
  {
    if ps == [] || ps[|ps| - 1] != "" then ps else DropTrailingEmpty(ps[..|ps| - 1])
  }

  /**
   * s.split(sep) for a regex sep without metacharacters: the whole string when
   * sep does not occur, otherwise the pieces with trailing empty strings removed
   * (a leading empty piece is kept).
   */
  function Split(s: string, sep: string): (r: seq<string>)
    requires sep != ""
    ensures IndexOf(s, sep) < 0 ==> r == [s]
    ensures IndexOf(s, sep) >= 0 ==> r == [] || r[|r| - 1] != ""
  {
    if IndexOf(s, sep) < 0 then [s] else DropTrailingEmpty(Pieces(s, sep))
  }

  /** Every element that String.split returns is the corresponding raw piece. */
  lemma SplitIsPrefixOfPieces(s: string, sep: string)
    requires sep != ""
    ensures |Split(s, sep)| <= |Pieces(s, sep)|
    ensures Split(s, sep) == Pieces(s, sep)[..|Split(s, sep)|]
  {
  }

  /** The first piece is the text before the first occurrence, the rest split the text after it. */
  lemma PiecesAtFirstMatch(s: string, sep: string)
    requires sep != "" && IndexOf(s, sep) >= 0
    ensures var i := IndexOf(s, sep);
      Pieces(s, sep) == [s[..i]] + Pieces(s[i + |sep|..], sep)
  {
  }

  /** Without an occurrence of sep there is one piece, the whole string. */
  lemma PiecesWithoutMatch(s: string, sep: string)
    requires sep != "" && IndexOf(s, sep) < 0
    ensures Pieces(s, sep) == [s] && Split(s, sep) == [s]
  {
  }

  /** An occurrence at k with none before it is the one indexOf finds. */
  lemma IndexOfIs(s: string, sep: string, k: nat)
    requires OccursAt(s, sep, k)
    requires forall i: nat :: i < k ==> !OccursAt(s, sep, i)
    ensures IndexOf(s, sep) == k
  {
  }

  /** When sep occurs nowhere, indexOf answers -1. */
  lemma IndexOfNone(s: string, sep: string)
    requires forall i: nat :: !OccursAt(s, sep, i)
    ensures IndexOf(s, sep) == -1
  {
  }

  // ---------------------------------------------------------------- joining

  /** The strings of lines with sep between consecutive ones (String.join). */
  function Join(lines: seq<string>, sep: string): string
  {
    if |lines| == 0 then ""
    else if |lines| == 1 then lines[0]
    else lines[0] + sep + Join(lines[1..], sep)
  }

  /** Joining grows at the end: the last line follows a separator unless it is the only one. */
  lemma {:induction false} JoinAppend(lines: seq<string>, line: string, sep: string)
    ensures Join(lines + [line], sep) == if lines == [] then line else Join(lines, sep) + sep + line
    decreases |lines|
  {
    if |lines| > 1 {
      assert (lines + [line])[1..] == lines[1..] + [line];
      JoinAppend(lines[1..], line, sep);
    } else if |lines| == 1 {
      assert (lines + [line])[1..] == [line];
    }
  }

  /** A one-character separator occurs exactly where that character stands. */
  lemma OccursAtChar(s: string, c: char, i: nat)
    ensures OccursAt(s, [c], i) <==> i < |s| && s[i] == c
  {
    if i < |s| && s[i] == c {
      assert s[i..i + 1] == [c];
    }
  }

  /** Splitting lines joined by a character none of them holds gives back the lines. */
  lemma {:induction false} PiecesOfJoin(lines: seq<string>, c: char)
    requires |lines| >= 1
    requires forall k :: 0 <= k < |lines| ==> c !in lines[k]
    ensures Pieces(Join(lines, [c]), [c]) == lines
    decreases |lines|
  {
    var s := Join(lines, [c]);
    if |lines| == 1 {
      forall i: nat ensures !OccursAt(s, [c], i) {
        OccursAtChar(s, c, i);
      }
      IndexOfNone(s, [c]);
    } else {
      var first := lines[0];
      assert s == first + [c] + Join(lines[1..], [c]);
      OccursAtChar(s, c, |first|);
      forall i: nat | i < |first| ensures !OccursAt(s, [c], i) {
        OccursAtChar(s, c, i);
        assert s[i] == first[i];
      }
      IndexOfIs(s, [c], |first|);
      assert s[..|first|] == first;
      assert s[|first| + 1..] == Join(lines[1..], [c]);
      PiecesOfJoin(lines[1..], c);
    }
  }

  /**
   * String.split(c) undoes joining with c, as long as no line holds c and the
   * last line is not empty (split drops trailing empty strings).
   */
  lemma SplitOfJoin(lines: seq<string>, c: char)
    requires |lines| >= 1
    requires forall k :: 0 <= k < |lines| ==> c !in lines[k]
    requires |lines| == 1 || lines[|lines| - 1] != ""
    ensures Split(Join(lines, [c]), [c]) == lines
  {
    PiecesOfJoin(lines, c);
    var s := Join(lines, [c]);
    if |lines| == 1 {
      forall i: nat ensures !OccursAt(s, [c], i) {
        OccursAtChar(s, c, i);
      }
      IndexOfNone(s, [c]);
    } else {
      assert s == lines[0] + [c] + Join(lines[1..], [c]);
      OccursAtChar(s, c, |lines[0]|);
    }
  }

  // ------------------------------------------------------ regex and numbers

  /** The characters that the regex '.' does not match (java.util.regex without DOTALL). */
  predicate IsLineTerminator(ch: char) {
    ch == '\n' || ch == '\r' || ch == '\U{85}' || ch == '\U{2028}' || ch == '\U{2029}'
  }

  /** The regex ".*" matches all of s. */
  predicate NoLineTerminator(s: string) {
    forall i :: 0 <= i < |s| ==> !IsLineTerminator(s[i])
  }

  /** An ASCII decimal digit, the class \d of java.util.regex. */
  predicate IsDigit(ch: char) {
    '0' <= ch <= '9'
  }

  predicate AllDigits(s: string) {
    forall i :: 0 <= i < |s| ==> IsDigit(s[i])
  }

  function DigitChar(d: nat): (ch: char)
    requires d < 10
    ensures IsDigit(ch)
  {
    ['0', '1', '2', '3', '4', '5', '6', '7', '8', '9'][d]
  }

  function DigitValue(ch: char): (d: nat)
    requires IsDigit(ch)
    ensures d < 10 && DigitChar(d) == ch
  {
    (ch as int - '0' as int) as nat
  }

  /** Integer.toString(n) for a non-negative n: its decimal digits, without leading zeros. */
  function NatToString(n: nat): (s: string)
    ensures |s| >= 1 && AllDigits(s)
    ensures (|s| == 1) == (n < 10)
    ensures n >= 10 ==> s[0] != '0'
    decreases n
  {
    if n < 10 then [DigitChar(n)] else NatToString(n / 10) + [DigitChar(n % 10)]
  }

  /** Integer.valueOf(s) for a string of decimal digits (leading zeros allowed). */
  function DecimalValue(s: string): nat
    requires AllDigits(s)
  {
    if s == [] then 0 else DecimalValue(s[..|s| - 1]) * 10 + DigitValue(s[|s| - 1])
  }

  /** Integer.valueOf reads back what Integer.toString wrote. */
  lemma {:induction false} DecimalValueOfNatToString(n: nat)
    ensures DecimalValue(NatToString(n)) == n
    decreases n
  {
    var s := NatToString(n);
    if n < 10 {
      assert s[..0] == [];
    } else {
      assert s[..|s| - 1] == NatToString(n / 10);
      DecimalValueOfNatToString(n / 10);
    }
  }

  // ------------------------------------------------------------ reading lines

  /** The length of the first line of s: the index of its first line terminator, or |s|. */
  function LineEnd(s: string): (i: nat)
    ensures i <= |s| && (i < |s| ==> IsLineTerminator(s[i]))
    ensures forall j :: 0 <= j < i ==> !IsLineTerminator(s[j])
  {
    if s == [] || IsLineTerminator(s[0]) then 0 else 1 + LineEnd(s[1..])
  }

  /**
   * The lines java.util.Scanner.nextLine hands out while hasNextLine holds:
   * a line ends at "\r\n" or at any single line terminator, which is not part
   * of it, and text after the last terminator is a line only when non-empty.
   */
  function ScannerLines(text: string): (r: seq<string>)
    ensures |r| <= |text|
    ensures forall k :: 0 <= k < |r| ==> NoLineTerminator(r[k])
    decreases |text|
  {
    if text == [] then []
    else
      var i := LineEnd(text);
      if i == |text| then [text]
      else if text[i] == '\r' && i + 1 < |text| && text[i + 1] == '\n' then
        [text[..i]] + ScannerLines(text[i + 2..])
      else [text[..i]] + ScannerLines(text[i + 1..])
  }

  /** The line length of a single-line text followed by more. */
  lemma {:induction false} LineEndOfLine(line: string, rest: string)
    requires NoLineTerminator(line) && (rest == [] || IsLineTerminator(rest[0]))
    ensures LineEnd(line + rest) == |line|
    decreases |line|
  {
    if line != [] {
      assert (line + rest)[1..] == line[1..] + rest;
      LineEndOfLine(line[1..], rest);
    }
  }

  /**
   * Reading back lines joined by newlines gives the lines, as long as none holds
   * a line terminator and the last one is not empty.
   */
  lemma {:induction false} ScannerLinesOfJoin(lines: seq<string>)
    requires |lines| >= 1 && lines[|lines| - 1] != ""
    requires forall k :: 0 <= k < |lines| ==> NoLineTerminator(lines[k])
    ensures ScannerLines(Join(lines, "\n")) == lines
    decreases |lines|
  {
    var text := Join(lines, "\n");
    if |lines| == 1 {
      assert text == lines[0] + [];
      LineEndOfLine(lines[0], []);
    } else {
      var rest := Join(lines[1..], "\n");
      assert text == lines[0] + ("\n" + rest);
      LineEndOfLine(lines[0], "\n" + rest);
      assert text[..|lines[0]|] == lines[0];
      assert text[|lines[0]| + 1..] == rest;
      ScannerLinesOfJoin(lines[1..]);
    }
  }
}
