/** The handful of Python string operations the three games rely on: `lower`,
    `upper` and `capitalize` on ASCII letters, `split()` and `strip()` on
    Python's whitespace, `split('\n')`, slicing, `str(n)` and `int(s)` on
    decimal numerals. */
module Text {

  /** The characters `str.split()` and `str.strip()` treat as whitespace
      (those for which `str.isspace()` holds): tab to carriage return, the
      four information separators, space, next line, no-break space, and the
      Unicode space separators, line and paragraph separators. */
  predicate IsSpace(c: char) {
    || '\U{09}' <= c <= '\U{0D}'
    || '\U{1C}' <= c <= '\U{20}'
    || c == '\U{85}' || c == '\U{A0}' || c == '\U{1680}'
    || '\U{2000}' <= c <= '\U{200A}'
    || c == '\U{2028}' || c == '\U{2029}' || c == '\U{202F}' || c == '\U{205F}' || c == '\U{3000}'
  }

  predicate IsUpper(c: char) { 'A' <= c <= 'Z' }

  predicate IsLowerLetter(c: char) { 'a' <= c <= 'z' }

  predicate IsDigit(c: char) { '0' <= c <= '9' }

  predicate NoSpace(w: string) {
    forall i :: 0 <= i < |w| ==> !IsSpace(w[i])
  }

  function LowerChar(c: char): (d: char)
    ensures !IsUpper(d)
    ensures IsUpper(c) ==> d as int == c as int + 32
    ensures !IsUpper(c) ==> d == c
  {
    if IsUpper(c) then (c as int + 32) as char else c
  }

  function UpperChar(c: char): (d: char)
    ensures !IsLowerLetter(d)
    ensures IsLowerLetter(c) ==> d as int == c as int - 32
    ensures !IsLowerLetter(c) ==> d == c
  {
    if IsLowerLetter(c) then (c as int - 32) as char else c
  }

  /** `str.lower()` on ASCII. */
  function Lower(s: string): (r: string)
    ensures |r| == |s|
    ensures forall i :: 0 <= i < |s| ==> r[i] == LowerChar(s[i])
  {
    seq(|s|, i requires 0 <= i < |s| => LowerChar(s[i]))
  }

  /** `str.capitalize()` on ASCII: first character upper-cased, the rest lower-cased. */
  function Capitalize(s: string): (r: string)
    ensures |r| == |s|
    ensures |s| > 0 ==> r[0] == UpperChar(s[0])
    ensures forall i :: 1 <= i < |s| ==> r[i] == LowerChar(s[i])
  {
    if |s| == 0 then "" else [UpperChar(s[0])] + Lower(s[1..])
  }

  lemma LowerIdentity(s: string)
    requires forall i :: 0 <= i < |s| ==> !IsUpper(s[i])
    ensures Lower(s) == s
  {
  }

  /** Python's `s[n:]`: slicing past the end yields the empty string. */
  function Drop(s: string, n: nat): (r: string)
    ensures n <= |s| ==> r == s[n..]
    ensures n > |s| ==> r == ""
  {
    if n <= |s| then s[n..] else ""
  }

  /** Python's `s[:n]`: slicing past the end yields the whole string. */
  function Take(s: string, n: nat): (r: string)
    ensures |r| <= n
    ensures n <= |s| ==> r == s[..n]
    ensures n > |s| ==> r == s
  {
    if n <= |s| then s[..n] else s
  }

  predicate StartsWith(s: string, prefix: string) {
    |prefix| <= |s| && s[..|prefix|] == prefix
  }

  /** The end of the token that starts at `i`: the first whitespace at or after `i`. */
  function TokenEnd(s: string, i: nat): (j: nat)
    requires i <= |s|
    ensures i <= j <= |s|
    ensures forall k :: i <= k < j ==> !IsSpace(s[k])
    ensures j == |s| || IsSpace(s[j])
    decreases |s| - i
  {
    if i == |s| || IsSpace(s[i]) then i else TokenEnd(s, i + 1)
  }

  /** `str.split()` with no separator: the maximal runs of non-whitespace. */
  function Words(s: string): (ws: seq<string>)
    ensures forall k :: 0 <= k < |ws| ==> |ws[k]| > 0 && NoSpace(ws[k])
    decreases |s|
  {
    if |s| == 0 then []
    else if IsSpace(s[0]) then Words(s[1..])
    else
      var j := TokenEnd(s, 0);
      [s[..j]] + Words(s[j..])
  }

  /** `" ".join(ws)`. */
  function JoinSpace(ws: seq<string>): string
    decreases |ws|
  {
    if |ws| == 0 then ""
    else if |ws| == 1 then ws[0]
    else ws[0] + " " + JoinSpace(ws[1..])
  }

  lemma {:induction false} TokenEndOfWord(w: string, rest: string, i: nat)
    requires i <= |w| && NoSpace(w)
    requires rest == "" || IsSpace(rest[0])
    ensures TokenEnd(w + rest, i) == |w|
    decreases |w| - i
  {
    var s := w + rest;
    if i < |w| {
      assert s[i] == w[i];
      TokenEndOfWord(w, rest, i + 1);
    } else if rest != "" {
      assert s[i] == rest[0];
    }
  }

  lemma WordsOfLeadingWord(w: string, rest: string)
    requires |w| > 0 && NoSpace(w)
    requires rest == "" || IsSpace(rest[0])
    ensures Words(w + rest) == [w] + Words(rest)
  {
    var s := w + rest;
    TokenEndOfWord(w, rest, 0);
    var j := TokenEnd(s, 0);
    assert s[0] == w[0];
    assert s[..j] == w;
    assert s[j..] == rest;
  }

  /** Splitting a space-joined list of words gives the words back. */
  lemma {:induction false} WordsJoinSpace(ws: seq<string>)
    requires forall k :: 0 <= k < |ws| ==> |ws[k]| > 0 && NoSpace(ws[k])
    ensures Words(JoinSpace(ws)) == ws
    decreases |ws|
  {
    if |ws| == 0 {
    } else if |ws| == 1 {
      assert ws[0] + "" == ws[0];
      WordsOfLeadingWord(ws[0], "");
    } else {
      var rest := " " + JoinSpace(ws[1..]);
      assert JoinSpace(ws) == ws[0] + rest;
      WordsOfLeadingWord(ws[0], rest);
      assert rest[1..] == JoinSpace(ws[1..]);
      WordsJoinSpace(ws[1..]);
      assert ws == [ws[0]] + ws[1..];
    }
  }

  /** Splitting two texts joined by a space gives the words of the first and
      then the words of the second. */
  lemma {:induction false} WordsAppend(a: string, b: string)
    ensures Words(a + " " + b) == Words(a) + Words(b)
    decreases |a|
  {
    var s := a + " " + b;
    if |a| == 0 {
      assert s[1..] == b;
    } else if IsSpace(a[0]) {
      assert s[1..] == a[1..] + " " + b;
      WordsAppend(a[1..], b);
    } else {
      var j := TokenEnd(a, 0);
      var w, rest := a[..j], a[j..];
      assert a == w + rest;
      assert s == w + (rest + " " + b);
      WordsOfLeadingWord(w, rest);
      WordsOfLeadingWord(w, rest + " " + b);
      WordsAppend(rest, b);
    }
  }

  /** `split()` separates words at an information separator, as at a space. */
  lemma WordsSeparator()
    ensures Words("old\U{1C}map") == ["old", "map"]
  {
    var rest := "\U{1C}map";
    WordsOfLeadingWord("old", rest);
    assert "old\U{1C}map" == "old" + rest;
    assert Words(rest) == Words("map");
    WordsOfLeadingWord("map", "");
    assert "map" + "" == "map";
  }

  /** `str.strip()` on the left. */
  function TrimStart(s: string): (r: string)
    ensures |r| <= |s| && r == s[|s| - |r|..]
    ensures forall k :: 0 <= k < |s| - |r| ==> IsSpace(s[k])
    ensures |r| == 0 || !IsSpace(r[0])
    decreases |s|
  {
    if |s| > 0 && IsSpace(s[0]) then TrimStart(s[1..]) else s
  }

  /** `str.strip()` on the right. */
  function TrimEnd(s: string): (r: string)
    ensures |r| <= |s| && r == s[..|r|]
    ensures forall k :: |r| <= k < |s| ==> IsSpace(s[k])
    ensures |r| == 0 || !IsSpace(r[|r| - 1])
    decreases |s|
  {
    if |s| > 0 && IsSpace(s[|s| - 1]) then TrimEnd(s[..|s| - 1]) else s
  }

  /** `str.strip()`: both ends. The result is the slice of `s` left after
      removing leading and trailing whitespace, and it neither starts nor
      ends with whitespace. */
  function Strip(s: string): (r: string)
    ensures |r| == 0 || (!IsSpace(r[0]) && !IsSpace(r[|r| - 1]))
    ensures exists a :: StrippedAt(s, r, a)
  {
    var t := TrimStart(s);
    var r := TrimEnd(t);
    assert StrippedAt(s, r, |s| - |t|);
    r
  }

  /** `r` is the slice of `s` starting at `a`, and only whitespace lies
      outside it. */
  predicate StrippedAt(s: string, r: string, a: int) {
    && 0 <= a <= a + |r| <= |s|
    && r == s[a..a + |r|]
    && (forall k :: 0 <= k < a ==> IsSpace(s[k]))
    && (forall k :: a + |r| <= k < |s| ==> IsSpace(s[k]))
  }

  /** `s.split('\n')`: the pieces between newlines, empty ones included. */
  function SplitLines(s: string): (ls: seq<string>)
    ensures |ls| >= 1
    ensures forall k :: 0 <= k < |ls| ==> '\n' !in ls[k]
    decreases |s|
  {
    if |s| == 0 then [""]
    else
      var rest := SplitLines(s[1..]);
      if s[0] == '\n' then [""] + rest
      else [[s[0]] + rest[0]] + rest[1..]
  }

  /** `"\n".join(ls)`. */
  function JoinLines(ls: seq<string>): string
    requires |ls| >= 1
    decreases |ls|
  {
    if |ls| == 1 then ls[0] else ls[0] + "\n" + JoinLines(ls[1..])
  }

  /** Splitting on newlines loses nothing: joining the pieces restores the text. */
  lemma {:induction false} SplitLinesJoin(s: string)
    ensures JoinLines(SplitLines(s)) == s
    decreases |s|
  {
    if |s| > 0 {
      var rest := SplitLines(s[1..]);
      SplitLinesJoin(s[1..]);
      if s[0] == '\n' {
        assert ([""] + rest)[1..] == rest;
      } else if |rest| == 1 {
      } else {
        var ls := [[s[0]] + rest[0]] + rest[1..];
        assert ls[1..] == rest[1..];
        assert JoinLines(rest) == rest[0] + "\n" + JoinLines(rest[1..]);
      }
    }
  }

  predicate IsNumeral(s: string) {
    |s| > 0 && forall i :: 0 <= i < |s| ==> IsDigit(s[i])
  }

  function DigitChar(d: nat): (c: char)
    requires d < 10
    ensures IsDigit(c)
  {
    ('0' as int + d) as char
  }

  function DigitValue(c: char): (d: nat)
    requires IsDigit(c)
    ensures d < 10 && DigitChar(d) == c
  {
    c as int - '0' as int
  }

  /** `str(n)` for a non-negative integer: decimal, no leading zeros. */
  function NatToString(n: nat): (s: string)
    ensures IsNumeral(s)
    ensures |s| == 1 <==> n < 10
    decreases n
  {
    if n < 10 then [DigitChar(n)] else NatToString(n / 10) + [DigitChar(n % 10)]
  }

  /** `int(s)` on a string of decimal digits. */
  function ParseNat(s: string): (n: nat)
    requires forall i :: 0 <= i < |s| ==> IsDigit(s[i])
    decreases |s|
  {
    if |s| == 0 then 0 else 10 * ParseNat(s[..|s| - 1]) + DigitValue(s[|s| - 1])
  }

  /** `int(str(n)) == n`. */
  lemma {:induction false} ParseNatToString(n: nat)
    ensures ParseNat(NatToString(n)) == n
    decreases n
  {
    if n >= 10 {
      var s := NatToString(n);
      assert s[..|s| - 1] == NatToString(n / 10);
      ParseNatToString(n / 10);
    }
  }

  lemma NumeralNoSpace(s: string)
    requires IsNumeral(s)
    ensures NoSpace(s)
  {
  }

  lemma NumeralNoUpper(s: string)
    requires IsNumeral(s)
    ensures forall i :: 0 <= i < |s| ==> !IsUpper(s[i])
  {
  }
}
