/** Decimal integers and blank-separated lines of text, printed and parsed. */
module Decimal {
  import opened PyData

  const DIGITS: string := "0123456789"

  function Digit(d: nat): (c: char)
    requires d < 10
    ensures '0' <= c <= '9' && c as int == '0' as int + d
  {
    DIGITS[d]
  }

  function PrintNat(n: nat): (s: string)
    ensures s != "" && forall i :: 0 <= i < |s| ==> '0' <= s[i] <= '9'
  {
    if n < 10 then [Digit(n)] else PrintNat(n / 10) + [Digit(n % 10)]
  }

  /** `str(n)` */
  function PrintInt(n: int): (s: string)
    ensures s != "" && forall i :: 0 <= i < |s| ==> s[i] == '-' || '0' <= s[i] <= '9'
  {
    if n < 0 then "-" + PrintNat(-n) else PrintNat(n)
  }

  /** Digits, with single underscores allowed between them. */
  function ParseNat(s: string): Option<nat> {
    if s == "" then None
    else if !('0' <= s[|s| - 1] <= '9') then None
    else
      var low := s[|s| - 1] as int - '0' as int;
      if |s| == 1 then Some(low) else
        var high := ParseNat(if s[|s| - 2] == '_' then s[..|s| - 2] else s[..|s| - 1]);
        if high.None? then None else Some(10 * high.value + low)
  }

  /** `int(s)` for a text without blanks and with ASCII digits; `None` stands for ValueError. */
  function ParseInt(s: string): Option<int> {
    var signed := s != "" && (s[0] == '-' || s[0] == '+');
    var n := ParseNat(if signed then s[1..] else s);
    if n.None? then None else (var v: int := n.value; Some(if signed && s[0] == '-' then -v else v))
  }

  /** The last digit of a longer number. */
  lemma LastDigit(s: string)
    requires |s| >= 2 && '0' <= s[|s| - 1] <= '9' && s[|s| - 2] != '_' && ParseNat(s[..|s| - 1]).Some?
    ensures ParseNat(s) == Some(10 * ParseNat(s[..|s| - 1]).value + (s[|s| - 1] as int - '0' as int))
  {
  }

  /** Reading one more digit. */
  lemma ParseNatSnoc(s: string, high: nat, low: nat)
    requires low < 10 && s != "" && '0' <= s[|s| - 1] <= '9' && ParseNat(s) == Some(high)
    ensures ParseNat(s + [Digit(low)]) == Some(10 * high + low)
  {
    var t := s + [Digit(low)];
    assert t[..|t| - 1] == s;
    LastDigit(t);
  }

  lemma ParseDigit(d: nat)
    requires d < 10
    ensures ParseNat([Digit(d)]) == Some(d)
  {
  }

  lemma {:induction false} ParseNatUndoesPrint(n: nat)
    ensures ParseNat(PrintNat(n)) == Some(n)
  {
    if n < 10 {
      ParseDigit(n);
    } else {
      var high, low := n / 10, n % 10;
      ParseNatUndoesPrint(high);
      ParseNatSnoc(PrintNat(high), high, low);
      assert n == 10 * high + low;
    }
  }

  lemma ParseUndoesPrint(n: int)
    ensures ParseInt(PrintInt(n)) == Some(n)
  {
    ParseNatUndoesPrint(if n < 0 then -n else n);
    if n < 0 {
      assert PrintInt(n)[1..] == PrintNat(-n);
    }
  }

  /** `c.isspace()` */
  predicate IsBlank(c: char) {
    var n := c as int;
    || 0x09 <= n <= 0x0D || 0x1C <= n <= 0x20 || n == 0x85 || n == 0xA0 || n == 0x1680 || 0x2000 <= n <= 0x200A
    || n == 0x2028 || n == 0x2029 || n == 0x202F || n == 0x205F || n == 0x3000
  }

  /** Index of the first blank, or the length. */
  function WordEnd(s: string): (n: nat)
    ensures n <= |s|
    ensures forall i :: 0 <= i < n ==> !IsBlank(s[i])
    ensures n < |s| ==> IsBlank(s[n])
  {
    if s == "" || IsBlank(s[0]) then 0 else 1 + WordEnd(s[1..])
  }

  /** `line.split()` */
  function Fields(s: string): seq<string> {
    if s == "" then []
    else if IsBlank(s[0]) then Fields(s[1..])
    else [s[..WordEnd(s)]] + Fields(s[WordEnd(s)..])
  }

  lemma {:induction false} WordEndAt(word: string, rest: string)
    requires forall i :: 0 <= i < |word| ==> !IsBlank(word[i])
    requires rest == "" || IsBlank(rest[0])
    ensures WordEnd(word + rest) == |word|
  {
    if word == "" {
      assert word + rest == rest;
    } else {
      assert (word + rest)[1..] == word[1..] + rest;
      WordEndAt(word[1..], rest);
    }
  }

  predicate IsWord(s: string) {
    s != "" && forall i :: 0 <= i < |s| ==> !IsBlank(s[i])
  }

  lemma FieldsOfWord(word: string, rest: string)
    requires IsWord(word) && (rest == "" || IsBlank(rest[0]))
    ensures Fields(word + rest) == [word] + Fields(rest)
  {
    WordEndAt(word, rest);
    assert (word + rest)[..|word|] == word;
    assert (word + rest)[|word|..] == rest;
  }

  lemma FieldsOfNextWord(word: string, rest: string)
    requires IsWord(word) && (rest == "" || IsBlank(rest[0]))
    ensures Fields(" " + (word + rest)) == [word] + Fields(rest)
  {
    assert (" " + (word + rest))[1..] == word + rest;
    FieldsOfWord(word, rest);
  }

  lemma StartsBlank(s: string)
    ensures " " + s != "" && IsBlank((" " + s)[0])
  {
  }

  lemma FieldsOfThree(a: string, b: string, c: string)
    requires IsWord(a) && IsWord(b) && IsWord(c)
    ensures Fields(a + (" " + (b + (" " + c)))) == [a, b, c]
  {
    StartsBlank(b + (" " + c));
    FieldsOfWord(a, " " + (b + (" " + c)));
    StartsBlank(c);
    FieldsOfNextWord(b, " " + c);
    FieldsOfNextWord(c, "");
    assert c + "" == c;
  }

  predicate EndsLine(c: char) {
    c == '\n' || c == '\r'
  }

  predicate IsLine(s: string) {
    forall i :: 0 <= i < |s| ==> !EndsLine(s[i])
  }

  lemma IsLineConcat(a: string, b: string)
    requires IsLine(a) && IsLine(b)
    ensures IsLine(a + b)
  {
  }

  function LineEnd(s: string): (n: nat)
    ensures n <= |s|
  {
    if s == "" || EndsLine(s[0]) then 0 else 1 + LineEnd(s[1..])
  }

  /** The lines of a file opened in text mode: `\n`, `\r` and `\r\n` each end one. */
  function Lines(s: string): seq<string>
    decreases |s|
  {
    if s == "" then [] else
      var n := LineEnd(s);
      if n == |s| then [s] else
        var next := if s[n] == '\r' && n + 1 < |s| && s[n + 1] == '\n' then n + 2 else n + 1;
        [s[..n]] + Lines(s[next..])
  }

  lemma {:induction false} LineEndAt(line: string, rest: string)
    requires IsLine(line)
    requires rest != "" && EndsLine(rest[0])
    ensures LineEnd(line + rest) == |line|
  {
    if line == "" {
      assert line + rest == rest;
    } else {
      assert (line + rest)[1..] == line[1..] + rest;
      LineEndAt(line[1..], rest);
    }
  }

  lemma LinesOfLine(line: string, rest: string)
    requires IsLine(line)
    ensures Lines(line + "\n" + rest) == [line] + Lines(rest)
  {
    var s := line + "\n" + rest;
    assert s == line + ("\n" + rest);
    LineEndAt(line, "\n" + rest);
    assert s[..|line|] == line;
    assert s[|line| + 1..] == rest;
  }

  // ----- Other spellings that are read alike -----

  /** A plus sign, and a zero in front, change nothing. */
  lemma PlusIsRead(n: nat)
    ensures ParseInt("+" + PrintNat(n)) == Some(n)
  {
    ParseNatUndoesPrint(n);
    assert ("+" + PrintNat(n))[1..] == PrintNat(n);
  }

  lemma {:induction false} ZeroInFront(s: string)
    requires ParseNat(s).Some?
    ensures ParseNat("0" + s) == ParseNat(s)
  {
    var t := "0" + s;
    assert t[|t| - 1] == s[|s| - 1];
    if |s| == 1 {
      assert t[..|t| - 1] == "0";
      ParseDigit(0);
    } else {
      assert t[|t| - 2] == s[|s| - 2];
      var front := if s[|s| - 2] == '_' then s[..|s| - 2] else s[..|s| - 1];
      assert t[..|t| - (|s| - |front|)] == "0" + front;
      ZeroInFront(front);
    }
  }

  lemma LastDigitAfterUnderscore(s: string)
    requires |s| >= 3 && '0' <= s[|s| - 1] <= '9' && s[|s| - 2] == '_' && ParseNat(s[..|s| - 2]).Some?
    ensures ParseNat(s) == Some(10 * ParseNat(s[..|s| - 2]).value + (s[|s| - 1] as int - '0' as int))
  {
  }

  lemma DigitAfterUnderscore(s: string, high: nat, low: nat)
    requires low < 10 && s != "" && ParseNat(s) == Some(high)
    ensures ParseNat((s + "_") + [Digit(low)]) == Some(10 * high + low)
  {
    var t := (s + "_") + [Digit(low)];
    assert t[..|t| - 2] == s && t[|t| - 2] == '_' && t[|t| - 1] == Digit(low);
    LastDigitAfterUnderscore(t);
  }

  /** An underscore between two digits is ignored. */
  lemma UnderscoreIsIgnored(s: string, high: nat, low: nat)
    requires low < 10 && s != "" && '0' <= s[|s| - 1] <= '9' && ParseNat(s) == Some(high)
    ensures ParseNat((s + "_") + [Digit(low)]) == ParseNat(s + [Digit(low)])
  {
    ParseNatSnoc(s, high, low);
    DigitAfterUnderscore(s, high, low);
  }

  lemma {:induction false} UnderscoreInFront(s: string)
    ensures ParseNat("_" + s) == None
  {
    var t := "_" + s;
    if s != "" && '0' <= s[|s| - 1] <= '9' {
      assert t[|t| - 1] == s[|s| - 1];
      if |s| == 1 {
        assert t[..|t| - 2] == "";
      } else {
        assert t[|t| - 2] == s[|s| - 2];
        assert t[..|t| - 1] == "_" + s[..|s| - 1] && t[..|t| - 2] == "_" + s[..|s| - 2];
        UnderscoreInFront(s[..|s| - 1]);
        UnderscoreInFront(s[..|s| - 2]);
      }
    }
  }

  /** One at the end, or in front, is an error. */
  lemma StrayUnderscore(s: string)
    ensures ParseNat(s + "_") == None && ParseNat("_" + s) == None
  {
    assert (s + "_")[|s|] == '_';
    UnderscoreInFront(s);
  }

  /** Blanks in front of a line's fields and behind them change nothing. */
  lemma BlankInFront(c: char, s: string)
    requires IsBlank(c)
    ensures Fields([c] + s) == Fields(s)
  {
    assert ([c] + s)[1..] == s;
  }

  lemma {:induction false} BlankBehind(word: string, c: char)
    requires IsWord(word) && IsBlank(c)
    ensures Fields(word + [c]) == [word]
  {
    FieldsOfWord(word, [c]);
    BlankInFront(c, "");
    assert [c] + "" == [c];
  }

  /** A carriage return ends a line, together with the line feed that follows it. */
  lemma LinesOfReturnFeed(line: string, rest: string)
    requires IsLine(line)
    ensures Lines(line + ("\r\n" + rest)) == [line] + Lines(rest)
  {
    var s := line + ("\r\n" + rest);
    LineEndAt(line, "\r\n" + rest);
    assert s[..|line|] == line && s[|line| + 2..] == rest && s[|line|] == '\r' && s[|line| + 1] == '\n';
  }

  /** Or alone. */
  lemma LinesOfReturn(line: string, rest: string)
    requires IsLine(line) && (rest == "" || rest[0] != '\n')
    ensures Lines(line + ("\r" + rest)) == [line] + Lines(rest)
  {
    var s := line + ("\r" + rest);
    LineEndAt(line, "\r" + rest);
    assert s[..|line|] == line && s[|line| + 1..] == rest && s[|line|] == '\r';
    assert rest != "" ==> s[|line| + 1] == rest[0];
  }

  /** A tab, a line break, a separator or a space between two words separates them. */
  lemma SplitsAtBlank(a: string, c: char, b: string)
    requires IsWord(a) && IsWord(b)
    requires c == ' ' || c == '\t' || c == '\n' || c == '\U{000B}' || c == '\U{000C}' || c == '\r' || '\U{001C}' <= c <= '\U{001F}'
    ensures Fields(a + ([c] + b)) == [a, b]
  {
    FieldsOfWord(a, [c] + b);
    BlankInFront(c, b);
    FieldsOfWord(b, "");
    assert b + "" == b;
  }
}
