/**
 * The yes/no prompt (class UserInputHandler). Each input line is trimmed and
 * lower-cased; "да" answers yes, "нет" answers no, and any other line is
 * rejected and the next line is read.
 */
module UserInputHandler {
  import opened Wrappers

  const YES: string := "да"
  const NO: string := "нет"

  /** Characters that String.trim removes from both ends: every code point up to U+0020. */
  predicate IsTrimmable(c: char)
  {
    c <= ' '
  }

  /** Drops the trimmable characters at the front. */
  function TrimStart(s: string): (r: string)
    ensures |r| <= |s|
  {
    if |s| > 0 && IsTrimmable(s[0]) then TrimStart(s[1..]) else s
  }

  /** Drops the trimmable characters at the back. */
  function TrimEnd(s: string): (r: string)
    ensures |r| <= |s|
  {
    if |s| > 0 && IsTrimmable(s[|s| - 1]) then TrimEnd(s[..|s| - 1]) else s
  }

  /** String.trim: drops the trimmable characters at both ends. */
  function Trim(s: string): (r: string)
    ensures |r| <= |s|
  {
    TrimEnd(TrimStart(s))
  }

  /** TrimStart removes a run of trimmable characters and stops at the first other one. */
  lemma {:induction false} TrimStartSpec(s: string)
    ensures var r := TrimStart(s);
      && |r| <= |s| && r == s[|s| - |r|..]
      && (forall k :: 0 <= k < |s| - |r| ==> IsTrimmable(s[k]))
      && (r == [] || !IsTrimmable(r[0]))
  {
    if |s| > 0 && IsTrimmable(s[0]) {
      TrimStartSpec(s[1..]);
    }
  }

  /** TrimEnd removes a run of trimmable characters and stops at the last other one. */
  lemma {:induction false} TrimEndSpec(s: string)
    ensures var r := TrimEnd(s);
      && |r| <= |s| && r == s[..|r|]
      && (forall k :: |r| <= k < |s| ==> IsTrimmable(s[k]))
      && (r == [] || !IsTrimmable(r[|r| - 1]))
  {
    if |s| > 0 && IsTrimmable(s[|s| - 1]) {
      TrimEndSpec(s[..|s| - 1]);
    }
  }

  /**
   * The trimmed line is the stretch of the line between a leading and a trailing
   * run of trimmable characters, and it neither starts nor ends with one.
   */
  lemma TrimSpec(s: string)
    ensures var t, i := Trim(s), |s| - |TrimStart(s)|;
      && i + |t| <= |s|
      && t == s[i..i + |t|]
      && (forall k :: 0 <= k < i ==> IsTrimmable(s[k]))
      && (forall k :: i + |t| <= k < |s| ==> IsTrimmable(s[k]))
      && (t == [] || (!IsTrimmable(t[0]) && !IsTrimmable(t[|t| - 1])))
  {
    var u := TrimStart(s);
    var t := TrimEnd(u);
    var i := |s| - |u|;
    TrimStartSpec(s);
    TrimEndSpec(u);
    assert u == s[i..];
    assert t == s[i..i + |t|];
    forall k | i + |t| <= k < |s| ensures IsTrimmable(s[k]) {
      assert s[k] == u[k - i];
    }
  }

  /** Trimming a trimmed line changes nothing. */
  lemma TrimIdempotent(s: string)
    ensures Trim(Trim(s)) == Trim(s)
  {
    var t := Trim(s);
    TrimSpec(s);
    if t != [] {
      assert TrimStart(t) == t;
      assert TrimEnd(t) == t;
    }
  }

  /**
   * String.toLowerCase on one character, for the Latin and Cyrillic capitals:
   * A-Z and А-Я move up by 0x20, Ѐ-Џ (U+0400..U+040F, Ё among them) by 0x50.
   */
  function LowerChar(c: char): (d: char)
    ensures !('A' <= d <= 'Z') && !(0x400 <= d as int <= 0x42F)
    ensures d == c || d as int == c as int + 0x20 || d as int == c as int + 0x50
  {
    if 'A' <= c <= 'Z' then (c as int + 0x20) as char
    else if 0x410 <= c as int <= 0x42F then (c as int + 0x20) as char
    else if 0x400 <= c as int <= 0x40F then (c as int + 0x50) as char
    else c
  }

  /** String.toLowerCase, character by character. */
  function ToLower(s: string): (r: string)
    ensures |r| == |s|
  {
    seq(|s|, k requires 0 <= k < |s| => LowerChar(s[k]))
  }

  /** Lower-casing a lower-cased text changes nothing. */
  lemma ToLowerIdempotent(s: string)
    ensures ToLower(ToLower(s)) == ToLower(s)
  {
  }

  /** The normalised input line: trimmed, then lower-cased. */
  function Normalise(line: string): (r: string)
    ensures |r| <= |line|
  {
    ToLower(Trim(line))
  }

  /** The answer a line gives, if it is one of the two recognised tokens. */
  function Classify(line: string): (r: Option<bool>)
    ensures r == Some(true) <==> Normalise(line) == YES
    ensures r == Some(false) <==> Normalise(line) == NO
  {
    var input := Normalise(line);
    if input == YES then Some(true)
    else if input == NO then Some(false)
    else None
  }

  /** What reading answers off a list of input lines ends in. */
  datatype Reply =
    | Answer(choice: bool, consumed: nat)  // the answer and how many lines were read to get it
    | EndOfInput                           // the lines ran out before a recognised one

  /**
   * r is the reply to lines: an answer comes from the first recognised line,
   * every line before it being unrecognised; the input ends only when no line is recognised.
   */
  predicate IsFirstAnswer(lines: seq<string>, r: Reply)
  {
    match r
    case Answer(b, n) =>
      && 1 <= n <= |lines|
      && Classify(lines[n - 1]) == Some(b)
      && forall j :: 0 <= j < n - 1 ==> Classify(lines[j]) == None
    case EndOfInput =>
      forall j :: 0 <= j < |lines| ==> Classify(lines[j]) == None
  }

  /** The reply after n more unrecognised lines have been read first. */
  function Shifted(r: Reply, n: nat): Reply
  {
    match r
    case Answer(b, m) => Answer(b, m + n)
    case EndOfInput => EndOfInput
  }

  /** The reply to lines, read one line at a time. */
  function FirstAnswer(lines: seq<string>): (r: Reply)
    ensures IsFirstAnswer(lines, r)
  {
    if |lines| == 0 then EndOfInput
    else match Classify(lines[0])
      case Some(b) => Answer(b, 1)
      case None => Shifted(FirstAnswer(lines[1..]), 1)
  }

  /** getUserChoice: reads lines until one is recognised and returns its answer. */
  method GetUserChoice(lines: seq<string>) returns (r: Reply)
    ensures IsFirstAnswer(lines, r)
    ensures r == FirstAnswer(lines)
  {
    var i := 0;
    while i < |lines|
      invariant 0 <= i <= |lines|
      invariant forall j :: 0 <= j < i ==> Classify(lines[j]) == None
    {
      var input := Normalise(lines[i]);
      if input == YES {
        r := Answer(true, i + 1);
        FirstAnswerUnique(lines, r, FirstAnswer(lines));
        return;
      } else if input == NO {
        r := Answer(false, i + 1);
        FirstAnswerUnique(lines, r, FirstAnswer(lines));
        return;
      }
      i := i + 1;
    }
    r := EndOfInput;
    FirstAnswerUnique(lines, r, FirstAnswer(lines));
  }

  /** A list of lines has one reply. */
  lemma FirstAnswerUnique(lines: seq<string>, r1: Reply, r2: Reply)
    requires IsFirstAnswer(lines, r1) && IsFirstAnswer(lines, r2)
    ensures r1 == r2
  {
  }

  /** Unrecognised lines ahead of the rest are consumed and change nothing else. */
  lemma {:induction false} SkipUnrecognised(skipped: seq<string>, rest: seq<string>)
    requires forall j :: 0 <= j < |skipped| ==> Classify(skipped[j]) == None
    ensures FirstAnswer(skipped + rest) == Shifted(FirstAnswer(rest), |skipped|)
  {
    if |skipped| > 0 {
      SkipUnrecognised(skipped[1..], rest);
      var lines := skipped + rest;
      assert lines[0] == skipped[0];
      assert lines[1..] == skipped[1..] + rest;
      assert FirstAnswer(lines) == Shifted(FirstAnswer(lines[1..]), 1);
    } else {
      assert skipped + rest == rest;
    }
  }

  /** Lines after the first recognised one never change the reply. */
  lemma LaterLinesIgnored(lines: seq<string>, more: seq<string>)
    requires FirstAnswer(lines).Answer?
    ensures FirstAnswer(lines + more) == FirstAnswer(lines)
  {
    var r := FirstAnswer(lines);
    assert IsFirstAnswer(lines + more, r) by {
      assert (lines + more)[r.consumed - 1] == lines[r.consumed - 1];
      forall j | 0 <= j < r.consumed - 1 ensures Classify((lines + more)[j]) == None {
        assert (lines + more)[j] == lines[j];
      }
    }
    FirstAnswerUnique(lines + more, r, FirstAnswer(lines + more));
  }

  /**
   * t equals w up to the case of its letters, for a word w over а..я: each
   * character of t is that letter or its capital, 0x20 below it. The offset
   * is wrong for other letters (ё and Ё differ by 0x50), so it is used only
   * with such words.
   */
  predicate EqualIgnoringCyrillicCase(t: string, w: string)
  {
    && |t| == |w|
    && forall k :: 0 <= k < |w| ==> t[k] == w[k] || t[k] as int == w[k] as int - 0x20
  }

  /** A Cyrillic small letter а..я is the lower case of itself and of its capital only. */
  lemma LowerCharCyrillic(c: char, d: char)
    requires 0x430 <= d as int <= 0x44F
    ensures LowerChar(c) == d <==> c == d || c as int == d as int - 0x20
  {
  }

  /** Lower-casing gives the Cyrillic word w exactly when the text equals w ignoring case. */
  lemma {:induction false} ToLowerCyrillic(t: string, w: string)
    requires forall k :: 0 <= k < |w| ==> 0x430 <= w[k] as int <= 0x44F
    ensures ToLower(t) == w <==> EqualIgnoringCyrillicCase(t, w)
  {
    if ToLower(t) == w {
      forall k | 0 <= k < |w| ensures t[k] == w[k] || t[k] as int == w[k] as int - 0x20 {
        LowerCharCyrillic(t[k], w[k]);
      }
    }
    if EqualIgnoringCyrillicCase(t, w) {
      forall k | 0 <= k < |w| ensures ToLower(t)[k] == w[k] {
        LowerCharCyrillic(t[k], w[k]);
      }
    }
  }

  /** A line answers yes exactly when, trimmed, it spells "да" in any mix of cases. */
  lemma YesIff(line: string)
    ensures Classify(line) == Some(true) <==> EqualIgnoringCyrillicCase(Trim(line), YES)
  {
    ToLowerCyrillic(Trim(line), YES);
  }

  /** A line answers no exactly when, trimmed, it spells "нет" in any mix of cases. */
  lemma NoIff(line: string)
    ensures Classify(line) == Some(false) <==> EqualIgnoringCyrillicCase(Trim(line), NO)
  {
    ToLowerCyrillic(Trim(line), NO);
  }

  /** Surrounding blanks and capitals do not matter; other words are not answers. */
  lemma ClassifyExamples()
    ensures Classify(" ДА\t") == Some(true)
    ensures Classify("Нет") == Some(false)
    ensures Classify("yes") == None
  {
    assert Trim(" ДА\t") == "ДА";
    assert ToLower("ДА") == YES;
    assert Trim("Нет") == "Нет";
    assert ToLower("Нет") == NO;
    assert Normalise("yes") == "yes";
  }
}
