/**
 * The batch driver (class Main): the fixed list of twenty lengths, the report
 * buffer that receives one delimited block per length, and the step from the
 * six answers to the pool and on to the report.
 */
module Driver {
  import opened Wrappers
  import CharacterSetManager
  import PasswordGenerator

  /** The target lengths, in the order the report lists them. */
  const LENGTHS: seq<nat> :=
    [10000, 20000, 30000, 40000, 50000, 60000, 70000, 80000, 90000, 100000,
     150000, 200000, 300000, 400000, 500000, 600000, 700000, 800000, 900000, 1000000]

  /** The line of fifty dashes that opens and closes every block. */
  const DELIMITER: string := "--------------------------------------------------\n"

  /** The words ahead of the length on a block's header line. */
  const HEADER: string := "Пароль длиной "

  /** The decimal digit for d. */
  function Digit(d: nat): char
    requires d < 10
  {
    "0123456789"[d]
  }

  /** The value of a decimal digit. */
  function DigitValue(c: char): nat
  {
    if '0' <= c <= '9' then c as nat - '0' as nat else 0
  }

  /** A non-negative int as StringBuilder.append writes it: decimal, no leading zeros. */
  function DecimalString(n: nat): (s: string)
    ensures |s| > 0
    ensures forall k :: 0 <= k < |s| ==> '0' <= s[k] <= '9'
    ensures s[0] == '0' ==> n == 0
  {
    if n < 10 then [Digit(n)] else DecimalString(n / 10) + [Digit(n % 10)]
  }

  /** The number a string of decimal digits denotes. */
  function ParseDecimal(s: string): nat
  {
    if |s| == 0 then 0 else 10 * ParseDecimal(s[..|s| - 1]) + DigitValue(s[|s| - 1])
  }

  /** Reading the digits back gives the number written. */
  lemma {:induction false} DecimalRoundTrip(n: nat)
    ensures ParseDecimal(DecimalString(n)) == n
  {
    var s := DecimalString(n);
    if n >= 10 {
      DecimalRoundTrip(n / 10);
      assert s[..|s| - 1] == DecimalString(n / 10);
    }
  }

  /** One block of the report: delimiter, header with the length, the password, delimiter. */
  function Block(length: nat, password: string): string
  {
    DELIMITER + HEADER + DecimalString(length) + ":\n" + password + "\n" + DELIMITER
  }

  /**
   * A block can be read back: it opens and closes with the delimiter, the
   * header is followed by the digits of the length and ":\n", and the
   * password stands between that and the closing "\n" and delimiter.
   */
  lemma BlockParts(length: nat, password: string)
    ensures var b, d, h, n := Block(length, password), |DELIMITER|, |HEADER|, |DecimalString(length)|;
      |b| == d + h + n + 2 + |password| + 1 + d &&
      b[..d] == DELIMITER &&
      b[d..d + h] == HEADER &&
      ParseDecimal(b[d + h..d + h + n]) == length &&
      b[d + h + n..d + h + n + 2] == ":\n" &&
      b[d + h + n + 2..d + h + n + 2 + |password|] == password &&
      b[d + h + n + 2 + |password|..] == "\n" + DELIMITER
  {
    DecimalRoundTrip(length);
    SevenParts(DELIMITER, HEADER, DecimalString(length), ":\n", password, "\n", DELIMITER);
  }

  /** Each of seven concatenated pieces can be sliced back out at its offset. */
  lemma SevenParts(p1: string, p2: string, p3: string, p4: string, p5: string, p6: string, p7: string)
    ensures var s, a, b, c, d, e := p1 + p2 + p3 + p4 + p5 + p6 + p7, |p1|, |p2|, |p3|, |p4|, |p5|;
      |s| == a + b + c + d + e + |p6| + |p7| &&
      s[..a] == p1 && s[a..a + b] == p2 && s[a + b..a + b + c] == p3 &&
      s[a + b + c..a + b + c + d] == p4 && s[a + b + c + d..a + b + c + d + e] == p5 &&
      s[a + b + c + d + e..] == p6 + p7
  {
    var s, a, b, c, d, e := p1 + p2 + p3 + p4 + p5 + p6 + p7, |p1|, |p2|, |p3|, |p4|, |p5|;
    assert s == p1 + (p2 + (p3 + (p4 + (p5 + (p6 + p7)))));
  }

  /** The first block of every report is headed "Пароль длиной 10000:". */
  lemma FirstBlockHeader(password: string)
    ensures Block(LENGTHS[0], password) ==
      DELIMITER + "Пароль длиной 10000:\n" + password + "\n" + DELIMITER
  {
    assert DecimalString(10) == "10";
    assert DecimalString(1000) == "1000";
    assert DecimalString(10000) == "10000";
  }

  /** The blocks for entries lo up to (not including) hi, in list order. */
  function Blocks(lengths: seq<nat>, passwords: seq<string>, lo: nat, hi: nat): string
    requires hi <= |lengths| && hi <= |passwords|
  {
    if hi <= lo then "" else Blocks(lengths, passwords, lo, hi - 1) + Block(lengths[hi - 1], passwords[hi - 1])
  }

  /** The whole report: one block per entry, in list order. */
  function Report(lengths: seq<nat>, passwords: seq<string>): string
    requires |lengths| == |passwords|
  {
    Blocks(lengths, passwords, 0, |lengths|)
  }

  /** The blocks of a range are those of its two halves, one after the other. */
  lemma {:induction false} BlocksSplit(lengths: seq<nat>, passwords: seq<string>, lo: nat, mid: nat, hi: nat)
    requires |lengths| == |passwords| && lo <= mid <= hi <= |lengths|
    ensures Blocks(lengths, passwords, lo, hi) ==
      Blocks(lengths, passwords, lo, mid) + Blocks(lengths, passwords, mid, hi)
  {
    if mid < hi {
      BlocksSplit(lengths, passwords, lo, mid, hi - 1);
    }
  }

  /** Block i of the report stands after blocks 0..i-1 and before all the later ones. */
  lemma BlockAt(lengths: seq<nat>, passwords: seq<string>, i: nat)
    requires |lengths| == |passwords| && i < |lengths|
    ensures Report(lengths, passwords) ==
      Blocks(lengths, passwords, 0, i) + Block(lengths[i], passwords[i])
      + Blocks(lengths, passwords, i + 1, |lengths|)
  {
    BlocksSplit(lengths, passwords, 0, i + 1, |lengths|);
  }

  /** The twenty lengths rise strictly from ten thousand to one million. */
  lemma LengthsShape()
    ensures |LENGTHS| == 20
    ensures LENGTHS[0] == 10000 && LENGTHS[19] == 1000000
    ensures forall i, j :: 0 <= i < j < |LENGTHS| ==> LENGTHS[i] < LENGTHS[j]
  {
  }

  /**
   * generateAndSavePasswords, up to the file write: the report over the fixed
   * list of lengths. The buffer it returns is the text handed to the file writer.
   */
  method GenerateAndSavePasswords(validChars: string) returns (fileContent: string, ghost passwords: seq<string>)
    requires |validChars| > 0
    ensures |passwords| == |LENGTHS| == 20
    ensures forall i :: 0 <= i < |LENGTHS| ==>
      |passwords[i]| == LENGTHS[i] && PasswordGenerator.Over(passwords[i], validChars)
    ensures fileContent == Report(LENGTHS, passwords)
  {
    fileContent, passwords := AppendBlocks(LENGTHS, validChars);
  }

  /**
   * The report loop: for each length in turn, runs the timed task, which
   * generates a password of that length and appends its block to the buffer.
   */
  method AppendBlocks(lengths: seq<nat>, validChars: string) returns (fileContent: string, ghost passwords: seq<string>)
    requires |validChars| > 0
    ensures |passwords| == |lengths|
    ensures forall i :: 0 <= i < |lengths| ==>
      |passwords[i]| == lengths[i] && PasswordGenerator.Over(passwords[i], validChars)
    ensures fileContent == Report(lengths, passwords)
  {
    fileContent := "";
    passwords := [];
    for i := 0 to |lengths|
      invariant |passwords| == i
      invariant forall j :: 0 <= j < i ==>
        |passwords[j]| == lengths[j] && PasswordGenerator.Over(passwords[j], validChars)
      invariant fileContent == Blocks(lengths, passwords, 0, i)
    {
      var password;
      fileContent, password := TimedTask(fileContent, lengths[i], validChars);
      BlocksPrefix(lengths, passwords, password, i);
      passwords := passwords + [password];
    }
  }

  /**
   * The task the timer runs for one length: generates a password of that
   * length from the pool and appends its block to the buffer.
   */
  method TimedTask(fileContent: string, length: nat, validChars: string)
    returns (newContent: string, password: string)
    requires |validChars| > 0
    ensures |password| == length && PasswordGenerator.Over(password, validChars)
    ensures newContent == fileContent + Block(length, password)
  {
    ghost var draws;
    password, draws := PasswordGenerator.GeneratePassword(length, validChars);
    newContent := fileContent + DELIMITER;
    newContent := newContent + HEADER + DecimalString(length) + ":\n";
    newContent := newContent + password + "\n";
    newContent := newContent + DELIMITER;
  }

  /** Blocks up to hi read no password past hi. */
  lemma {:induction false} BlocksPrefix(lengths: seq<nat>, passwords: seq<string>, password: string, hi: nat)
    requires hi <= |lengths| && hi <= |passwords|
    ensures Blocks(lengths, passwords + [password], 0, hi) == Blocks(lengths, passwords, 0, hi)
  {
    if hi > 0 {
      BlocksPrefix(lengths, passwords, password, hi - 1);
    }
  }

  /** How a run ends: with the configuration error, or with the report for the file. */
  datatype RunOutcome =
    | ConfigurationFailed(message: string)
    | ReportReady(content: string)

  /**
   * main, from the six answers on: builds the pool and, when that succeeds,
   * generates the report; when no alphabet is chosen the builder's error is
   * reported and no password is generated.
   */
  method Run(userChoices: seq<bool>) returns (outcome: RunOutcome, ghost passwords: seq<string>)
    requires |userChoices| == 6
    ensures outcome.ConfigurationFailed? <==> !CharacterSetManager.AnySelected(userChoices)
    ensures outcome.ConfigurationFailed? ==> outcome.message == CharacterSetManager.EMPTY_SELECTION && passwords == []
    ensures outcome.ReportReady? ==>
      && |passwords| == |LENGTHS|
      && (forall i :: 0 <= i < |LENGTHS| ==>
            && |passwords[i]| == LENGTHS[i]
            && PasswordGenerator.Over(passwords[i], CharacterSetManager.Select(CharacterSetManager.ALPHABETS, userChoices)))
      && outcome.content == Report(LENGTHS, passwords)
  {
    var built := CharacterSetManager.BuildValidCharacters(
      userChoices[0], userChoices[1], userChoices[2], userChoices[3], userChoices[4], userChoices[5]);
    assert userChoices == [userChoices[0], userChoices[1], userChoices[2], userChoices[3], userChoices[4], userChoices[5]];
    match built
    case Failure(e) =>
      outcome, passwords := ConfigurationFailed(e.message), [];
    case Success(validChars) =>
      var content;
      content, passwords := GenerateAndSavePasswords(validChars);
      outcome := ReportReady(content);
  }
}
