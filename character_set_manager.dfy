/**
 * The character-pool builder (class CharacterSetManager): six fixed alphabets,
 * chosen by six flags, appended in a fixed order; an empty choice is an error.
 */
module CharacterSetManager {
  import opened Wrappers

  const LOWERCASE: string := "abcdefghijklmnopqrstuvwxyz"
  const UPPERCASE: string := "ABCDEFGHIJKLMNOPQRSTUVWXYZ"
  const DIGITS: string := "0123456789"
  const SPECIAL_CHARS: string := "!@#$%^&*()-_=+[]{}|;:',.<>?"
  const CYRILLIC_LOWER: string := "абвгдеёжзийклмнопрстуфхцчшщъыьэюя"
  const CYRILLIC_UPPER: string := "АБВГДЕЁЖЗИЙКЛМНОПРСТУФХЦЧШЩЪЫЬЭЮЯ"

  /** The alphabets in the order in which the builder appends them. */
  const ALPHABETS: seq<string> :=
    [LOWERCASE, UPPERCASE, DIGITS, SPECIAL_CHARS, CYRILLIC_LOWER, CYRILLIC_UPPER]

  /** The message of the IllegalArgumentException thrown for an empty selection. */
  const EMPTY_SELECTION: string := "Должен быть выбран хотя бы один набор символов"

  /** The error raised by the builder. */
  datatype ConfigurationError = InvalidConfiguration(message: string)

  /** The concatenation, in order, of those of the first n alphabets whose flag is set. */
  function SelectFirst(alphabets: seq<string>, flags: seq<bool>, n: nat): string
    requires |flags| == |alphabets| && n <= |alphabets|
  {
    if n == 0 then ""
    else if flags[n - 1] then SelectFirst(alphabets, flags, n - 1) + alphabets[n - 1]
    else SelectFirst(alphabets, flags, n - 1)
  }

  /** The concatenation, in order, of the alphabets whose flag is set. */
  function Select(alphabets: seq<string>, flags: seq<bool>): string
    requires |flags| == |alphabets|
  {
    SelectFirst(alphabets, flags, |alphabets|)
  }

  /** The sum of the sizes of the first n alphabets whose flag is set. */
  function SelectedSize(alphabets: seq<string>, flags: seq<bool>, n: nat): nat
    requires |flags| == |alphabets| && n <= |alphabets|
  {
    if n == 0 then 0
    else SelectedSize(alphabets, flags, n - 1) + (if flags[n - 1] then |alphabets[n - 1]| else 0)
  }

  /** Some flag is set. */
  predicate AnySelected(flags: seq<bool>)
  {
    true in flags
  }

  /**
   * buildValidCharacters: appends each chosen alphabet in the fixed order and
   * throws when nothing was chosen.
   */
  method BuildValidCharacters(useLowercase: bool, useUppercase: bool, useDigits: bool,
                              useSpecialChars: bool, useCyrillicLower: bool, useCyrillicUpper: bool)
    returns (r: Result<string, ConfigurationError>)
    ensures r.Failure? <==> !AnySelected([useLowercase, useUppercase, useDigits, useSpecialChars, useCyrillicLower, useCyrillicUpper])
    ensures r.Failure? ==> r.error == InvalidConfiguration(EMPTY_SELECTION)
    ensures r.Success? ==> |r.value| > 0
    ensures r.Success? ==>
      r.value == Select(ALPHABETS, [useLowercase, useUppercase, useDigits, useSpecialChars, useCyrillicLower, useCyrillicUpper])
  {
    ghost var flags := [useLowercase, useUppercase, useDigits, useSpecialChars, useCyrillicLower, useCyrillicUpper];
    var validChars := "";
    if useLowercase { validChars := validChars + LOWERCASE; }
    assert validChars == SelectFirst(ALPHABETS, flags, 1);
    if useUppercase { validChars := validChars + UPPERCASE; }
    assert validChars == SelectFirst(ALPHABETS, flags, 2);
    if useDigits { validChars := validChars + DIGITS; }
    assert validChars == SelectFirst(ALPHABETS, flags, 3);
    if useSpecialChars { validChars := validChars + SPECIAL_CHARS; }
    assert validChars == SelectFirst(ALPHABETS, flags, 4);
    if useCyrillicLower { validChars := validChars + CYRILLIC_LOWER; }
    assert validChars == SelectFirst(ALPHABETS, flags, 5);
    if useCyrillicUpper { validChars := validChars + CYRILLIC_UPPER; }
    assert validChars == Select(ALPHABETS, flags);

    PoolEmpty(flags);
    if |validChars| == 0 {
      return Failure(InvalidConfiguration(EMPTY_SELECTION));
    }
    return Success(validChars);
  }

  /** The six-flag pool is empty exactly when no flag is set. */
  lemma PoolEmpty(flags: seq<bool>)
    requires |flags| == |ALPHABETS|
    ensures Select(ALPHABETS, flags) == "" <==> !AnySelected(flags)
  {
    NoAlphabetEmpty();
    SelectEmpty(ALPHABETS, flags, 6);
  }

  /** None of the six alphabets is empty. */
  lemma NoAlphabetEmpty()
    ensures forall k :: 0 <= k < |ALPHABETS| ==> |ALPHABETS[k]| > 0
  {
  }

  /** The pool is empty exactly when none of the chosen alphabets has a character. */
  lemma {:induction false} SelectEmpty(alphabets: seq<string>, flags: seq<bool>, n: nat)
    requires |flags| == |alphabets| && n <= |alphabets|
    requires forall k :: 0 <= k < |alphabets| ==> |alphabets[k]| > 0
    ensures SelectFirst(alphabets, flags, n) == "" <==> forall k :: 0 <= k < n ==> !flags[k]
  {
    if n > 0 {
      SelectEmpty(alphabets, flags, n - 1);
    }
  }

  /** The pool is as long as the chosen alphabets together. */
  lemma {:induction false} SelectLength(alphabets: seq<string>, flags: seq<bool>, n: nat)
    requires |flags| == |alphabets| && n <= |alphabets|
    ensures |SelectFirst(alphabets, flags, n)| == SelectedSize(alphabets, flags, n)
  {
    if n > 0 {
      SelectLength(alphabets, flags, n - 1);
    }
  }

  /** A character is in the pool exactly when some chosen alphabet holds it. */
  lemma {:induction false} SelectMembership(alphabets: seq<string>, flags: seq<bool>, n: nat, c: char)
    requires |flags| == |alphabets| && n <= |alphabets|
    ensures c in SelectFirst(alphabets, flags, n) <==>
      exists k :: 0 <= k < n && flags[k] && c in alphabets[k]
  {
    if n > 0 {
      SelectMembership(alphabets, flags, n - 1, c);
    }
  }

  /** With every flag set the pool holds 26 + 26 + 10 + 27 + 33 + 33 characters. */
  lemma FullPoolSize()
    ensures |Select(ALPHABETS, [true, true, true, true, true, true])| == 155
  {
    var flags := [true, true, true, true, true, true];
    SelectLength(ALPHABETS, flags, 6);
    assert SelectedSize(ALPHABETS, flags, 1) == 26;
    assert SelectedSize(ALPHABETS, flags, 2) == 52;
    assert SelectedSize(ALPHABETS, flags, 3) == 62;
    assert SelectedSize(ALPHABETS, flags, 4) == 89;
    assert SelectedSize(ALPHABETS, flags, 5) == 122;
  }

  /** Choosing only the Latin lower-case letters gives exactly that alphabet. */
  lemma LowercaseOnly()
    ensures Select(ALPHABETS, [true, false, false, false, false, false]) == "abcdefghijklmnopqrstuvwxyz"
  {
    var flags := [true, false, false, false, false, false];
    assert SelectFirst(ALPHABETS, flags, 1) == LOWERCASE;
    assert SelectFirst(ALPHABETS, flags, 2) == LOWERCASE;
    assert SelectFirst(ALPHABETS, flags, 3) == LOWERCASE;
    assert SelectFirst(ALPHABETS, flags, 4) == LOWERCASE;
    assert SelectFirst(ALPHABETS, flags, 5) == LOWERCASE;
  }

  /** No character occurs twice in s. */
  predicate Distinct(s: string)
  {
    forall i, j :: 0 <= i < j < |s| ==> s[i] != s[j]
  }

  /** No character belongs to two different alphabets. */
  predicate PairwiseDisjoint(alphabets: seq<string>)
  {
    forall k1, k2, c :: 0 <= k1 < k2 < |alphabets| && c in alphabets[k1] ==> c !in alphabets[k2]
  }

  /** Which of the six alphabets' character ranges c falls in (6 for none). */
  function Range(c: char): nat
  {
    if 'a' <= c <= 'z' then 0
    else if 'A' <= c <= 'Z' then 1
    else if '0' <= c <= '9' then 2
    else if ' ' < c <= '~' then 3
    else if 0x430 <= c as int <= 0x44F || c as int == 0x451 then 4
    else if 0x410 <= c as int <= 0x42F || c as int == 0x401 then 5
    else 6
  }

  /** s has no repeated character and lies in range k. */
  predicate InOwnRange(s: string, k: nat)
  {
    Distinct(s) && forall i :: 0 <= i < |s| ==> Range(s[i]) == k
  }

  /**
   * Orders characters by code point, except that ё and Ё are placed right
   * after е and Е, where the alphabets list them.
   */
  function Key(c: char): int
  {
    if c == 'ё' then 2 * 0x435 + 1
    else if c == 'Ё' then 2 * 0x415 + 1
    else 2 * c as int
  }

  /** The key rises from s[i] to s[i + 1] for every i in [lo, hi). */
  predicate AscendingOn(s: string, lo: nat, hi: nat)
  {
    forall i :: lo <= i < hi && i + 1 < |s| ==> Key(s[i]) < Key(s[i + 1])
  }

  /** s[i] occurs nowhere after position i, for every i in [lo, hi). */
  predicate DistinctOn(s: string, lo: nat, hi: nat)
  {
    forall i, j :: lo <= i < hi && i < j < |s| ==> s[i] != s[j]
  }

  /** Keys that rise step by step rise between any two positions. */
  lemma {:induction false} AscendingBetween(s: string, i: nat, j: nat)
    requires AscendingOn(s, 0, |s|) && i < j < |s|
    ensures Key(s[i]) < Key(s[j])
    decreases j - i
  {
    if i + 1 < j {
      AscendingBetween(s, i + 1, j);
    }
  }

  /** A string whose keys rise step by step repeats no character. */
  lemma AscendingDistinct(s: string)
    requires AscendingOn(s, 0, |s|)
    ensures Distinct(s)
  {
    forall i, j | 0 <= i < j < |s|
      ensures Key(s[i]) < Key(s[j])
    {
      AscendingBetween(s, i, j);
    }
  }

  // The lemmas below check the constants a few positions at a time: one proof
  // over a whole 26- or 33-character constant makes the solver compare too
  // many pairs of positions at once, so each lemma covers a short stretch.

  lemma LowercaseSteps0()
    ensures AscendingOn(LOWERCASE, 0, 9)
  {
  }

  lemma LowercaseSteps9()
    ensures AscendingOn(LOWERCASE, 9, 18)
  {
  }

  lemma LowercaseSteps18()
    ensures AscendingOn(LOWERCASE, 18, 25)
  {
  }

  lemma LowercaseDistinct()
    ensures Distinct(LOWERCASE)
  {
    LowercaseSteps0(); LowercaseSteps9(); LowercaseSteps18();
    AscendingDistinct(LOWERCASE);
  }

  lemma UppercaseSteps0()
    ensures AscendingOn(UPPERCASE, 0, 9)
  {
  }

  lemma UppercaseSteps9()
    ensures AscendingOn(UPPERCASE, 9, 18)
  {
  }

  lemma UppercaseSteps18()
    ensures AscendingOn(UPPERCASE, 18, 25)
  {
  }

  lemma UppercaseDistinct()
    ensures Distinct(UPPERCASE)
  {
    UppercaseSteps0(); UppercaseSteps9(); UppercaseSteps18();
    AscendingDistinct(UPPERCASE);
  }

  lemma DigitsSteps0()
    ensures AscendingOn(DIGITS, 0, 9)
  {
  }

  lemma DigitsDistinct()
    ensures Distinct(DIGITS)
  {
    DigitsSteps0();
    AscendingDistinct(DIGITS);
  }

  lemma SpecialCharsFrom0()
    ensures DistinctOn(SPECIAL_CHARS, 0, 2)
  {
  }

  lemma SpecialCharsFrom2()
    ensures DistinctOn(SPECIAL_CHARS, 2, 4)
  {
  }

  lemma SpecialCharsFrom4()
    ensures DistinctOn(SPECIAL_CHARS, 4, 7)
  {
  }

  lemma SpecialCharsFrom7()
    ensures DistinctOn(SPECIAL_CHARS, 7, 10)
  {
  }

  lemma SpecialCharsFrom10()
    ensures DistinctOn(SPECIAL_CHARS, 10, 14)
  {
  }

  lemma SpecialCharsFrom14()
    ensures DistinctOn(SPECIAL_CHARS, 14, 19)
  {
  }

  lemma SpecialCharsFrom19()
    ensures DistinctOn(SPECIAL_CHARS, 19, 27)
  {
  }

  lemma SpecialCharsDistinct()
    ensures Distinct(SPECIAL_CHARS)
  {
    SpecialCharsFrom0(); SpecialCharsFrom2(); SpecialCharsFrom4(); SpecialCharsFrom7();
    SpecialCharsFrom10(); SpecialCharsFrom14(); SpecialCharsFrom19();
  }

  lemma CyrillicLowerSteps0()
    ensures AscendingOn(CYRILLIC_LOWER, 0, 8)
  {
  }

  lemma CyrillicLowerSteps8()
    ensures AscendingOn(CYRILLIC_LOWER, 8, 16)
  {
  }

  lemma CyrillicLowerSteps16()
    ensures AscendingOn(CYRILLIC_LOWER, 16, 24)
  {
  }

  lemma CyrillicLowerSteps24()
    ensures AscendingOn(CYRILLIC_LOWER, 24, 32)
  {
  }

  lemma CyrillicLowerDistinct()
    ensures Distinct(CYRILLIC_LOWER)
  {
    CyrillicLowerSteps0(); CyrillicLowerSteps8(); CyrillicLowerSteps16(); CyrillicLowerSteps24();
    AscendingDistinct(CYRILLIC_LOWER);
  }

  lemma CyrillicUpperSteps0()
    ensures AscendingOn(CYRILLIC_UPPER, 0, 8)
  {
  }

  lemma CyrillicUpperSteps8()
    ensures AscendingOn(CYRILLIC_UPPER, 8, 16)
  {
  }

  lemma CyrillicUpperSteps16()
    ensures AscendingOn(CYRILLIC_UPPER, 16, 24)
  {
  }

  lemma CyrillicUpperSteps24()
    ensures AscendingOn(CYRILLIC_UPPER, 24, 32)
  {
  }

  lemma CyrillicUpperDistinct()
    ensures Distinct(CYRILLIC_UPPER)
  {
    CyrillicUpperSteps0(); CyrillicUpperSteps8(); CyrillicUpperSteps16(); CyrillicUpperSteps24();
    AscendingDistinct(CYRILLIC_UPPER);
  }

  lemma LowercaseInRange()
    ensures forall i :: 0 <= i < |LOWERCASE| ==> Range(LOWERCASE[i]) == 0
  {
  }

  lemma UppercaseInRange()
    ensures forall i :: 0 <= i < |UPPERCASE| ==> Range(UPPERCASE[i]) == 1
  {
  }

  lemma DigitsInRange()
    ensures forall i :: 0 <= i < |DIGITS| ==> Range(DIGITS[i]) == 2
  {
  }

  lemma SpecialCharsInRange()
    ensures forall i :: 0 <= i < |SPECIAL_CHARS| ==> Range(SPECIAL_CHARS[i]) == 3
  {
  }

  lemma CyrillicLowerInRange()
    ensures forall i :: 0 <= i < |CYRILLIC_LOWER| ==> Range(CYRILLIC_LOWER[i]) == 4
  {
  }

  lemma CyrillicUpperInRange()
    ensures forall i :: 0 <= i < |CYRILLIC_UPPER| ==> Range(CYRILLIC_UPPER[i]) == 5
  {
  }

  /** Each alphabet has no repeated character and lies in its own range. */
  lemma AlphabetsWellFormed()
    ensures forall k :: 0 <= k < |ALPHABETS| ==> InOwnRange(ALPHABETS[k], k)
  {
    LowercaseDistinct(); LowercaseInRange();
    UppercaseDistinct(); UppercaseInRange();
    DigitsDistinct(); DigitsInRange();
    SpecialCharsDistinct(); SpecialCharsInRange();
    CyrillicLowerDistinct(); CyrillicLowerInRange();
    CyrillicUpperDistinct(); CyrillicUpperInRange();
  }

  /** The six alphabets share no character. */
  lemma AlphabetsDisjoint()
    ensures PairwiseDisjoint(ALPHABETS)
  {
    AlphabetsWellFormed();
    forall k1, k2, c | 0 <= k1 < k2 < |ALPHABETS| && c in ALPHABETS[k1]
      ensures c !in ALPHABETS[k2]
    {
      assert InOwnRange(ALPHABETS[k1], k1) && InOwnRange(ALPHABETS[k2], k2);
    }
  }

  /**
   * Concatenating chosen alphabets that have no repeats and share no character
   * gives a pool without repeats: the builder introduces no duplicate.
   */
  lemma {:induction false} SelectDistinct(alphabets: seq<string>, flags: seq<bool>, n: nat)
    requires |flags| == |alphabets| && n <= |alphabets|
    requires forall k :: 0 <= k < |alphabets| ==> Distinct(alphabets[k])
    requires PairwiseDisjoint(alphabets)
    ensures Distinct(SelectFirst(alphabets, flags, n))
  {
    if n > 0 {
      SelectDistinct(alphabets, flags, n - 1);
      var front := SelectFirst(alphabets, flags, n - 1);
      var last := if flags[n - 1] then alphabets[n - 1] else "";
      var pool := SelectFirst(alphabets, flags, n);
      assert pool == front + last;
      forall i, j | 0 <= i < j < |pool| ensures pool[i] != pool[j] {
        if i < |front| && j >= |front| {
          SelectMembership(alphabets, flags, n - 1, pool[i]);
          assert pool[i] in front;
          var k :| 0 <= k < n - 1 && flags[k] && pool[i] in alphabets[k];
          assert pool[j] == last[j - |front|] && pool[j] in alphabets[n - 1];
        } else if j < |front| {
          assert pool[i] == front[i] && pool[j] == front[j];
        } else {
          assert pool[i] == last[i - |front|] && pool[j] == last[j - |front|];
        }
      }
    }
  }

  /** Whatever the six flags, the pool holds no character twice. */
  lemma PoolDistinct(flags: seq<bool>)
    requires |flags| == |ALPHABETS|
    ensures Distinct(Select(ALPHABETS, flags))
  {
    AlphabetsWellFormed();
    AlphabetsDisjoint();
    SelectDistinct(ALPHABETS, flags, |ALPHABETS|);
  }

  /**
   * Every character of a pool the builder can return lies below U+10000, so
   * it is a single UTF-16 unit, as Java's String counts characters.
   */
  lemma PoolInBasicPlane(flags: seq<bool>, c: char)
    requires |flags| == |ALPHABETS|
    requires c in Select(ALPHABETS, flags)
    ensures c as int < 0x10000
  {
    AlphabetsWellFormed();
    SelectInRanges(ALPHABETS, flags, c);
  }

  /** A pool character lies in the range of one of the alphabets it was drawn from. */
  lemma SelectInRanges(alphabets: seq<string>, flags: seq<bool>, c: char)
    requires |flags| == |alphabets|
    requires forall k :: 0 <= k < |alphabets| ==> InOwnRange(alphabets[k], k)
    requires c in Select(alphabets, flags)
    ensures Range(c) < |alphabets|
  {
    SelectMembership(alphabets, flags, |alphabets|, c);
    var k :| 0 <= k < |alphabets| && flags[k] && c in alphabets[k];
    var i :| 0 <= i < |alphabets[k]| && alphabets[k][i] == c;
    assert InOwnRange(alphabets[k], k);
  }
}
