# Password generator: a Dafny model

This project models the password pipeline of a small Java batch program
(`src/Main.java`) that asks six yes/no questions, builds a pool of allowed
characters from the answers, generates one random password for each of twenty
fixed lengths (10 000 up to 1 000 000) and collects them in a report buffer that
is written to a text file.

The model follows the Java classes, one module each:

- `CharacterSetManager` (`character_set_manager.dfy`): the six alphabets and
  `BuildValidCharacters`. It appends the chosen alphabets in the fixed order
  Latin lower, Latin upper, digits, specials, Cyrillic lower, Cyrillic upper.
  It fails with `InvalidConfiguration` (the Java `IllegalArgumentException`) when
  nothing is chosen. The specification function `Select` is the ordered
  concatenation of the chosen alphabets. Lemmas give its length, its members,
  when it is empty and that it never repeats a character.
- `PasswordGenerator` (`password_generator.dfy`): `GeneratePassword`, the
  append loop. The random source is a nondeterministic choice of an index in
  `[0, |pool|)` at each step. A ghost out-parameter records the indices drawn,
  and the contract holds for every sequence of draws. A lemma shows that every
  string over the pool is a possible result.
- `UserInputHandler` (`user_input_handler.dfy`): line normalisation (Java
  `trim`, then lower-casing), the classification against the tokens `"да"` and
  `"нет"`, and `GetUserChoice`. That method reads a list of input lines until
  one is recognised and returns the answer with the number of lines it consumed.
- `Driver` (`driver.dfy`): the class `Main`. It holds the list of lengths, the
  block format, the decimal rendering of a length, the report loop
  (`AppendBlocks`), the task the timer runs for each length (`TimedTask`) and
  `Run`. `Run` is `main` from the six answers on: it builds the pool, then
  either reports the configuration error or generates the report.
- `Wrappers` (`wrappers.dfy`): `Option` and `Result`.

Each block of the report is written as src/Main.java:163-166 writes it: a line of
fifty dashes, then the Russian header `Пароль длиной N:`, the password, a newline,
and the dashed line again.

End of input is defined explicitly. Java's `Scanner.nextLine` throws
`NoSuchElementException` there and `main` does not catch it; the model returns
`EndOfInput`.

## Model

| member | source | states |
|---|---|---|
| `CharacterSetManager.BuildValidCharacters` | src/Main.java:35-51 | fails with the "at least one set" message exactly when no flag is set; otherwise returns the ordered concatenation `Select` of the chosen alphabets, which is non-empty |
| `CharacterSetManager.PoolEmpty` | src/Main.java:45-48 | the six-alphabet pool is empty if and only if no flag is set |
| `CharacterSetManager.SelectEmpty` | src/Main.java:37-45 | for alphabets that are all non-empty, the concatenation of the chosen ones is empty if and only if none is chosen |
| `CharacterSetManager.NoAlphabetEmpty` | src/Main.java:27-32 | none of the six alphabets is empty |
| `CharacterSetManager.SelectLength` | src/Main.java:37-43 | the pool's length is the sum of the lengths of the chosen alphabets; unchosen alphabets add nothing |
| `CharacterSetManager.SelectMembership` | src/Main.java:37-43 | a character is in the pool if and only if some chosen alphabet contains it |
| `CharacterSetManager.FullPoolSize` | src/Main.java:27-43 | with every flag set the pool has 26 + 26 + 10 + 27 + 33 + 33 = 155 characters |
| `CharacterSetManager.LowercaseOnly` | src/Main.java:27-43 | choosing only Latin lower case gives exactly `abcdefghijklmnopqrstuvwxyz` |
| `CharacterSetManager.AlphabetsWellFormed` | src/Main.java:27-32 | each alphabet repeats no character and lies in its own character range (a-z, A-Z, 0-9, ASCII punctuation, а-я with ё, А-Я with Ё) |
| `CharacterSetManager.AlphabetsDisjoint` | src/Main.java:27-32 | no character belongs to two of the six alphabets |
| `CharacterSetManager.SelectDistinct` | src/Main.java:37-43 | concatenating chosen alphabets that have no repeats and share no character gives a pool without repeats |
| `CharacterSetManager.PoolDistinct` | src/Main.java:27-43 | for every choice of flags the builder's pool holds no character twice |
| `CharacterSetManager.PoolInBasicPlane` | src/Main.java:27-43 | every character of every pool the builder can return lies below U+10000, so it is one UTF-16 unit for `length()` and `charAt` |
| `PasswordGenerator.GeneratePassword` | src/Main.java:13-22 | the password has exactly `length` characters (none when `length <= 0`); each character is a pool character; it is precisely the pool characters at the drawn indices, each index below the pool size |
| `PasswordGenerator.EveryPasswordPossible` | src/Main.java:16-19 | every string over the pool is what some sequence of in-range draws produces, so the generator can return any such string |
| `UserInputHandler.TrimStart` | src/Main.java:74 | the front-trimmed line is never longer than the line; `TrimStartSpec` states what it removes |
| `UserInputHandler.TrimEnd` | src/Main.java:74 | the back-trimmed line is never longer than the line; `TrimEndSpec` states what it removes |
| `UserInputHandler.Trim` | src/Main.java:74 | `trim()`: the trimmed line is never longer than the line; `TrimSpec` and `TrimIdempotent` state what it keeps |
| `UserInputHandler.LowerChar` | src/Main.java:74 | `toLowerCase()` on one character: the result is never a capital A-Z, А-Я or Ѐ-Џ, and it is the character itself or that character moved up by 0x20 or 0x50 (see "## Left out") |
| `UserInputHandler.ToLower` | src/Main.java:74 | `toLowerCase()`: the model's lower-casing keeps the length of the text (see "## Left out"); `ToLowerCyrillic` states which texts lower-case to a Cyrillic word |
| `UserInputHandler.ToLowerIdempotent` | src/Main.java:74 | lower-casing a lower-cased text changes nothing |
| `UserInputHandler.Normalise` | src/Main.java:74 | `trim().toLowerCase()`: in the model, the normalised line is never longer than the line read (see "## Left out") |
| `UserInputHandler.Classify` | src/Main.java:75-84 | a line answers yes exactly when its normalised form equals "да", answers no exactly when it equals "нет", and is rejected otherwise |
| `UserInputHandler.TrimStartSpec` | src/Main.java:74 | trimming the front removes exactly the leading characters up to U+0020, stopping at the first other character |
| `UserInputHandler.TrimEndSpec` | src/Main.java:74 | trimming the back removes exactly the trailing characters up to U+0020, stopping at the last other character |
| `UserInputHandler.TrimSpec` | src/Main.java:74 | the trimmed line is the stretch between a leading and a trailing run of characters up to U+0020, and it neither starts nor ends with such a character |
| `UserInputHandler.TrimIdempotent` | src/Main.java:74 | trimming a trimmed line changes nothing |
| `UserInputHandler.LowerCharCyrillic` | src/Main.java:74 | lower-casing gives a Cyrillic small letter а..я only from that letter or its capital |
| `UserInputHandler.ToLowerCyrillic` | src/Main.java:74 | lower-casing a text gives a Cyrillic lower-case word if and only if the text equals that word up to the case of each letter |
| `UserInputHandler.YesIff` | src/Main.java:74-77 | a line answers yes if and only if, trimmed, it spells "да" in any mix of cases |
| `UserInputHandler.NoIff` | src/Main.java:74-80 | a line answers no if and only if, trimmed, it spells "нет" in any mix of cases |
| `UserInputHandler.ClassifyExamples` | src/Main.java:74-84 | " ДА\t" answers yes, "Нет" answers no, "yes" is rejected |
| `UserInputHandler.FirstAnswer` | src/Main.java:71-85 | the reply comes from the first recognised line, every line before it is unrecognised, and input ends only when no line is recognised |
| `UserInputHandler.GetUserChoice` | src/Main.java:69-86 | returns true (false) when the first recognised normalised line is "да" ("нет"), with the number of lines consumed; every earlier line is unrecognised; `EndOfInput` only when no line is recognised |
| `UserInputHandler.FirstAnswerUnique` | src/Main.java:71-85 | the first-recognised-line characterisation determines the reply uniquely |
| `UserInputHandler.SkipUnrecognised` | src/Main.java:81-84 | unrecognised lines in front are consumed without an answer and only add to the count of lines read |
| `UserInputHandler.LaterLinesIgnored` | src/Main.java:75-80 | once a line is recognised, the lines after it never change the reply |
| `Driver.DecimalString` | src/Main.java:164 | the length is written as a non-empty string of decimal digits with no leading zero |
| `Driver.DecimalRoundTrip` | src/Main.java:164 | reading the written digits back gives the length |
| `Driver.Block` | src/Main.java:163-166 | the block of one password; `BlockParts` states its layout |
| `Driver.BlockParts` | src/Main.java:163-166 | a block opens and closes with the dashed line, the header `Пароль длиной ` is followed by digits that read back as the length and by ":\n", and the password stands between that and the closing newline and dashed line |
| `Driver.FirstBlockHeader` | src/Main.java:152-166 | the first block is the dashed line, `Пароль длиной 10000:`, the password, a newline and the dashed line |
| `Driver.BlocksSplit` | src/Main.java:157-169 | the blocks of a range of entries are those of its two halves, one after the other |
| `Driver.BlockAt` | src/Main.java:157-169 | block i of the report comes after blocks 0..i-1 and before all later ones, so blocks are in list order |
| `Driver.LengthsShape` | src/Main.java:152-153 | the list has 20 lengths, rises strictly, starts at 10 000 and ends at 1 000 000 |
| `Driver.TimedTask` | src/Main.java:159-167 | generates a password of the given length over the pool and appends exactly its block to the buffer |
| `Driver.AppendBlocks` | src/Main.java:155-169 | after the loop the buffer is the concatenation of one block per length, in list order, each password having its length and drawing only on the pool |
| `Driver.GenerateAndSavePasswords` | src/Main.java:150-169 | the buffer handed to the file writer is the report of exactly 20 blocks for the fixed lengths, in order |
| `Driver.Run` | src/Main.java:117-129 | the run fails with the builder's message, generating nothing, exactly when all six answers are no; otherwise it yields the 20-block report over the pool of the chosen alphabets |

## Left out

- `PerformanceTimer.measureExecutionTime` (src/Main.java:92-98) and the progress line (src/Main.java:168): wall-clock time has no value to model. `TimedTask` is the task the timer runs, and it runs exactly once.
- `FileHandler.writeToFile` and the `IOException` handler (src/Main.java:57-63, 172-178): file I/O. The model stops at the text handed to the writer (`GenerateAndSavePasswords` returns it).
- Console plumbing: the `Scanner`, the prompts, the error messages printed to standard output and standard error, and `getUserChoices` (src/Main.java:105-116, 130-133, 137-147). `Run` starts from the six answers. `GetUserChoice` takes the input as a list of lines.
- The distribution of `java.util.Random` (src/Main.java:10): each draw is some index in range, chosen nondeterministically. Its statistics and seeding are not modelled. The field `random` is not modelled either; the module `PasswordGenerator` keeps no state.
- `UserInputHandler.GetUserChoice`: when the lines run out before a recognised one it returns `EndOfInput`, where Java's `Scanner.nextLine` throws `NoSuchElementException` and `main` does not catch it (src/Main.java:74).
- `UserInputHandler.ToLower` and `UserInputHandler.Normalise`: the model lowers one character to one character, but Java's `toLowerCase` can lengthen a text. For example, U+0130 `İ` becomes `i` followed by U+0307 outside the Turkish locale. So the length contracts of `ToLower` and `Normalise` hold of the model only. Recognising "да" and "нет" is unaffected.
- `UserInputHandler.LowerChar`: lowers only A-Z, А-Я and Ѐ-Џ (Ё among them); every other character stays as it is. Java's locale-dependent `toLowerCase` maps more characters. None of them lowers to а, д, е, н or т, so recognising "да" and "нет" is unaffected.
- `PasswordGenerator.GeneratePassword`: requires a non-empty pool when the length is positive, where Java's `nextInt(0)` would throw `IllegalArgumentException`. The only caller passes the pool of a successful `BuildValidCharacters`, which is never empty. Java strings are UTF-16: `length()` and `charAt` (src/Main.java:18-19) count and return 16-bit units, so a character above U+FFFF counts twice and a draw can return half of it. The model draws whole characters. The two agree on pools with no character above U+FFFF, and `PoolInBasicPlane` proves that every pool `BuildValidCharacters` returns is one. `GeneratePassword`, `TimedTask`, `AppendBlocks` and `GenerateAndSavePasswords` accept any pool, so on other pools they hold of the model only.
- Java `int` width: the lengths are at most 1 000 000 and a password's length is at most that, so nothing overflows. The model uses unbounded integers.
