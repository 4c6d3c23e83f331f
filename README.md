# Password generator: a Dafny model

This project models the one piece of logic in `password_generator.py`, a
command-line password generator. The model covers:

- **Alphabet assembly.** The `characters` string is built from Python's four
  ASCII classes, always in the same order: `ascii_lowercase` (26),
  `ascii_uppercase` (26), `digits` (10) and `punctuation` (32). Each class is
  included only when its flag is set.
- **`generate_password`.** It returns `None` when the alphabet is empty.
  Otherwise it returns `length` characters, each picked from the alphabet.
- **Input acceptance.** `get_valid_number` accepts a parsed entry that is at
  least the minimum. `get_yes_no` strips the line, lowercases it, and accepts
  exactly `y` or `n`.
- **One round of the driver.** The driver reads the six parameters, generates
  a batch of `num_passwords` passwords with the same parameters, and can append
  the batch to a file as one line per password.

The random source is an oracle. For each password, `choices` is the list of
indices that `random.choice` picks: character `i` is `alphabet[choices[i]]`.
The user's input is a finite script read in order. For the number prompts it is
the result of `int()` on each line (`None` where `int()` raises `ValueError`).
For the yes/no prompts it is the raw lines. The program reads all six
prompts from one input stream. The model splits that stream at the line where
the length is accepted: the number script holds the lines up to there, and the
yes/no script holds the lines after it. Number entries after the accepted
length are never read. A prompt whose script runs out
returns `None`. The real program would wait for more input at that point, or
raise `EOFError`.

The modules follow the program's parts:

- `CharClasses` (`char_classes.dfy`): the four class strings and their
  predicates.
- `Generator` (`generator.dfy`): the alphabet and `generate_password`.
- `Prompts` (`prompts.dfy`): the two prompt loops and the yes/no
  normalisation.
- `Driver` (`driver.dfy`): one round of `run_password_generator`, meaning the
  parameters, the batch and the save text.
- `Wrappers` (`wrappers.dfy`): `Option`.

## Model

| member | source | states |
|---|---|---|
| `CharClasses.ClassMembers` | password_generator.py:10-13 | The four class strings have 26, 26, 10 and 32 characters. Membership in each is exactly its range predicate: `a`-`z`, `A`-`Z`, `0`-`9`, and for punctuation the printable ASCII characters other than space, letters and digits. No class string repeats a character. |
| `Generator.Alphabet` | password_generator.py:9-14 | The alphabet holds exactly the characters of the selected classes. Each appears once, with lowercase before uppercase before digits before punctuation. Its length is 26/26/10/32 per selected class. It is empty iff no flag is set. |
| `Generator.Pick` | password_generator.py:20 | The joined result has one character per draw, and character `i` is the alphabet's character at the `i`-th drawn index. |
| `Generator.GeneratePassword` | password_generator.py:7-20 | `None` iff all four flags are false. Otherwise the result has exactly `length` characters (none for `length <= 0`, as `range` gives). Character `i` is `alphabet[choices[i]]`. Every character belongs to a selected class, so no unselected class ever appears. |
| `Generator.EveryCandidateReachable` | password_generator.py:20 | The converse: every string of the requested length whose characters all come from selected classes is the result for some oracle. |
| `Prompts.FirstAccepted` | password_generator.py:24-28 | The position of the first entry that parsed and is `>= min_value`. Every entry before it is rejected (`NumberAccepted` fails). `None` exactly when every entry is rejected. |
| `Prompts.GetValidNumber` | password_generator.py:22-31 | Returns the entry at `FirstAccepted`, having read exactly the entries up to and including it. Every entry before it was rejected. A returned value is always `>= min_value`. `None` exactly when no entry is acceptable, after reading them all. |
| `Prompts.LeadingSpaces` | password_generator.py:36 | `strip()` removes exactly the leading whitespace: every character it counts is whitespace, and the next one is not. |
| `Prompts.TrailingSpaces` | password_generator.py:36 | `strip()` removes exactly the trailing whitespace: every character from this index on is whitespace, and the one before it is not. |
| `Prompts.StripTrims` | password_generator.py:36 | `strip()` keeps one contiguous part of the line. Everything before it and after it is whitespace. A nonempty result neither starts nor ends with whitespace. |
| `Prompts.StripEmpty` | password_generator.py:36 | `strip()` gives the empty string exactly when the line is all whitespace. |
| `Prompts.Lower` | password_generator.py:36 | `lower()` keeps the length and leaves no ASCII capital. Every character that is not an ASCII capital is unchanged. A capital becomes the small letter 32 code points above it. |
| `Prompts.StripSingle` | password_generator.py:36 | `strip()` leaves the single non-space character `c` exactly when the line is `c` surrounded only by whitespace. |
| `Prompts.LowerSingle` | password_generator.py:36 | `lower()` gives `y` (or `n`) exactly from `y`/`Y` (or `n`/`N`). |
| `Prompts.Answer` | password_generator.py:36-38 | The decision on one line is yes exactly when the stripped line is `y` or `Y`, and no exactly when it is `n` or `N`. |
| `Prompts.AnswerMeaning` | password_generator.py:36-38 | A line means yes iff it is `y` or `Y` padded with whitespace. It means no iff it is `n` or `N` padded with whitespace. Every other line is asked again. |
| `Prompts.SpacedCapitalIsYes` | password_generator.py:36-38 | `" Y "` counts as yes. |
| `Prompts.GetYesNo` | password_generator.py:33-39 | Returns the decision of the first line that is a yes or a no. Every earlier line was asked again. `None` only when no line is accepted. |
| `Driver.CollectNone` | password_generator.py:62-65 | Lines that are all asked again contribute no answer. |
| `Driver.NoAnswer` | password_generator.py:62-65 | A script with no yes and no no gives no answer at all. |
| `Driver.AnswerAt` | password_generator.py:62-65 | When a prompt accepts line `used`, that line's answer is the first one, and later prompts see the answers of the lines after it. |
| `Driver.CollectAfter` | password_generator.py:62-65 | A prompt that accepts its `used`-th line consumes the first answer. The following prompt sees the answers after it. |
| `Driver.ReadFlags` | password_generator.py:62-65 | The four class flags are the first four accepted answers, in prompt order. `None` iff fewer than four answers are accepted. |
| `Driver.Numbers` | password_generator.py:60-61 | The count is the first entry `>= 1`. The length is the first entry `>= 6` after it. `None` when either scan finds nothing. The count is at least 1 and the length at least 6. |
| `Driver.ReadNumbers` | password_generator.py:60-61 | Reads exactly `Numbers`: the count from the first scan, the length from the entries after it, `None` exactly when one scan runs out. |
| `Driver.ReadRequest` | password_generator.py:60-65 | A request is complete exactly when both number scans succeed and at least four answers are accepted. Its count and length are those of `Numbers`, so `num_passwords >= 1` and `length >= 6`. Its flags are the first four accepted answers in the order lowercase, uppercase, digits, special. |
| `Driver.Batch` | password_generator.py:68 | The batch has `num_passwords` entries, each from its own draws with the same parameters. All entries are `None` iff no class was chosen. Otherwise each entry has `length` characters, every one from a class whose prompt was answered yes. This checks the positional argument order of the call. |
| `Driver.SaveText` | password_generator.py:80-81 | The save text is empty exactly when the batch is empty. Otherwise it ends with a newline. |
| `Driver.SaveTextAppend` | password_generator.py:79-81 | Appending two batches leaves the save text of both, in order. |
| `Driver.LineEnd` | password_generator.py:81 | Gives the first newline or the end of the text, with no newline before it. |
| `Driver.SaveTextRoundTrip` | password_generator.py:80-81 | Splitting the saved text at newlines gives back the batch, one line per password with no header, when no password contains a newline. |
| `Driver.PresentOfComplete` | password_generator.py:80-81 | When no entry is missing, the write loop reaches every password, in order. |
| `Driver.WriteLines` | password_generator.py:79-81 | The loop writes `password + "\n"` for each entry in order. It fails iff some entry is `None`, and then it has written exactly the lines before the first missing one. |
| `Driver.EmptySelectionBreaksSave` | password_generator.py:68 | As written, declining all four classes gives a batch of `None`s. Saving it fails at the first entry, having written nothing. |
| `Driver.GenerateBatch` | password_generator.py:16-18 | Corrected batch: abandoned (`None`) iff no class is chosen. Otherwise it has `num_passwords` passwords of `length` characters from the chosen classes, matching the as-written batch entry for entry. |
| `Driver.CorrectedBatchSaves` | password_generator.py:80-81 | Saving a batch that was not abandoned never fails. It writes every password, one per line, and reading the text back gives the batch. |

## Left out

- The `print` messages, the `input()` calls themselves and the outer "another batch?" loop (lines 56, 58, 70-73, 86-89). These are terminal I/O. The model covers one round.
- `int()` parsing (line 26): each number entry is taken as already parsed, as an `Option<int>`.
- The `KeyboardInterrupt` handler (lines 92-96).
- The tkinter save dialog (lines 41-52), the "save?" question and opening the file (lines 76-79, 82-84). Only the text the write loop produces is modelled, not the file or its path.
- The quality and distribution of `random.choice`. The oracle may pick any index. The model makes no claim of uniformity or security, and the source uses `random`, not `secrets`.
- Prompts.LowerChar: lowercases only ASCII capitals. Python's `lower()` maps other characters too, but no other character lowercases to `y` or `n`, so the yes/no decision is the same.
- Generator.GeneratePassword: Python's default argument values (`length=12`, all classes on) are not modelled, because the only caller passes all five arguments.
- A number or answer script that runs out makes the prompt return `None`. The program itself would block on `input()` or raise `EOFError` instead.

## Findings

| source | as written | input that shows it | evidently intended | confidence | as-written member | corrected member |
|---|---|---|---|---|---|---|
| password_generator.py:68 | With no character class chosen, `generate_password` returns `None` for every entry and the batch keeps them. The save loop then evaluates `None + "\n"`, which raises `TypeError`. Nothing catches it, so the program stops with a traceback after opening the file. | Any number of passwords and a length of at least 6, `n` to all four class prompts, `y` to the save prompt, then any file | An empty selection abandons the batch, as the message at line 17 says, so saving never meets a missing password | high (not executed) | `Driver.EmptySelectionBreaksSave` | `Driver.GenerateBatch` |
