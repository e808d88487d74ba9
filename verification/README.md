# Password generator: a Dafny model

The repository is a small password generator. It comes as a command-line script
and as a GUI script, and each carries its own copy of two functions:

- `check_strength` rates a password Weak, Medium or Strong. It counts five
  criteria: length at least 12, a digit, an uppercase letter, a lowercase letter,
  and a punctuation symbol.
- `generate_password` builds a password of a requested length from up to four
  character classes. It checks the length and rejects an empty class selection.
  It then puts one character of every selected class first and fills the rest
  from the combined alphabet. Finally it shuffles the list and returns it with
  its strength.

The copies differ only in the length check. The command-line copy accepts
8..100; the GUI copy accepts anything from 8 up. The command-line `main` also
applies flag defaults before calling the generator. `-a` selects all four
classes. No class flag at all selects upper, lower and digits.

The model has six modules:

- `CharClasses` (`charclasses.dfy`): the four alphabets, built as code-point
  runs and proved equal to Python's `string` constants. It also classifies a
  character by code point.
- `Strength` (`strength.dfy`): `check_strength`, modelled once for both copies.
- `Random` (`random.dfy`): `random.choice`, and `random.shuffle` as CPython's
  Fisher-Yates pass.
- `Generator` (`generator.dfy`): `generate_password`, with the upper length
  bound as a parameter.
- `Cli` (`cli.dfy`): the command-line copy and the non-I/O part of `main`.
- `Gui` (`gui.dfy`): the GUI copy.

Randomness is an explicit input: a list of draws consumed in call order.
`randbelow(n)` is the next draw reduced into `[0, n)`, and an exhausted list
reads 0. `random.choice` spends one draw. The shuffle spends one draw for each
index from the last down to 1. Any run of the real generator is then the run of
some draw list. The model proves both directions about that list:

- every result is a valid password (`Generator.Generate`);
- every valid password is the result of some draw list
  (`Generator.EveryValidPasswordIsReachable`).

## Model

| member | source | states |
|---|---|---|
| CharClasses.AlphabetsAreStringConstants | password_generator.py:28-36 | The four alphabets are, character for character, `ascii_uppercase`, `ascii_lowercase`, `digits` and `punctuation` |
| CharClasses.AlphabetMembership | password_generator.py:10-13 | A character is in a class's alphabet exactly when its code point falls in that class's ASCII ranges |
| CharClasses.AlphabetsDisjoint | password_generator.py:28-36 | No character belongs to two of the four alphabets |
| CharClasses.ClassOf | password_generator.py:10-13 | The ASCII reading of `isdigit`, `isupper`, `islower` and `string.punctuation`: a character gets a class exactly when it is printable ASCII other than space |
| Strength.HasClass | password_generator.py:10-13 | The `any(...)` test: a class is present exactly when some character of the password is classified into it |
| Strength.CountHolding | password_generator.py:15 | The count of satisfied criteria is at most their number; it equals their number exactly when all hold, and is 0 exactly when none holds |
| Strength.Score | password_generator.py:9-15 | The score is between 0 and 5 |
| Strength.TierOf | password_generator.py:17-22 | The threshold chain: on scores 0..5, Strong exactly at 5, Medium exactly at 3 or 4, Weak exactly at 0..2 |
| Strength.CheckStrength | password_generator.py:8-22 | Strong exactly when all five criteria hold; Weak exactly when at most two hold; Medium exactly when three or four hold |
| Strength.ScoreUnfold | password_generator.py:9-15 | The score is the sum of the five booleans: length at least 12, a digit, an uppercase, a lowercase, a punctuation symbol |
| Strength.TierMonotone | password_generator.py:17-22 | On scores 0..5 a higher score never gives a lower tier |
| Strength.CountMonotone | password_generator.py:15 | A password meeting every criterion another meets has at least as high a count |
| Strength.StrengthMonotone | password_generator.py:8-22 | Meeting a superset of the criteria never lowers the score or the tier |
| Strength.AppendNeverLowers | password_generator.py:8-22 | Appending characters never lowers the tier |
| Strength.OverwriteKeepsClass | password_generator.py:10-13 | Overwriting a character outside class k keeps class k present |
| Strength.OverwriteWithMissingClass | password_generator.py:8-22 | Overwriting one character with a character of a missing class never lowers the score or the tier |
| Strength.HasClassRearranged | password_generator.py:10-13 | Whether a class is present depends only on the multiset of characters |
| Strength.StrengthIgnoresOrder | password_generator.py:56-60 | Reordering a password, as the shuffle does, keeps its score and tier |
| Random.Below | password_generator.py:44 | `randbelow(n)` is below `n`, and is the drawn value itself when that is in range |
| Random.Choice | password_generator.py:44 | `random.choice` returns an element of the sequence, the one at the drawn index when that is in range |
| Random.ChoiceReaches | password_generator.py:54 | Every element of the sequence is the choice of some single draw |
| Random.Swap | password_generator.py:57 | One exchange of the shuffle: the two positions trade elements, every other position and the length are kept |
| Random.ShuffleFrom | password_generator.py:57 | The Fisher-Yates loop from index `i` down to 1; its contract states only that the length is kept (`ShuffleFromPermutes` and `ShuffleFromReaches` state the rest) |
| Random.Shuffle | password_generator.py:57 | `random.shuffle`; its contract states only that the length is kept. `ShufflePermutes` states that it only rearranges and `ShuffleReaches` that it can produce every rearrangement |
| Random.ShuffleFromPermutes | password_generator.py:57 | The Fisher-Yates steps keep the multiset of elements |
| Random.ShufflePermutes | password_generator.py:57 | `random.shuffle` returns a rearrangement of its input, whatever the draws |
| Random.SwapTowardTarget | password_generator.py:57 | Some swap at index `i` puts the target's element in place and leaves a rearrangement of the target's prefix before it |
| Random.ShuffleFromReaches | password_generator.py:57 | The remaining Fisher-Yates steps can produce any target that agrees past `i` and rearranges the prefix up to `i` |
| Random.ShuffleReaches | password_generator.py:57 | `random.shuffle` can produce every rearrangement of its input |
| Generator.Selected | password_generator.py:42-50 | The seeded classes are exactly the selected ones, each once, as many as flags are set |
| Generator.Combined | password_generator.py:28-39 | The combined alphabet is empty exactly when no class is selected, and holds exactly the characters of the selected alphabets |
| Generator.Seed | password_generator.py:42-50 | Seeding yields one character per listed class, each from that class's own alphabet |
| Generator.Fill | password_generator.py:53-54 | The fill loop keeps the list as a prefix and appends characters of the combined alphabet until the length is reached; a list already long enough is returned unchanged |
| Generator.SeedFits | password_generator.py:25-50 | At most four seeds, and every accepted length is at least 8, so seeding never overfills |
| Generator.Unshuffled | password_generator.py:42-54 | The list before the shuffle has `length` characters, or the seed count if that is larger (the seeds are never cut, so a length below the seed count would overfill), and every character after the seeds is from the combined alphabet (`UnshuffledShape` adds that the seeds come first, one per selected class) |
| Generator.UnshuffledShape | password_generator.py:42-54 | For an accepted length the list has exactly `length` characters: seeds of each selected class first, then combined-alphabet characters |
| Generator.UnshuffledValid | password_generator.py:41-54 | Before the shuffle the list is already a valid password |
| Generator.Generate | password_generator.py:24-61 | An invalid length is rejected first, then an empty selection. Every other call succeeds with a valid password (right length, only selected alphabets, every selected class present). That password rearranges the seeded-and-filled list and carries its own strength |
| Generator.RearrangedStaysValid | password_generator.py:56-58 | Rearranging a valid password keeps it valid |
| Generator.ValidPasswordClasses | password_generator.py:28-54 | A valid password holds a class exactly when that class was selected |
| Generator.ValidPasswordScore | password_generator.py:60 | A valid password scores the length criterion plus one per selected class |
| Generator.GeneratedStrength | password_generator.py:60-61 | The reported tier depends only on the request: Strong exactly when all four classes are selected and the length is at least 12 |
| Generator.SeedReaches | password_generator.py:42-50 | Every choice of one character per selected class is the seeding of some draws |
| Generator.FillReaches | password_generator.py:53-54 | Every continuation from the combined alphabet is the fill of some draws |
| Generator.ArrangeSeedsFirst | password_generator.py:42-50 | A password holding every listed class can be rearranged with one character of each class first, in order |
| Generator.ArrangeForGeneration | password_generator.py:42-54 | Every valid password rearranges into a list the seeding and fill could build |
| Generator.UnshuffledReaches | password_generator.py:42-54 | Every list with the seeds in front and combined-alphabet characters after is the pre-shuffle list of some draws |
| Generator.EveryValidPasswordIsReachable | password_generator.py:24-61 | Every valid password, with its strength, is the result of some run of the generator |
| Cli.GeneratePassword | password_generator.py:24-26 | The command-line copy rejects lengths outside 8..100 and otherwise behaves as the shared generator |
| Cli.ResolveFlags | password_generator.py:95-106 | After defaulting some class is selected and no requested class is dropped. `-a` selects all four; an empty request becomes upper, lower and digits; any other request is kept as is |
| Cli.ResolveFlagsIdempotent | password_generator.py:95-106 | Defaulting an already resolved selection changes nothing |
| Cli.Run | password_generator.py:92-109 | `main` fails only on a length outside 8..100, never on an empty selection; otherwise it yields a valid password for the resolved flags, with its strength |
| Cli.AllClassesLongIsStrong | password_generator.py:95-109 | With `-a` and a length of 12..100 the reported strength is always Strong |
| Cli.DefaultClassesAreMedium | password_generator.py:102-109 | With no class flag the reported strength is always Medium |
| Gui.GeneratePassword | password_generator_gui.py:27-64 | The GUI copy rejects only lengths below 8 and otherwise behaves as the shared generator |
| Gui.CopiesDifferOnlyAboveMax | password_generator_gui.py:28-29 | Up to 100 the two copies give the same result for the same draws. Above 100 the command-line copy rejects the length, while the GUI copy succeeds for any non-empty selection |

## Left out

- The GUI window, its widgets and `generate_and_display_password`'s message boxes: user interface only. The handler's own length check repeats the generator's.
- The result labels and error messages: the scripts return the strings "弱", "中" and "強" and raise `ValueError` with one message for a bad length and another for an empty selection. Here these are the `Tier` values Weak, Medium, Strong and the `GenError` tags InvalidLength and NoClassSelected; the message texts are not modelled.
- Clipboard copy through `pyperclip`, all printing, and the success message: output only.
- Argument parsing by `argparse`, including the default length of 10: `Cli.Args` starts from parsed values.
- `Cli.Run`: the source leaves an out-of-range length through `parser.error`, which ends the process. Here it is the result `Err(InvalidLength)`.
- `Strength.CheckStrength`: `isdigit`, `isupper` and `islower` are read on ASCII only. Python's versions also accept non-ASCII digits and letters. Every generated password is ASCII, so generated passwords are rated exactly.
- `Random.Below`: CPython's `randbelow` rejection-samples from `getrandbits` and may make several calls. Here it is one call reduced modulo `n`. Which results are possible is unchanged; how many draws a run uses, and the distribution, are not modelled.
- The quality and distribution of the pseudo-random generator: only which results are possible is modelled, not how likely they are.
- `check_strength` and `generate_password` each appear twice, once per script. The classifier is modelled once, and the generator once with the length bound as a parameter.
