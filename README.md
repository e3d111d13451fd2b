# SpamOK password generator, modelled in Dafny

This project models the core of the SpamOK password generator (C#):

- `BasicPasswordBuilder` builds a character set from option flags. It can restrict the set to non-ambiguous characters and can exclude characters. It draws every password character with a rejection sampler, so each character of the set is equally likely.
- `PasswordBuilder` is the earlier builder. Its charset always starts from the 52 letters before filtering, its non-ambiguous reference set has no specials, and it maps each random byte onto the set with a plain remainder. `Build` dispatches on the chosen algorithm.
- `RandomHelper` maps drawn bytes to three things:
  - a boolean with a given probability;
  - an alphanumeric character;
  - an integer in a closed range.
- `DicewareLookup` fills an 8192-slot word table from the lines of a word list. It reads a slot by a dice index such as `35142`, which it prints in decimal, reads as base 6 and decrements.
- `DicewarePasswordBuilder` rolls dice from random bytes and joins the faces.
- `HackerifyHelper` rewrites a string in leetspeak.
- `PasswordEntropy` grades an entropy value into six strength levels.

Modelling choices:

- **Random input:** every draw of the secure random source is an explicit input. The rejection sampler reads a finite byte stream and needs that stream to hold enough acceptable bytes.
- **Exceptions:** a .NET exception is a `Result` error (`Common.Error`), and a `null` string is `Option.None`.
- **Integers:** C#'s unchecked 32-bit arithmetic is written out with `WrapInt32` and `WrapUInt32`.
- **Algorithm values:** `LegacyPassword.PasswordAlgorithm` follows the enum nested in `PasswordBuilder` (`PasswordBuilder.cs:17-33`), whose members are `Basic` (0), `Dictionary` (1) and `Diceware` (2). Its `Unknown` case carries only integers other than 0, 1 and 2.

Modules and files:

| module | file | models |
|---|---|---|
| `Common` | `common.dfy` | byte and 32-bit integer types, `Error`, `Result`, `Option`, wrap-around |
| `Text` | `text.dfy` | order-preserving filters, LINQ `Intersect`, the `Replace` loop, ASCII classes, `int.ToString` |
| `Alphabets` | `alphabets.dfy` | the literal character subsets and their facts |
| `Counting` | `counting.dfy` | how many bytes map to each residue of `b % n` |
| `BasicPassword` | `basicpasswordbuilder.dfy` | `BasicPasswordBuilder` |
| `LegacyPassword` | `passwordbuilder.dfy` | `PasswordBuilder` |
| `RandomHelper` | `randomhelper.dfy` | `RandomHelper` |
| `Diceware` | `dicewarelookup.dfy` | `DicewareLookup` |
| `DicewareBuilder` | `dicewarepasswordbuilder.dfy` | `DicewarePasswordBuilder` |
| `Hackerify` | `hackerifyhelper.dfy` | `HackerifyHelper` |
| `Entropy` | `passwordentropy.dfy` | `PasswordEntropy`, `PasswordStrength` |

Notes on the code:

- **Specials:** the special-character literal `!@#$%^&*()-_=+[]{}|;:,.<>?` has 26 characters.
- **Dice faces:** each die is `b % 6 + 1` of one byte, so the faces are not uniform (`DicewareBuilder.DieFaceBias`).
- **Dice indices:** `11111` does not map to index 0 (see Findings).
- **Word table:** the table has 8192 slots, filled from however many lines there are. `LoadWords` never checks for 7776 lines; an 8193rd line overruns the array.

## Model

| member | source | states |
|---|---|---|
| `Text.Intersect` | src/SpamOK.PasswordGenerator/BasicPasswordBuilder.cs:241 | LINQ `Intersect`: the result repeats no character, is no longer than its input, and holds exactly the characters in both strings |
| `Text.FilteredCharSetFacts` | src/SpamOK.PasswordGenerator/BasicPasswordBuilder.cs:239-247 | from a duplicate-free assembled string, the optional intersection followed by the exclusions repeats no character, keeps exactly the characters in the reference set (when used) and not excluded, and keeps their order |
| `Text.IntersectOfDistinct` | src/SpamOK.PasswordGenerator/BasicPasswordBuilder.cs:241 | on a duplicate-free string, `Intersect` is the order-preserving filter `KeepIn` |
| `Text.KeepInMembers` | src/SpamOK.PasswordGenerator/BasicPasswordBuilder.cs:239-242 | the order-preserving filter keeps exactly the characters that occur in the reference set, and never lengthens its input |
| `Text.KeepOutMembers` | src/SpamOK.PasswordGenerator/BasicPasswordBuilder.cs:244-247 | removing a set of characters keeps exactly the characters outside it, and never lengthens its input |
| `Text.KeepOutStep` | src/SpamOK.PasswordGenerator/BasicPasswordBuilder.cs:244-247 | removing the characters of `e` and then `c` equals removing those of `e + [c]`: one iteration of the exclusion loop |
| `Text.RemoveExcluded` | src/SpamOK.PasswordGenerator/BasicPasswordBuilder.cs:244-247 | the `foreach … Replace(c, "")` loop leaves exactly the characters not excluded, in their original order (`KeepOut`) |
| `Text.ToLower` | src/SpamOK.PasswordGenerator/Helpers/HackerifyHelper.cs:48 | `char.ToLower` on ASCII: the result is never uppercase; an uppercase letter becomes the lowercase letter at the same alphabet position; everything else is unchanged |
| `Text.DecimalString` | src/SpamOK.PasswordGenerator/Algorithms/Diceware/DicewareLookup.cs:39 | `int.ToString()` in the invariant culture prints only `-` and decimal digits |
| `Text.NatStringLength` | src/SpamOK.PasswordGenerator/Algorithms/Diceware/DicewareLookup.cs:39 | a number below `10^k` prints in at most `k` digits |
| `Alphabets.RangeMembers` | src/SpamOK.PasswordGenerator/BasicPasswordBuilder.cs:211-213 | the lowercase, uppercase and digit literals hold exactly the ASCII letters and digits of their class |
| `Alphabets.SpecialsFacts` | src/SpamOK.PasswordGenerator/BasicPasswordBuilder.cs:214 | the special literal has 26 distinct characters, none alphanumeric |
| `Alphabets.NonAmbiguousSpecialsFacts` | src/SpamOK.PasswordGenerator/BasicPasswordBuilder.cs:215 | the specials of the reference set are 19 distinct specials without `_` and `{` |
| `Counting.ResiduesCount` | src/SpamOK.PasswordGenerator/BasicPasswordBuilder.cs:191-198 | `[0, n*q + r)` hits each residue `k` of `n` exactly `q` times, plus once when `k < r` |
| `Counting.ByteResidues` | src/SpamOK.PasswordGenerator/PasswordBuilder.cs:151 | mapping a byte by `b % n` hits index `k` with `256 / n` bytes, plus one when `k < 256 % n` |
| `BasicPassword.AssembledCharSetFacts` | src/SpamOK.PasswordGenerator/BasicPasswordBuilder.cs:211-237 | before filtering, the charset concatenates the enabled subsets in flag order; it has no duplicates and its length is the sum of the enabled sizes |
| `BasicPassword.NonAmbiguousCharsFacts` | src/SpamOK.PasswordGenerator/BasicPasswordBuilder.cs:215 | the reference set has 75 distinct characters and contains none of `l 1 I o O 0 _ {` |
| `BasicPassword.CharSetFacts` | src/SpamOK.PasswordGenerator/BasicPasswordBuilder.cs:209-250 | the final charset has no duplicates and is exactly the enabled characters that pass the non-ambiguous filter (when on) and are not excluded, in their assembled order |
| `BasicPassword.NonAmbiguousExcludesAmbiguous` | src/SpamOK.PasswordGenerator/BasicPasswordBuilder.cs:239-242 | with non-ambiguous on, none of `l 1 I o 0 O _ {` can be drawn |
| `BasicPassword.ExcludedAbsent` | src/SpamOK.PasswordGenerator/BasicPasswordBuilder.cs:244-247 | no excluded character is in the charset |
| `BasicPassword.CharSetSize` | src/SpamOK.PasswordGenerator/BasicPasswordBuilder.cs:209-250 | the charset never exceeds 88 characters |
| `BasicPassword.AllOptionsCharSetSize` | src/SpamOK.PasswordGenerator/BasicPasswordBuilder.cs:46-50 | every option on and nothing excluded gives 75 characters |
| `BasicPassword.LowercaseOnlyCharSet` | src/SpamOK.PasswordGenerator/BasicPasswordBuilder.cs:219-222 | lowercase alone gives exactly `a`..`z`, 26 characters |
| `BasicPassword.DisabledCharSetEmpty` | src/SpamOK.PasswordGenerator/BasicPasswordBuilder.cs:35-40 | with every subset off the charset is empty, whatever is excluded |
| `BasicPassword.MaxValidValueFacts` | src/SpamOK.PasswordGenerator/BasicPasswordBuilder.cs:191 | for 1 ≤ n ≤ 256, `256 - 256 % n` is a positive multiple of `n`, and fewer than `n` byte values lie at or above it |
| `BasicPassword.UnbiasedIndex` | src/SpamOK.PasswordGenerator/BasicPasswordBuilder.cs:191-198 | every index below `n` is produced by exactly `maxValidValue / n` accepted bytes |
| `BasicPassword.AcceptedSplit` | src/SpamOK.PasswordGenerator/BasicPasswordBuilder.cs:193-202 | the bytes accepted from a stream are those accepted before a point followed by those accepted after it |
| `BasicPassword.GetUnbiasedRandomChar` | src/SpamOK.PasswordGenerator/BasicPasswordBuilder.cs:188-203 | skips every byte at or above `256 - 256 % n`, stops at the first byte below it, and returns `charSet[b % n]` |
| `BasicPassword.GenerateRandomPassword` | src/SpamOK.PasswordGenerator/BasicPasswordBuilder.cs:167-177 | a negative length throws; otherwise the password has `length` characters, character `i` coming from the `i`-th accepted byte |
| `BasicPassword.BasicPasswordBuilder.constructor` | src/SpamOK.PasswordGenerator/BasicPasswordBuilder.cs:22-28 | length 8, every subset on, non-ambiguous off, nothing excluded |
| `BasicPassword.BasicPasswordBuilder.ResetOptions` | src/SpamOK.PasswordGenerator/BasicPasswordBuilder.cs:268-276 | every flag, non-ambiguous included, becomes the given value; exclusions are cleared; the length is kept |
| `BasicPassword.BasicPasswordBuilder.DisableAllOptions` | src/SpamOK.PasswordGenerator/BasicPasswordBuilder.cs:35-40 | resets to false, returns the same builder, and leaves an empty charset |
| `BasicPassword.BasicPasswordBuilder.EnableAllOptions` | src/SpamOK.PasswordGenerator/BasicPasswordBuilder.cs:46-50 | resets to true, returns the same builder, and leaves a 75-character charset |
| `BasicPassword.BasicPasswordBuilder.SetLength` | src/SpamOK.PasswordGenerator/BasicPasswordBuilder.cs:57-61 | changes only the length and returns the same builder |
| `BasicPassword.BasicPasswordBuilder.UseLowercaseLetters` | src/SpamOK.PasswordGenerator/BasicPasswordBuilder.cs:68-72 | changes only its flag and returns the same builder |
| `BasicPassword.BasicPasswordBuilder.UseUppercaseLetters` | src/SpamOK.PasswordGenerator/BasicPasswordBuilder.cs:79-83 | changes only its flag and returns the same builder |
| `BasicPassword.BasicPasswordBuilder.UseNumbers` | src/SpamOK.PasswordGenerator/BasicPasswordBuilder.cs:90-94 | changes only its flag and returns the same builder |
| `BasicPassword.BasicPasswordBuilder.UseSpecialChars` | src/SpamOK.PasswordGenerator/BasicPasswordBuilder.cs:101-105 | changes only its flag and returns the same builder |
| `BasicPassword.BasicPasswordBuilder.UseNonAmbiguousChars` | src/SpamOK.PasswordGenerator/BasicPasswordBuilder.cs:113-117 | changes only its flag and returns the same builder |
| `BasicPassword.BasicPasswordBuilder.ExcludeChars` | src/SpamOK.PasswordGenerator/BasicPasswordBuilder.cs:124-128 | changes only the exclusions and returns the same builder |
| `BasicPassword.BasicPasswordBuilder.GetCharSet` | src/SpamOK.PasswordGenerator/BasicPasswordBuilder.cs:209-250 | the appends, the intersection and the `Replace` loop compute `CharSetFor` of the current options |
| `BasicPassword.BasicPasswordBuilder.GetPossibleSymbolsCount` | src/SpamOK.PasswordGenerator/BasicPasswordBuilder.cs:257-261 | equals the charset's length, at most 88 |
| `BasicPassword.BasicPasswordBuilder.GeneratePassword` | src/SpamOK.PasswordGenerator/BasicPasswordBuilder.cs:135-149 | an empty charset throws before any draw; otherwise the password has `length` characters of the charset, unbiased, and carries the symbol count |
| `LegacyPassword.AssembledCharSetFacts` | src/SpamOK.PasswordGenerator/PasswordBuilder.cs:163-179 | the charset starts with the 52 letters, uppercase first, then digits if on, then specials if on; no duplicates |
| `LegacyPassword.NonAmbiguousCharsFacts` | src/SpamOK.PasswordGenerator/PasswordBuilder.cs:166 | the reference set has 56 distinct alphanumerics and none of `l 1 I o 0 O` |
| `LegacyPassword.CharSetFacts` | src/SpamOK.PasswordGenerator/PasswordBuilder.cs:161-190 | the final charset has no duplicates and holds exactly the assembled characters that pass the filter and are not excluded, in order |
| `LegacyPassword.NonAmbiguousRemovesSpecials` | src/SpamOK.PasswordGenerator/PasswordBuilder.cs:181-184 | non-ambiguous mode leaves only letters and digits: every special goes, even with specials on, and so does each of `l 1 I o 0 O` |
| `LegacyPassword.ExcludedAbsent` | src/SpamOK.PasswordGenerator/PasswordBuilder.cs:186-189 | no excluded character is in the charset |
| `LegacyPassword.CharSetNonEmptyWithoutExclusions` | src/SpamOK.PasswordGenerator/PasswordBuilder.cs:169 | with nothing excluded the charset has at least 48 characters |
| `LegacyPassword.DefaultCharSet` | src/SpamOK.PasswordGenerator/PasswordBuilder.cs:40-45 | the defaults give letters, digits and specials: 88 characters |
| `LegacyPassword.DefaultCharSetBias` | src/SpamOK.PasswordGenerator/PasswordBuilder.cs:151 | over 88 characters the plain remainder draws index 0 from 3 bytes but index 87 from 2 |
| `LegacyPassword.GenerateRandomPassword` | src/SpamOK.PasswordGenerator/PasswordBuilder.cs:140-155 | a negative length throws; an empty charset with positive length divides by zero; otherwise character `i` is `charSet[bytes[i] % n]` |
| `LegacyPassword.PasswordBuilder.constructor` | src/SpamOK.PasswordGenerator/PasswordBuilder.cs:40-45 | length 8, numbers and specials on, non-ambiguous off, nothing excluded, algorithm Basic |
| `LegacyPassword.PasswordBuilder.SetLength` | src/SpamOK.PasswordGenerator/PasswordBuilder.cs:52-56 | changes only the length and returns the same builder |
| `LegacyPassword.PasswordBuilder.UseNumbers` | src/SpamOK.PasswordGenerator/PasswordBuilder.cs:63-67 | changes only its flag and returns the same builder |
| `LegacyPassword.PasswordBuilder.UseSpecialChars` | src/SpamOK.PasswordGenerator/PasswordBuilder.cs:74-78 | changes only its flag and returns the same builder |
| `LegacyPassword.PasswordBuilder.UseNonAmbiguousChars` | src/SpamOK.PasswordGenerator/PasswordBuilder.cs:86-90 | changes only its flag and returns the same builder |
| `LegacyPassword.PasswordBuilder.ExcludeChars` | src/SpamOK.PasswordGenerator/PasswordBuilder.cs:97-101 | changes only the exclusions and returns the same builder |
| `LegacyPassword.PasswordBuilder.UseAlgorithm` | src/SpamOK.PasswordGenerator/PasswordBuilder.cs:108-112 | changes only the algorithm and returns the same builder |
| `LegacyPassword.PasswordBuilder.GenerateBasicPassword` | src/SpamOK.PasswordGenerator/PasswordBuilder.cs:161-192 | the password has `length` characters, character `i` being `CharSet()[bytes[i] % n]`; the same two errors as above |
| `LegacyPassword.PasswordBuilder.Build` | src/SpamOK.PasswordGenerator/PasswordBuilder.cs:120-132 | Basic generates; Dictionary and Diceware throw not-implemented; any other value throws out-of-range |
| `RandomHelper.Chance` | src/SpamOK.PasswordGenerator/Helpers/RandomHelper.cs:27 | the chance lies in [1, 100] |
| `RandomHelper.GenerateRandomBoolean` | src/SpamOK.PasswordGenerator/Helpers/RandomHelper.cs:22-29 | true exactly when `b % 100 < probability` |
| `RandomHelper.RandomBooleanExtremes` | src/SpamOK.PasswordGenerator/Helpers/RandomHelper.cs:27-28 | probability 100 or more is always true, 0 or less is never true |
| `RandomHelper.RandomBooleanMonotone` | src/SpamOK.PasswordGenerator/Helpers/RandomHelper.cs:27-28 | raising the probability never turns a true draw false |
| `RandomHelper.AlphanumericSetFacts` | src/SpamOK.PasswordGenerator/Helpers/RandomHelper.cs:37 | the set has 62 distinct characters, exactly the ASCII alphanumerics |
| `RandomHelper.GenerateRandomAlphanumericCharacter` | src/SpamOK.PasswordGenerator/Helpers/RandomHelper.cs:35-43 | the result is always a letter or digit |
| `RandomHelper.AlphanumericReachable` | src/SpamOK.PasswordGenerator/Helpers/RandomHelper.cs:35-43 | every letter and digit is produced by some byte |
| `RandomHelper.AlphanumericBias` | src/SpamOK.PasswordGenerator/Helpers/RandomHelper.cs:41 | `a`..`h` come from 5 bytes each, the other 54 characters from 4 |
| `RandomHelper.ToUInt32RoundTrip` | src/SpamOK.PasswordGenerator/Helpers/RandomHelper.cs:63 | little-endian decoding of four bytes is inverted by re-encoding |
| `RandomHelper.UInt32BytesRoundTrip` | src/SpamOK.PasswordGenerator/Helpers/RandomHelper.cs:63 | every `uint` is the decoding of its four bytes |
| `RandomHelper.GenerateRandomNumberBetween` | src/SpamOK.PasswordGenerator/Helpers/RandomHelper.cs:51-71 | `min > max` throws out-of-range; the only other failure is division by zero |
| `RandomHelper.WrapRoundTrip` | src/SpamOK.PasswordGenerator/Helpers/RandomHelper.cs:66 | `(uint)` of the wrapped `int` gives back any range size below 2^32 |
| `RandomHelper.NumberBetweenInRange` | src/SpamOK.PasswordGenerator/Helpers/RandomHelper.cs:60-70 | outside the full `int` range, the result is `min + num % (max - min + 1)` and lies in [min, max] |
| `RandomHelper.FullRangeDividesByZero` | src/SpamOK.PasswordGenerator/Helpers/RandomHelper.cs:66-69 | over the full `int` range the range size wraps to 0 and the remainder throws |
| `RandomHelper.NumberBetweenSingleValue` | src/SpamOK.PasswordGenerator/Helpers/RandomHelper.cs:66-70 | `min == max` returns `min` whatever the bytes |
| `RandomHelper.NumberBetweenReachable` | src/SpamOK.PasswordGenerator/Helpers/RandomHelper.cs:60-70 | every value of the range is produced by some four bytes |
| `Diceware.ConvertBase6ToBase10` | src/SpamOK.PasswordGenerator/Algorithms/Diceware/DicewareLookup.cs:80-89 | the loop computes the left fold `result * 6 + (digit - '1')` in wrapping 32-bit arithmetic |
| `Diceware.WrapStep` | src/SpamOK.PasswordGenerator/Algorithms/Diceware/DicewareLookup.cs:85 | one fold step commutes with 32-bit wrap-around |
| `Diceware.Base6Range` | src/SpamOK.PasswordGenerator/Algorithms/Diceware/DicewareLookup.cs:80-89 | `k` faces `1`..`6` convert to a value in [0, 6^k) |
| `Diceware.Base6Injective` | src/SpamOK.PasswordGenerator/Algorithms/Diceware/DicewareLookup.cs:80-89 | equal-length face strings with the same value are equal |
| `Diceware.DiceDigitsRoundTrip` | src/SpamOK.PasswordGenerator/Algorithms/Diceware/DicewareLookup.cs:80-89 | every value in [0, 6^k) is the conversion of some `k`-face string |
| `Diceware.Base6RoundTrip` | src/SpamOK.PasswordGenerator/Algorithms/Diceware/DicewareLookup.cs:80-89 | a face string is recovered from its value, completing the bijection with [0, 6^k) |
| `Diceware.Base6Ends` | src/SpamOK.PasswordGenerator/Algorithms/Diceware/DicewareLookup.cs:80-89 | `"11111"` converts to 0 and `"66666"` to 7775 |
| `Diceware.Base6Bound` | src/SpamOK.PasswordGenerator/Algorithms/Diceware/DicewareLookup.cs:83-86 | over `k` characters from `-` and `0`..`9` the fold stays within `2 * 6^k - 2` in magnitude |
| `Diceware.DecimalStringLength` | src/SpamOK.PasswordGenerator/Algorithms/Diceware/DicewareLookup.cs:39 | an `int` prints in at most 11 characters |
| `Diceware.ConvertNoWrap` | src/SpamOK.PasswordGenerator/Algorithms/Diceware/DicewareLookup.cs:39 | on an `int` printed in the invariant culture, neither the fold nor the `- 1` wraps |
| `Diceware.DiceSlotOffByOne` | src/SpamOK.PasswordGenerator/Algorithms/Diceware/DicewareLookup.cs:39-48 | five-face indices land in [-1, 7774]: slot 7775 is never read |
| `Diceware.DiceSlotEnds` | src/SpamOK.PasswordGenerator/Algorithms/Diceware/DicewareLookup.cs:39-48 | `11111` gives index -1, which throws; `66666` gives slot 7774 |
| `Diceware.NatStringInjective` | src/SpamOK.PasswordGenerator/Algorithms/Diceware/DicewareLookup.cs:39 | different non-negative numbers print differently |
| `Diceware.CorrectedDiceSlotBijective` | src/SpamOK.PasswordGenerator/Algorithms/Diceware/DicewareLookup.cs:39 | without the `- 1`, five-face indices map one-to-one into [0, 7776), with `11111` at 0 and `66666` at 7775 |
| `Diceware.CorrectedSlotsCovered` | src/SpamOK.PasswordGenerator/Algorithms/Diceware/DicewareLookup.cs:80-89 | every one of the 7776 slots is the value of some five-face string |
| `Diceware.DicewareLookup.constructor` | src/SpamOK.PasswordGenerator/Algorithms/Diceware/DicewareLookup.cs:19 | the empty array stands for the `_words` field before `LoadWords` sets it; the source never exposes that state, so a lookup on it has no counterpart there |
| `Diceware.DicewareLookup.LoadWords` | src/SpamOK.PasswordGenerator/Algorithms/Diceware/DicewareLookup.cs:68-75 | with at most 8192 lines the new table has 8192 slots: line `i` in slot `i`, null after the last line; more lines throw and leave the old table |
| `Diceware.DicewareLookup.Create` | src/SpamOK.PasswordGenerator/Algorithms/Diceware/DicewareLookup.cs:25-28 | construction fails exactly when there are more than 8192 lines; otherwise the lookup holds the loaded table |
| `Diceware.DicewareLookup.GetWordByDiceIndex` | src/SpamOK.PasswordGenerator/Algorithms/Diceware/DicewareLookup.cs:36-50 | returns slot `DiceSlot(diceIndex)` when it is inside the table, null slots included; otherwise throws index-out-of-range |
| `DicewareBuilder.DieFace` | src/SpamOK.PasswordGenerator/DicewarePasswordBuilder.cs:56 | a face is `b % 6 + 1`, between 1 and 6 |
| `DicewareBuilder.DieFaceString` | src/SpamOK.PasswordGenerator/DicewarePasswordBuilder.cs:33 | a face prints as its single digit character `1`..`6` |
| `DicewareBuilder.DieFaceBias` | src/SpamOK.PasswordGenerator/DicewarePasswordBuilder.cs:56 | faces 1 to 4 come from 43 byte values each, faces 5 and 6 from 42 |
| `DicewareBuilder.DicewarePasswordBuilder.constructor` | src/SpamOK.PasswordGenerator/DicewarePasswordBuilder.cs:19 | the count starts at 5 |
| `DicewareBuilder.DicewarePasswordBuilder.GenerateDiceRoll` | src/SpamOK.PasswordGenerator/DicewarePasswordBuilder.cs:41-60 | a negative count throws; otherwise exactly `diceCount` rolls in 1..6, roll `i` depending only on byte `i` |
| `DicewareBuilder.DicewarePasswordBuilder.GeneratePassword` | src/SpamOK.PasswordGenerator/DicewarePasswordBuilder.cs:28-34 | the joined rolls: `count` characters, all `1`..`6`, character `i` from byte `i` |
| `Hackerify.Replacement` | src/SpamOK.PasswordGenerator/Helpers/HackerifyHelper.cs:48-56 | always one character, never one whose lowercase form is a table key, and the character itself, with its case, exactly when its lowercase form is not a key |
| `Hackerify.LeetTableFacts` | src/SpamOK.PasswordGenerator/Helpers/HackerifyHelper.cs:19-28 | every replacement is one character and is not a key in either case |
| `Hackerify.HackerifiedPositions` | src/SpamOK.PasswordGenerator/Helpers/HackerifyHelper.cs:46-57 | the output has the input's length and character `i` is the replacement of input character `i` |
| `Hackerify.LeetCaseInsensitive` | src/SpamOK.PasswordGenerator/Helpers/HackerifyHelper.cs:48-49 | both cases of a key convert alike (`A`, `a` to `@`; `T`, `t` to `7`); other characters keep their case |
| `Hackerify.NoLeetKeysRemain` | src/SpamOK.PasswordGenerator/Helpers/HackerifyHelper.cs:19-28 | no `a b e i l o t`, in either case, is left in the output |
| `Hackerify.HackerifiedIdempotent` | src/SpamOK.PasswordGenerator/Helpers/HackerifyHelper.cs:19-28 | converting twice equals converting once |
| `Hackerify.ConvertToHackerify` | src/SpamOK.PasswordGenerator/Helpers/HackerifyHelper.cs:37-60 | null throws argument-null; otherwise the loop builds `Hackerified(input)` |
| `Entropy.Ordinal` | src/SpamOK.PasswordGenerator/Models/PasswordStrength.cs:17-42 | strength levels have values 0 to 5 |
| `Entropy.NewPasswordEntropy` | src/SpamOK.PasswordGenerator/Models/PasswordEntropy.cs:24-29 | `BitEntropy` is the entropy argument unchanged; the password is stored as given; the time to crack is an input |
| `Entropy.GetPasswordStrength` | src/SpamOK.PasswordGenerator/Models/PasswordEntropy.cs:40-61 | each level holds exactly its interval: at most 25, then up to 35, 59, 127 and 190 inclusive, and above 190 |
| `Entropy.StrengthMonotone` | src/SpamOK.PasswordGenerator/Models/PasswordEntropy.cs:49-60 | more entropy never gives a lower level |
| `Entropy.StrengthIgnoresPassword` | src/SpamOK.PasswordGenerator/Models/PasswordEntropy.cs:40-61 | the level depends on the entropy alone |
| `Entropy.StrengthExamples` | src/SpamOK.PasswordGenerator/Models/PasswordEntropy.cs:49-60 | 10, 30, 45, 60, 130 and 195 bits fall into the six levels in order; 70 and 93 bits are Strong |

## Left out

- **Secure random source:** `RandomHelper.GenerateRandomBytes` and `RNGCryptoServiceProvider` are foreign calls. Their output is an input of the model.
  - For the redraw loop of `GetUnbiasedRandomChar`, the stream must hold at least `length` acceptable bytes.
  - The chance that an infinite stream eventually yields one is not modelled.
- **Entropy numerics:** `EntropyCalculatorHelper` (logarithms, powers, `double` division) and the entropy value computed in `GeneratePassword` are floating-point. `GeneratedPassword` carries the symbol count that feeds them.
  - `Entropy.PasswordEntropy` takes the time to crack as a given value.
  - The entropy is a `real`, so a NaN entropy, which every comparison rejects and which would grade as Overkill, is not represented.
- **Async wrapper:** `GeneratePasswordAsync` is a concurrency wrapper around `GeneratePassword`.
- **`LoadWords` I/O:** resource lookup, `StreamReader` and the missing-resource exception are I/O. The model fills the table from a given sequence of lines.
- **Null arguments:** a `null` argument to `ExcludeChars` (which would make the exclusion loop throw) is not modelled. Only `ConvertToHackerify` takes a possibly-null string.
- **Culture-sensitive lowering:** `char.ToLower` is modelled as ASCII lowercasing. Culture rules for non-ASCII letters are not modelled.
- **Culture-sensitive number printing:** `int.ToString()` is modelled in the invariant culture, with `-` as the negative sign. A culture whose `NumberFormatInfo.NegativeSign` is another character (such as U+2212) is not modelled; a negative dice index is still rejected, but `Diceware.ConvertNoWrap` is stated only for `-`.
- **Byte order:** `BitConverter.ToUInt32` is modelled little-endian (`BitConverter.IsLittleEndian` true); on a big-endian host the four bytes are read in the reverse order.
- **Not part of this model:**
  - reflection over attributes (`EnumExtensions`, `ResourceNameAttribute`, `SeparatorCharacterAttribute`);
  - `PasswordAlgorithm.cs`, a separate top-level enum with only `Basic` (0) and `Diceware` (1); the model follows the enum nested in `PasswordBuilder` instead;
  - the other enum-only files (`DicewareCapitalization`, `DicewareSalt`, `DicewareSeparator`, `DicewareWordList`);
  - `Password`;
  - `IPasswordBuilder`;
  - the tests.

## Findings

| source | as written | input that shows it | evidently intended | confidence | as-written member | corrected member |
|---|---|---|---|---|---|---|
| src/SpamOK.PasswordGenerator/Algorithms/Diceware/DicewareLookup.cs:39 | the converted dice index is decremented before indexing, so five-face indices map to [-1, 7774] | dice index `11111` gives index -1 and throws index-out-of-range; `66666` gives slot 7774, and slot 7775 is never read | `11111` reads slot 0 and `66666` slot 7775, so that the 7776 indices map one-to-one onto the 7776 words | high that the behaviour is as stated (proved); medium that it is unintended; not executed | `Diceware.DiceSlotEnds` | `Diceware.CorrectedDiceSlotBijective` |
