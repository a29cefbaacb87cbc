# Unigma cipher core in Dafny

This project models the Enigma I engine of Unigma (`unigma.c`, `unigma.h`).
The machine has three rotors and a reflector:

- Rotors I, II and III, with reflector B.
- Turnover notches Q, E and V.
- A plugboard given as a string of letter pairs.
- A key loop that uppercases each letter and steps the rotors. It then sends
  the letter through plugboard, rotors, reflector, rotors and plugboard.
  Any other character passes through unchanged.

The model has seven modules.

- `Layout` (`layout.dfy`): the constants of `unigma.h`.
- `Letters` (`letters.dfy`): the alphabet, case conversion, `mod_positive` and `idx`.
- `Rotors` (`rotors.dfy`):
  - the wiring and notch tables;
  - proofs that the three rotor wirings are permutations and that reflector B
    is an involution with no fixed point;
  - `encode_through_rotor` in both directions, and the reflector lookup.
- `Plugboard` (`plugboard.dfy`): `apply_plugboard` as a scan over a
  well-formed pair string, with its involution law for disjoint pairs.
- `Cipher` (`cipher.dfy`): the machine as functions of its state.
  - `Stepped` is the stepping rule of `step_rotors`.
  - `Keystroke` is one pass of the `run_enigma` loop body.
  - `Transcribe` is the whole loop over an input string.
  - The laws proved about them: reverse undoes forward, the machine is
    self-reciprocal, no letter maps to itself, and the rotors step exactly
    once per letter.
- `Machine` (`machine.dfy`):
  - the `EnigmaState` record as a class, where `positions` is an array that
    the methods update in place;
  - the `init_*` functions, `set_rotor_positions`, `set_plugboard`,
    `step_rotors` and the `run_enigma` loop, as methods;
  - each method proved equal to the `Cipher` function it implements.
- `KnownAnswer` (`known_answer.dfy`): at A A A with an empty plugboard,
  the first A becomes B.

Where the C code and its own comments disagree, the model follows the code.

- **Rotor order.** The header comment at `unigma.h:42` calls `positions[0]`
  rotor I. The code uses `positions[0]` as the right rotor's offset, and that
  rotor carries wiring III (`unigma.c:203`). `Cipher.Inward` and
  `Cipher.Outward` use the code's order.
- **Right rotor notch.** The comments pair the notches Q, E, V with rotors
  I, II, III (`unigma.c:28`, `unigma.h:38`), so the right rotor, which
  carries wiring III, would turn over at V. Yet `step_rotors` compares
  `positions[0]`, the right rotor, with entry 0 of the table, which is Q
  (`unigma.c:170`, `unigma.c:203`). The model uses entry 0, as the code
  does: the middle rotor turns over when the right rotor leaves Q, not V
  (`Cipher.RightRotorTurnsOverAtQ`).
- **Lowercase rotor settings.** `set_rotor_positions` uppercases only a copy
  of each character to check it. It then stores the original character minus
  'A', so a lowercase setting is stored 32 too high.
  - A rotor only sees its offset modulo 26, so such a letter acts like the
    uppercase letter six places on (`Cipher.LowercaseSettingActsSixLater`).
  - A stored middle offset of 32 or more equals no notch, so the first
    press does not double-step where the uppercase setting would.
  - `step_rotors` reduces each offset modulo 26 only when it moves it. So the
    middle offset becomes an ordinary letter index at its first move, for
    example 'e' becomes L when the right rotor leaves Q
    (`Cipher.LowercaseMiddleSettingMissesNotch`).
- **Reflector lookup.** `idx` may return -1 in the reflector lookup, and the
  code passes that value on unchecked. `Rotors.Reflect` returns -1 in the same
  case and the return pass takes it as it is. With reflector B the case never
  arises (`Rotors.ReflectorBIsReflector`).
- **Overlapping plugboard pairs.** The plugboard scan does not reject a letter
  that appears in two pairs. The first pair that contains the letter wins.
  The plugboard is then not its own inverse
  (`Plugboard.OverlappingPairsBreakInvolution`), and a letter can be
  enciphered as itself: with "AB AC" at setting J A Z, A comes out as A
  (`KnownAnswer.OverlappingPairsAllowFixedPoint`). The laws that need
  disjoint pairs say so in their preconditions.

## Model

| member | source | states |
|---|---|---|
| Letters.Alphabet | unigma.c:32 | the reference alphabet has 26 entries |
| Letters.AlphabetSpelledOut | unigma.c:32 | the alphabet is exactly the letters A to Z in order |
| Letters.ToUpper | unigma.c:183-185 | a lowercase letter becomes the uppercase letter 32 code points below it; every other character is left as it is |
| Letters.UpperString | unigma.c:377-382 | the result has the input's length and holds, position by position, the input's characters with lowercase letters uppercased |
| Letters.CRem | unigma.c:116 | C's `%` by 26: it lies strictly between -26 and 26, has the sign of the dividend and differs from it by a multiple of 26 |
| Letters.ModPositive | unigma.c:115-117 | `mod_positive` always lies in 0..25 |
| Letters.ModPositiveMatchesSource | unigma.c:115-117 | the C expression `(a % 26 + 26) % 26`, built from truncating remainders, equals ModPositive(a) for every integer a, negative ones included, and is congruent to a modulo 26 |
| Letters.IdxFrom | unigma.c:103-112 | scanning from position i gives -1 exactly when c does not occur from i on; otherwise it gives the first position at or after i that holds c |
| Letters.Idx | unigma.c:103-112 | `idx` gives -1 exactly when c does not occur in s; otherwise it gives a position of c with no earlier occurrence |
| Letters.IdxAlphabet | unigma.c:130 | looking a character up in the alphabet gives its letter index for A..Z and -1 for anything else |
| Rotors.RotorIOnPositions | unigma.c:21 | every entry of rotor I's wiring is a letter, and the inverse table sends it back to its position |
| Rotors.RotorIOnLetters | unigma.c:21 | every letter A..Z occurs in rotor I's wiring at the position the inverse table names |
| Rotors.RotorIIOnPositions | unigma.c:22 | the same for rotor II, by position |
| Rotors.RotorIIOnLetters | unigma.c:22 | the same for rotor II, by letter |
| Rotors.RotorIIIOnPositions | unigma.c:23 | the same for rotor III, by position |
| Rotors.RotorIIIOnLetters | unigma.c:23 | the same for rotor III, by letter |
| Rotors.ReflectorBOnPositions | unigma.c:24 | the same for reflector B, by position |
| Rotors.ReflectorBOnLetters | unigma.c:24 | the same for reflector B, by letter |
| Rotors.InverseTableGivesPermutation | unigma.c:20-25 | a wiring with an inverse table in both senses has 26 uppercase entries, all distinct, covering every letter |
| Rotors.WiringsArePermutations | unigma.c:20-25 | the table has four wirings and each is a permutation of A..Z |
| Rotors.Reflect | unigma.c:208 | the reflector lookup gives the letter index of the wired letter, or -1 when the entry is not an uppercase letter |
| Rotors.ReflectorBEntry | unigma.c:24 | entry k of reflector B is a letter other than letter k, and the entry at that letter is letter k |
| Rotors.ReflectorBIsReflector | unigma.c:24 | reflector B is a permutation, and its lookup always lands in 0..25, is never the identity on a letter and undoes itself |
| Rotors.StandardWiringsValid | unigma.c:20-25 | the three rotors are permutations and the fourth entry is a reflector |
| Rotors.EncodeThroughRotor | unigma.c:124-136 | for a 26-letter wiring at any offset, the result is a letter index in 0..25, forward and reverse |
| Rotors.ForwardValue | unigma.c:127-130 | forward through a rotor: the result is the index of the letter wired at contact (k + offset) mod 26, minus the offset, reduced modulo 26 |
| Rotors.ReverseValue | unigma.c:131-135 | reverse through a permutation rotor: the result is the position of the entering letter in the wiring, minus the offset, reduced modulo 26 |
| Rotors.ReverseUndoesForward | unigma.c:124-136 | for a permutation wiring, any offset and any index in 0..25, the reverse pass at the same offset returns the index the forward pass received |
| Rotors.ForwardUndoesReverse | unigma.c:124-136 | and the forward pass undoes the reverse pass |
| Rotors.EncodeDependsOnResidue | unigma.c:125 | the substitution depends on the offset only modulo 26 |
| Plugboard.SkipSpaces | unigma.c:154-156 | the result is a suffix of the input that does not begin with a space, and everything dropped before it is spaces |
| Plugboard.Pairs | unigma.c:145-157 | the pairs read off a well-formed plugboard string, in scan order, are pairs of uppercase letters |
| Plugboard.ApplyPlugboard | unigma.c:139-160 | the plugboard maps an uppercase letter to an uppercase letter |
| Plugboard.EmptyPlugboardIsIdentity | unigma.c:140-142 | the empty plugboard returns its input |
| Plugboard.UnpluggedLetterUnchanged | unigma.c:145-159 | a letter that is in no pair comes out unchanged |
| Plugboard.FirstPairSwaps | unigma.c:145-151 | a letter comes out as its partner in the first pair that contains it |
| Plugboard.PlugboardInvolution | unigma.c:139-160 | when no letter is plugged twice, applying the plugboard twice gives back the input |
| Plugboard.OverlappingPairsBreakInvolution | unigma.c:145-157 | with "AB AC", C becomes A but A becomes B, so overlapping pairs break the involution |
| Cipher.StandardWirings | unigma.h:29-36 | the wiring table holds four 26-letter wirings (three rotors and the reflector as the last entry), and they are valid |
| Cipher.Stepped | unigma.c:163-175 | stepping keeps three positions |
| Cipher.SteppingRules | unigma.c:163-175 | the right rotor always advances by one modulo 26. The middle rotor advances exactly when it or the right rotor is at its notch. The left rotor advances exactly when the middle rotor is at its notch. Positions in 0..25 stay in 0..25 |
| Cipher.StepN | unigma.c:194 | n key presses keep three positions |
| Cipher.StepNAdd | unigma.c:163-175 | stepping m times and then n times gives the same positions as stepping m + n times |
| Cipher.RightRotorAfterSteps | unigma.c:174 | after n presses the right rotor has advanced by exactly n modulo 26, so 26 presses bring it back |
| Cipher.DoubleStepScenario | unigma.c:163-175 | from P D A the right rotor reaches its notch, then the middle rotor moves onto E, then the middle and left rotors step together (the double step) |
| Cipher.RightRotorTurnsOverAtQ | unigma.c:165-174 | the notch table is Q, E, V, one entry per rotor. The right rotor turns the middle rotor over from Q, and from V it moves alone |
| Cipher.LowercaseMiddleSettingMissesNotch | unigma.c:356-358 | a lowercase middle setting is stored 32 above its letter index. That offset equals no notch, so the first press does not double-step as the uppercase setting does. At the right rotor's turnover the offset is reduced modulo 26 ('e' becomes L) |
| Cipher.LowercaseSettingActsSixLater | unigma.c:355-358 | a lowercase setting acts on the substitution like the uppercase letter six places on |
| Cipher.Inward | unigma.c:203-205 | the forward pass through right (III), middle (II) and left (I) rotors gives an index in 0..25 |
| Cipher.Outward | unigma.c:211-213 | the reverse pass through left, middle and right rotors gives an index in 0..25 |
| Cipher.OutwardUndoesInward | unigma.c:203-213 | with permutation rotors, the return pass undoes the forward pass at the same positions |
| Cipher.InwardUndoesOutward | unigma.c:203-213 | and the forward pass undoes the return pass |
| Cipher.Scramble | unigma.c:200-215 | rotors, reflector and rotors map a letter index to a letter index |
| Cipher.ScrambleReciprocal | unigma.c:200-215 | with valid wirings, the rotor-and-reflector path is an involution with no fixed point |
| Cipher.SignalPath | unigma.c:196-218 | with the rotors already stepped, an uppercase letter comes out as an uppercase letter |
| Cipher.SignalPathSelfReciprocal | unigma.c:196-218 | at the same positions and plugboard, enciphering the output gives back the input, when no letter is plugged twice |
| Cipher.SignalPathNoFixedPoint | unigma.c:196-218 | with valid wirings and no letter plugged twice, no letter is enciphered as itself |
| Cipher.Keystroke | unigma.c:182-218 | one pass of the loop body always leaves three positions |
| Cipher.KeystrokeEffect | unigma.c:182-218 | for any wiring and plugboard, a character that is not a letter is emitted unchanged and leaves the rotors where they were. A letter of either case steps the rotors exactly once and comes out as an uppercase letter |
| Cipher.KeystrokeNoFixedPoint | unigma.c:182-218 | with valid wirings and no letter plugged twice, a letter never comes out as its own uppercase form |
| Cipher.Transcribe | unigma.c:181-221 | the output has the length of the input, and three positions remain |
| Cipher.TranscribeConcat | unigma.c:181-221 | feeding s + t gives the output of s followed by the output of t read from the positions s left, and ends where t ends |
| Cipher.TranscribeByCharacter | unigma.c:183-218 | for any wiring and plugboard, each non-letter of the input appears unchanged at its own position in the output, and each letter appears as an uppercase letter |
| Cipher.TranscribeNoFixedPoint | unigma.c:183-218 | with valid wirings and no letter plugged twice, no letter of the input appears at its position as its own uppercase form |
| Cipher.TranscribeStepsOncePerLetter | unigma.c:181-221 | after a whole input the rotors have stepped once per letter and not at all for other characters |
| Cipher.KeystrokeThenSteps | unigma.c:194 | a key press followed by n presses is n + 1 presses when the character is a letter, n otherwise |
| Cipher.TranscribeSelfReciprocal | unigma.c:181-221 | a machine started at the same positions and fed the output prints the input with lowercase letters uppercased, and ends at the same positions |
| Machine.EnigmaState.constructor | unigma.c:57-72 | a new state holds the standard wirings and notches, start setting A A A and an empty plugboard |
| Machine.EnigmaState.InitRotors | unigma.c:75-79 | the wiring table is copied entry by entry; the other fields are unchanged |
| Machine.EnigmaState.InitNotches | unigma.c:82-86 | the notch table is copied entry by entry; the other fields are unchanged |
| Machine.EnigmaState.InitPositions | unigma.c:89-93 | every rotor position is set to 0 |
| Machine.EnigmaState.InitPlugboard | unigma.c:96-100 | the plugboard is emptied; the other fields are unchanged |
| Machine.EnigmaState.SetRotorPositions | unigma.c:338-359 | the setting is accepted exactly when it is three letters of either case. Then the left, middle and right letters are stored, minus 'A', in positions 2, 1 and 0, and an all-uppercase setting gives positions in 0..25. A rejected setting changes nothing |
| Machine.EnigmaState.SetPlugboard | unigma.c:362-383 | a missing text empties the plugboard. A text of 256 characters or more is rejected and changes nothing. Otherwise the plugboard becomes the text with its lowercase letters uppercased |
| Machine.EnigmaState.StepRotors | unigma.c:163-175 | the positions become Stepped of the old positions, and positions in 0..25 stay in 0..25 |
| Machine.EnigmaState.ProcessChar | unigma.c:182-220 | the output character and the new positions are those of one Keystroke |
| Machine.EnigmaState.RunEnigma | unigma.c:178-222 | the output string and the final positions are those of Transcribe on the input |
| Machine.NewConfigured | unigma.c:57-72 | a new machine after `init_enigma` and an accepted `set_rotor_positions` and `set_plugboard` holds the standard tables, the setting's letters (minus 'A') in right, middle, left order, and the uppercased pair text |
| Machine.EncipherThenDecipher | unigma.c:178-222 | two machines get the same valid setting and the same disjoint pairs. The second, fed the first one's output, prints the first one's input uppercased; the ciphertext has the input's length |
| KnownAnswer.StandardFirstKeyEntries | unigma.c:20-25 | the seven wiring entries met by the first A from A A A are the standard tables' letters |
| KnownAnswer.FirstKeyInward | unigma.c:203-205 | from right B, middle A, left A, the index of A enters and the index of F reaches the reflector |
| KnownAnswer.FirstKeyOutward | unigma.c:208-213 | reflector B sends F to S, and the return pass brings S back as B |
| KnownAnswer.FirstStep | unigma.c:163-175 | from A A A only the right rotor moves |
| KnownAnswer.FirstKey | unigma.c:194-218 | with that path, A typed at A A A with an empty plugboard comes out as B and leaves the rotors at right B, middle A, left A |
| KnownAnswer.FirstKeyAtAAA | unigma.c:194-218 | with the standard rotors I-II-III and reflector B, the first A typed at A A A comes out as B |
| KnownAnswer.StandardOverlapKeyEntries | unigma.c:20-25 | the seven wiring entries met by B at right A, middle A, left J are the standard tables' letters |
| KnownAnswer.OverlapKeyInward | unigma.c:203-205 | at right A, middle A, left J, the index of B enters and the index of G reaches the reflector |
| KnownAnswer.OverlapKeyOutward | unigma.c:208-213 | reflector B sends G to L, and the return pass brings L back as C |
| KnownAnswer.OverlapKey | unigma.c:194-218 | with that path and the plugboard "AB AC", A typed at right Z, middle A, left J steps the rotors to right A and comes out as A |
| KnownAnswer.OverlappingPairsAllowFixedPoint | unigma.c:139-160 | the plugboard "AB AC", which the source accepts, lets a letter be enciphered as itself: with the standard tables at setting J A Z, A comes out as A |

## Left out

- `main`, `parse_arguments`, `interactive_config`, `print_usage` and
  `print_current_config` are left out. They parse arguments, prompt and print.
- `console_setup` is left out; it makes Windows console calls.
- `getchar`, `putchar` and `fflush` are not modelled. The key loop reads a
  string and returns the output string, and the end of the string stands for
  EOF.
- `exit(1)` in `set_rotor_positions` and `set_plugboard` is modelled as a
  `false` result with the state unchanged. The error messages on `stderr` are
  not modelled.
- A NULL argument is the `None` case of `Machine.Option`.
- The `SAFE_STRCPY` macro, `memset` and NUL terminators are not modelled.
  Wirings and the plugboard are sequences whose length plays the part of the
  terminator.
- Characters are Dafny `char`s rather than C `int`s read from a byte
  stream. Only the ASCII ranges of the letters matter to the code.
- Machine integers are unbounded. The C values stay far from `int` overflow.
- The `direction` flag of `encode_through_rotor` (0 or 1) is the
  `Rotors.Direction` datatype.
- The key loop reads a rotor's wiring directly instead of passing a table
  index.
- Plugboard.ApplyPlugboard: a malformed plugboard string (odd trailing
  letter, a leading space) is excluded by `Plugboard.WellFormed`. On an odd
  trailing letter the C scan reads past the terminator, which is undefined
  behaviour. Some other malformed strings have defined but odd behaviour:
  with " AB " the scan reads the pairs (' ', 'A') and ('B', ' '), so A and B
  both become a space.
- Plugboard.ApplyPlugboard: tabs, punctuation and three-letter tokens are
  also outside `Plugboard.WellFormed`, although `set_plugboard` stores any
  text shorter than 256 characters.
- Machine.EnigmaState.RunEnigma: requires a well-formed plugboard, for the
  same reason.
- Machine.EncipherThenDecipher: requires that no letter is plugged twice.
  That is what makes the machine self-reciprocal.
- Cipher.SignalPathNoFixedPoint: proved only when no letter is plugged
  twice. `set_plugboard` accepts overlapping pairs, and with them the law
  fails (`KnownAnswer.OverlappingPairsAllowFixedPoint`).
- Cipher.KeystrokeNoFixedPoint: the same restriction, for the same reason.
- Cipher.TranscribeNoFixedPoint: the same restriction, for the same reason.
- Cipher.SignalPathSelfReciprocal: proved only when no letter is plugged
  twice. Overlapping pairs break the plugboard's own involution
  (`Plugboard.OverlappingPairsBreakInvolution`).
- The double step happens once per 650 key presses from a given start. That
  count is not modelled. The rule behind it is proved (`Cipher.SteppingRules`,
  `Cipher.DoubleStepScenario`).
