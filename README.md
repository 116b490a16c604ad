# Inputmask validators: CNPJ, CPF and IPv4 octet

This project models, in Dafny, the three validator callbacks that the
Inputmask extensions file plugs into the masking engine:

- `cnpjValidator` and `cpfValidator` run when a `cnpj` or `cpf` mask is
  complete. They parse the unmasked value into digits, reject the wrong
  length (14 or 11) and degenerate input (fewer than two distinct digit
  values), then grow the payload without its two check digits in a
  `while` loop. Each round pushes the modulo-11 check digit of the weighted
  sum of the digits so far. The input is accepted when the grown array
  equals it.
- `ipValidator` runs on every keystroke of the `ip` mask. It builds a
  window from the incoming characters and up to two preceding buffer
  characters, stopping at a `.` and padding with `0`. It accepts when the
  window contains a match of `25[0-5]|2[0-4][0-9]|[01][0-9][0-9]`.

Layout:

- `checksum.dfy`, module `Checksum`: the two checksum validators as one
  algorithm parameterised by `Scheme` (`Cnpj` or `Cpf`). A scheme gives the
  size, the modulus and the per-index weight formula of its source function.
  `Validate` is the imperative loop, proved equal to the pure `Extend`-based
  verdict `Accepts`. The lemmas characterise acceptance, show the round
  trip of check-digit completion and show that degenerate input is rejected.
  They also prove detection of single-digit changes under a stated condition.
- `receita.dfy`, module `Receita`: the check-digit rules of the Receita
  Federal written as fixed weight tables and a dot product. This is an
  independent reference; its predicate `Valid` adds the validators' own
  uniqueness filter (not part of the published rule) to the table-based
  check digits. `CnpjValidator` and `CpfValidator` are proved to accept
  exactly what `Valid` admits. Worked examples: CPF 111.444.777-35
  and CNPJ 11.222.333/0001-81.
- `octet.dfy`, module `IpOctet`: the window, the regular expression as a
  predicate over three-character slices, and the validator. Lemmas relate
  the window to the octet typed so far and the verdict to the range 0..255.

The sums are non-negative, so Dafny's `%` agrees with JavaScript's
truncating `%` on every value the model computes.

## Notes on the source

- A non-digit character parses to `NaN`. `indexOf(NaN)` is -1, the
  weighted sum becomes `NaN`, and `JSON.stringify` prints `NaN` as `null` on
  both sides of the final comparison, so some non-digit input is accepted
  (for example `12345678901xyz` as a CNPJ). The model covers digit input.
- The CNPJ weight is `len - 7 - i`, plus 8 when that is below 2 (line 46
  of `lib/extensions/inputmask.extensions.js`). The CPF weight is
  `len + 1 - i` (line 73).
- `ipValidator`'s `RegExp.test` is unanchored. With more than one incoming
  character, the window `0999` is accepted on its slice `099`
  (`IpOctet.UnanchoredLongWindow`).

## Model

| member | source | states |
|---|---|---|
| `Checksum.Scheme.Weight` | lib/extensions/inputmask.extensions.js:46 | the CNPJ weight `len - 7 - i` (+8 below 2), and the CPF weight `len + 1 - i` of line 73; every index inside the payload gets a weight of at least 2 |
| `Checksum.CheckDigit` | lib/extensions/inputmask.extensions.js:49-53 | the pushed digit is 0 when the sum's remainder mod 11 is below 2; otherwise it is non-zero and makes sum + digit a multiple of 11 |
| `Checksum.Extend` | lib/extensions/inputmask.extensions.js:43-54 | growing the payload ends at exactly the scheme's size and leaves the original prefix untouched |
| `Checksum.PartialSum` | lib/extensions/inputmask.extensions.js:45-47 | the `reduce` accumulator after `k` elements; it is zero exactly when those digits are all zero (every weight is positive; same fold at lines 72-74) |
| `Checksum.WeightedSum` | lib/extensions/inputmask.extensions.js:45-47 | the sum `SUM` of the payload is zero exactly when every payload digit is zero |
| `Checksum.NextCheckDigit` | lib/extensions/inputmask.extensions.js:49-53 | the digit one round pushes is 0 when SUM mod 11 is below 2, otherwise non-zero and completing SUM to a multiple of 11 |
| `Checksum.FirstOccurrences` | lib/extensions/inputmask.extensions.js:39 | the `filter` over the first `k` elements keeps no value twice and keeps exactly the values among those elements |
| `Checksum.Distinct` | lib/extensions/inputmask.extensions.js:66 | the filtered array holds each value of the input exactly once |
| `Checksum.Accepts` | lib/extensions/inputmask.extensions.js:36-60 | the verdict; an accepted identifier has the scheme's length and is not degenerate |
| `Checksum.IndexOf` | lib/extensions/inputmask.extensions.js:39 | `indexOf` returns the first index holding the value, or -1 exactly when the value is absent |
| `Checksum.Validate` | lib/extensions/inputmask.extensions.js:35-61 | the length check, the uniqueness filter, the `while`/`push` loop and the final comparison compute `Accepts` (the same code shape is at lines 63-89) |
| `Checksum.ExtendFromPayload` | lib/extensions/inputmask.extensions.js:43-54 | from a payload two digits short, the loop appends exactly two digits: the first check digit, then the check digit of the payload extended by it |
| `Checksum.FirstOccurrencesGrow` | lib/extensions/inputmask.extensions.js:39 | filtering a longer prefix never yields fewer first occurrences |
| `Checksum.DistinctBelowTwoIffAllSame` | lib/extensions/inputmask.extensions.js:39 | the filtered array of first occurrences has fewer than 2 elements exactly when all digits are equal |
| `Checksum.AcceptsIff` | lib/extensions/inputmask.extensions.js:43-60 | accepted exactly when the length is right, the digits are not all equal, and the last two digits equal the check digits derived from the digits before each of them |
| `Checksum.DegenerateRejected` | lib/extensions/inputmask.extensions.js:36-41 | an identifier whose digits are all equal is rejected, whatever its check digits |
| `Checksum.CompletionAccepted` | lib/extensions/inputmask.extensions.js:43-60 | appending the derived check digits to a payload yields an accepted identifier exactly when the result is not degenerate, and always when the payload has two distinct digits |
| `Checksum.ZerosPassArithmeticButRejected` | lib/extensions/inputmask.extensions.js:64-68 | eleven zeros satisfy the check-digit arithmetic, yet the uniqueness check makes CPF reject them |
| `Checksum.WeightedSumUpdate` | lib/extensions/inputmask.extensions.js:45-47 | changing one digit changes the weighted sum by the difference times that index's weight |
| `Checksum.FirstRoundWeights` | lib/extensions/inputmask.extensions.js:73 | the weights of the first round (payload of 12 or 9 digits) lie in 2..10 |
| `Checksum.CheckDigitSeparates` | lib/extensions/inputmask.extensions.js:49-53 | on sums whose remainder is at least 2, sums with different remainders get different check digits |
| `Checksum.SingleErrorDetected` | lib/extensions/inputmask.extensions.js:43-60 | if an identifier is accepted and its first weighted sum has remainder at least 2 mod 11, every single-digit change is rejected |
| `Receita.CnpjWeightRange` | lib/extensions/inputmask.extensions.js:46 | for payloads of up to 16 digits the CNPJ weight lies in 2..9, and after weight 2 the next weight is 9 |
| `Receita.WeightTables` | lib/extensions/inputmask.extensions.js:73 | the formulas give the published tables: CNPJ 5,4,3,2,9,...,2 and 6,5,4,3,2,9,...,2 (line 46); CPF 10..2 and 11..2 |
| `Receita.WeightedSumIsDot` | lib/extensions/inputmask.extensions.js:45-47 | the `reduce` over the payload equals its dot product with the published weight table |
| `Receita.CheckDigitIsMod11Digit` | lib/extensions/inputmask.extensions.js:76-81 | the CPF digit rule (`CPF_SIZE - mod`) and the CNPJ rule (`11 - SUM % MOD`) are the published modulo-11 rule |
| `Receita.AcceptsIffValid` | lib/extensions/inputmask.extensions.js:43-60 | the validator accepts exactly the identifiers valid under the published tables and digit rule |
| `Receita.CnpjValidator` | lib/extensions/inputmask.extensions.js:35-61 | returns true exactly for 14 digits, not all equal, whose two check digits follow the CNPJ tables |
| `Receita.CpfValidator` | lib/extensions/inputmask.extensions.js:63-89 | returns true exactly for 11 digits, not all equal, whose two check digits follow the CPF tables |
| `Receita.SampleCpfAccepted` | lib/extensions/inputmask.extensions.js:70-88 | 111.444.777-35 is accepted; its first weighted sum is 162 |
| `Receita.SampleCnpjAccepted` | lib/extensions/inputmask.extensions.js:43-60 | 11.222.333/0001-81 is accepted |
| `Receita.SampleCpfOneDigitChanged` | lib/extensions/inputmask.extensions.js:70-88 | changing any one digit of 111.444.777-35 makes the validator reject it |
| `IpOctet.Window` | lib/extensions/inputmask.extensions.js:26-31 | the window is the incoming characters preceded by two characters, none of them a `.`; its length is that of the incoming characters plus 2 |
| `IpOctet.WindowIsPaddedOctet` | lib/extensions/inputmask.extensions.js:26-31 | the window is the last two characters of the octet typed so far (after the last `.` before `pos`), padded with `0`, then the incoming characters |
| `IpOctet.PatternIffAtMost255` | lib/extensions/inputmask.extensions.js:32 | a three-digit window matches the pattern exactly when its value is at most 255 |
| `IpOctet.IpValidator` | lib/extensions/inputmask.extensions.js:25-33 | the verdict is the pattern test on the window; for one incoming digit, with only digits and `.` before `pos`, the window is three digits and the validator accepts exactly when its value is at most 255 |
| `IpOctet.MatchesAt` | lib/extensions/inputmask.extensions.js:32 | one alternative of `25[0-5]\|2[0-4][0-9]\|[01][0-9][0-9]` at index `k`; every match is three digits starting with 0, 1 or 2 |
| `IpOctet.PatternFound` | lib/extensions/inputmask.extensions.js:32 | the unanchored test: a string shorter than 3 never matches, and on exactly 3 characters the test is a match of the whole string |
| `IpOctet.FirstDigitAccepted` | lib/extensions/inputmask.extensions.js:31 | at the buffer start or right after a `.`, any single digit is accepted (window `00d`) |
| `IpOctet.Typing256Rejected` | lib/extensions/inputmask.extensions.js:25-33 | after `25`, typing `6` builds the window `256`, which is rejected |
| `IpOctet.ShortOctetsAccepted` | lib/extensions/inputmask.extensions.js:26-32 | `9` after `1` builds `019`, and `3` after `.` builds `003`; both are accepted |
| `IpOctet.UnanchoredLongWindow` | lib/extensions/inputmask.extensions.js:32 | the unanchored test accepts the window `0999` on its slice `099` |

## Left out

- Non-digit input to the checksum validators is not modelled. `parseInt` gives `NaN`, which `indexOf` never finds, which makes the sum `NaN`, and which `JSON.stringify` prints as `null`. The model takes the parsed digits (`seq<Digit>`), which is what the `99...` masks feed in.
- The `extendDefinitions` character classes (`A`, `&`, `#`) and the regex and mask strings of the `cssunit`, `url`, `email`, `mac` and `vin` aliases are left out. They are declarative data read by the masking engine, which is not part of this model.
- The `email` alias's `onBeforePaste` lowercasing and `mailto:` stripping are left out. They depend on JavaScript's Unicode `toLowerCase`.
- The `oncomplete` handlers of `cnpj` and `cpf` are left out. They read the unmasked value from the DOM and clear the field when the validator returns false.
- Alias registration is left out, including the `cpf` alias nested inside the `cnpj` alias object.
- General regular-expression matching is left out. The one fixed pattern is a predicate over three-character slices.
- IpOctet.Window: requires `pos <= |buffer|`. Past the end of the buffer, JavaScript would read `undefined` and prepend the text "undefined". The model assumes the caller passes a position within the buffer; the code that calls the validator is not part of this model.
- IpOctet.Window: the buffer is a sequence of characters. The `strict` and `opts` arguments and the rest of `maskset` are unused by the source and are omitted.
