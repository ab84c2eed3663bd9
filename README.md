# Medication logger: adherence report and patient roster

This project models the two screens of the medication logger dashboard that hold real logic.

- **Adherence report** (`app/reports/page.tsx`). It computes four overview figures from the per-patient adherence records. They are the patient count, the mean adherence rate rounded with `Math.round`, the total scheduled doses and the total missed doses. It also maps each patient's rate to a badge variant and a status label in three tiers: Excellent, Good and Needs Attention. Medications get a separate two-tier badge. Each week after the first gets an up or down arrow against the week before. All of this is pure and lives in module `Reports`.
- **Patient roster** (`app/patients/page.tsx`). The search box filters the roster by a case-insensitive substring match on name or e-mail. This is the pure function `Roster.Filter`. The page state is the class `Roster.PatientsPage`. It holds the roster, the search term, the add-patient form and the dialog flag. Its `AddPatient` method models `handleAddPatient`. That handler appends a record built from the form with id = roster length + 1. It parses the age with `parseInt`, splits the conditions text on commas and trims each label. It sets active medications to 0, clears the form and closes the dialog.
- **JavaScript string built-ins** (module `JsStrings`). The page depends on `toLowerCase`, `includes`, `trim`, `split` and `Number.parseInt`. Each is modelled on `seq<char>` as ECMAScript defines it, with the limits listed below.

Numbers are mathematical integers. `Math.round(sum / n)` is computed exactly, without floating point, as `(2 * sum + n) / (2 * n)` with floor division. JavaScript's `NaN` becomes `None`. This covers the average of an empty list and a `parseInt` that finds no digits.

The model follows the code in two places where a careful registration form might be expected to behave differently:
- An empty conditions field yields one blank label `[""]`, not an empty list. This is what `"".split(",")` gives (`EmptyConditions`).
- The new id is the roster length + 1, not the largest id + 1. The page only ever appends and starts from ids 1, 2, 3, so the ids stay exactly 1..n. That is the class invariant `PatientsPage.Valid`, and under it the new id is always unused (`NextIdIsFresh`). `LengthIdCanRepeat` shows that a roster whose ids are not 1..n can receive a duplicate id.

## Model

| member | source | states |
|---|---|---|
| `Reports.Summarize` | app/reports/page.tsx:40-45 | `totalPatients` is the number of records; the average is absent (NaN) exactly when the list is empty |
| `Reports.RoundHalfUp` | app/reports/page.tsx:42 | the result r of `Math.round(num/den)` satisfies den(2r-1) <= 2num < den(2r+1): it is within one half of the quotient, and halves round up |
| `Reports.AverageIsRoundedMean` | app/reports/page.tsx:42 | for a non-empty list, `averageAdherence` is the mean of the rates rounded half up |
| `Reports.Sum` | app/reports/page.tsx:42-44 | the `reduce` fold from the left; what it adds up to is stated by `SumFromFront`, `SumBounds` and `SumMonotone` |
| `Reports.SumFromFront` | app/reports/page.tsx:42-44 | the fold from the left equals the fold from the right: the first value plus the sum of the rest |
| `Reports.SumBounds` | app/reports/page.tsx:42-44 | a `reduce` sum of n values, each in [lo, hi], lies in [n*lo, n*hi] |
| `Reports.SumMonotone` | app/reports/page.tsx:43-44 | a field that is pointwise no larger gives a `reduce` sum that is no larger |
| `Reports.AverageWithinBounds` | app/reports/page.tsx:42 | when every rate lies in [lo, hi], the rounded average also lies in [lo, hi] |
| `Reports.MissedAtMostScheduled` | app/reports/page.tsx:43-44 | if no record misses more doses than it schedules, `totalMissed` <= `totalMedications` |
| `Reports.SampleOverview` | app/reports/page.tsx:13-45 | the report's own records give 5 patients, average 90 (from 89.8), 210 doses and 20 missed |
| `Reports.SampleTalliesConsistent` | app/reports/page.tsx:13-19 | in each sample record, taken + missed = totalMeds, and the rate is 100*taken/totalMeds rounded |
| `Reports.PatientVariant` | app/reports/page.tsx:152-158 | patient badge: default exactly for rate >= 90, secondary exactly for 80 <= rate < 90, destructive exactly below 80 |
| `Reports.StatusLabel` | app/reports/page.tsx:274-278 | status label: "Excellent" exactly for rate >= 90, "Good" exactly for 80 <= rate < 90, "Needs Attention" exactly below 80 |
| `Reports.MedicationVariant` | app/reports/page.tsx:189 | medication badge: never destructive, and default exactly for rate >= 90 |
| `Reports.VariantMatchesLabel` | app/reports/page.tsx:265-279 | the badge variant and the status label always name the same tier (default/Excellent, secondary/Good, destructive/Needs Attention) |
| `Reports.TierMonotone` | app/reports/page.tsx:151-189 | a higher rate never gets a worse tier, for both the patient rule and the medication rule |
| `Reports.TierBoundaries` | app/reports/page.tsx:274-278 | 90 is Excellent, 89 and 80 are Good, 79 is Needs Attention |
| `Reports.SampleMedicationBadges` | app/reports/page.tsx:21-27 | the sample medications at 89, 94, 87, 91 and 96 per cent get the badges secondary, default, secondary, default, default |
| `Reports.MedicationRuleVersusPatientRule` | app/reports/page.tsx:189 | the medication badge agrees with the patient badge exactly when rate >= 80 |
| `Reports.TrendArrow` | app/reports/page.tsx:216-222 | week 0 has no arrow; a later week has Up exactly when its rate is strictly above the previous week's rate, and Down otherwise, a tie included |
| `Reports.TrendArrows` | app/reports/page.tsx:211-227 | one arrow slot per week: none for the first week, then Up exactly on a strict rise and Down exactly otherwise, a tie included |
| `Reports.RisingStepsRise` | app/reports/page.tsx:216-222 | week-over-week rises make the whole sequence strictly rising |
| `Reports.AllUpIffStrictlyRising` | app/reports/page.tsx:216-222 | every arrow is Up exactly when the weekly rates rise strictly throughout |
| `Reports.SampleArrows` | app/reports/page.tsx:29-34 | weeks 88, 91, 89, 93 give no arrow, then up, down, up |
| `Roster.Matches` | app/patients/page.tsx:86-88 | the empty term matches every patient; a match needs the term to be no longer than the name or the e-mail. `MatchesIffOccurs` gives the exact condition |
| `Roster.Filter` | app/patients/page.tsx:85-89 | a patient is in the result exactly when it is in the roster and its lower-cased name or e-mail includes the lower-cased term; the result is never longer than the roster |
| `Roster.MatchingPositions` | app/patients/page.tsx:85-89 | the roster positions of the matching patients, strictly increasing, each in range, and containing exactly the positions that match |
| `Roster.FilterSelectsInOrder` | app/patients/page.tsx:85-89 | the filter result is the roster read at the matching positions, so it is a subsequence in the original order |
| `Roster.FilterKeepsAllMatching` | app/patients/page.tsx:85-89 | a list in which every patient matches passes the filter unchanged |
| `Roster.FilterIdempotent` | app/patients/page.tsx:85-89 | filtering the result again with the same term changes nothing |
| `Roster.FilterEmptyTerm` | app/patients/page.tsx:85-89 | an empty search term shows the whole roster |
| `Roster.FilterEmptyIffNoMatch` | app/patients/page.tsx:328-334 | the result is empty, which shows the "No patients found" state, exactly when no patient matches; it is a normal result, not an error |
| `Roster.FilterIgnoresTermCase` | app/patients/page.tsx:87-88 | the lower-cased term selects the same patients as the term as typed |
| `Roster.FilterSameForCaseVariants` | app/patients/page.tsx:87-88 | two search terms that differ only in the case of ASCII letters select the same patients |
| `Roster.MatchesIffOccurs` | app/patients/page.tsx:86-88 | a patient matches exactly when the lower-cased term occurs at some position of the lower-cased name or e-mail |
| `Roster.Draft.With` | app/patients/page.tsx:157-229 | editing one form field sets that field and leaves the other eight as they were |
| `Roster.ConditionLabels` | app/patients/page.tsx:96 | there is one more label than there are commas; label k is the k-th comma-separated piece of the text with white space trimmed, so it has no comma and no white space at either end |
| `Roster.EmptyConditions` | app/patients/page.tsx:96 | an empty conditions field yields one blank label |
| `Roster.ConditionLabelsOfPaddedJoin` | app/patients/page.tsx:96 | comma-free labels typed with white space around them (possibly none) and commas between them are read back as the bare labels, e.g. " a , b " gives "a" and "b", and "a,b" gives them too |
| `Roster.FromDraft` | app/patients/page.tsx:92-99 | the new record has the given id, the form's seven text fields copied, 0 active medications and the given date. Its age is `ParseInt` of the age text, so a number only if that text has a digit. Its conditions are `ConditionLabels` of the conditions text, one more label than there are commas |
| `Roster.FromDraftReadsAge` | app/patients/page.tsx:95 | an age typed as a decimal numeral, with or without leading white space, is recorded as that number |
| `Roster.UntouchedFormRecord` | app/patients/page.tsx:94-96 | submitting the untouched form records a NaN age and one blank condition |
| `Roster.NextIdIsFresh` | app/patients/page.tsx:93 | when ids are 1..n they are pairwise distinct, n + 1 is unused, and appending the record with id n + 1 keeps ids 1..n+1 |
| `Roster.LengthIdCanRepeat` | app/patients/page.tsx:93 | on a roster whose ids are not 1..n, the length-based id can equal one already in use |
| `Roster.MockPatientsSequential` | app/patients/page.tsx:24-67 | the initial roster has ids 1, 2, 3 |
| `Roster.PatientsPage.constructor` | app/patients/page.tsx:70-83 | the page starts with the sample roster, an empty search term, an empty form and the dialog closed; the id invariant holds |
| `Roster.PatientsPage.FilteredPatients` | app/patients/page.tsx:85-89 | the cards shown are exactly the roster patients that match the current search term |
| `Roster.PatientsPage.SetSearchTerm` | app/patients/page.tsx:250 | typing in the search box replaces the term and nothing else |
| `Roster.PatientsPage.EditDraft` | app/patients/page.tsx:157-229 | typing in a form field replaces that field of the form and nothing else |
| `Roster.PatientsPage.SetAddDialogOpen` | app/patients/page.tsx:139 | opening or cancelling the dialog sets the flag and nothing else |
| `Roster.PatientsPage.AddPatient` | app/patients/page.tsx:91-113 | the roster becomes the old roster plus one last record. That record has id = old length + 1, the form's seven text fields copied verbatim, the age parsed by `parseInt`, the trimmed comma-separated conditions, 0 active medications and the given date. The form is reset to all "", the dialog is closed, the search term is kept, and the ids stay 1..n |
| `JsStrings.ToLower` | app/patients/page.tsx:87-88 | same length; each upper-case ASCII letter becomes the matching lower-case letter; every other character is unchanged |
| `JsStrings.ToLowerIdempotent` | app/patients/page.tsx:87-88 | lower-casing twice is the same as lower-casing once |
| `JsStrings.Includes` | app/patients/page.tsx:87-88 | a string never includes a longer needle, and includes one of its own length exactly when the two are equal. `IncludesIffOccurs` gives the exact condition |
| `JsStrings.IncludesIffOccurs` | app/patients/page.tsx:87-88 | `includes` holds exactly when the needle occurs at some position of the string |
| `JsStrings.IncludesEmpty` | app/patients/page.tsx:87-88 | every string includes the empty string |
| `JsStrings.LeadingSpace` | app/patients/page.tsx:95-96 | counts exactly the white space at the front: all counted characters are white space, and the next one is not |
| `JsStrings.TrailingSpace` | app/patients/page.tsx:96 | counts exactly the white space at the back |
| `JsStrings.Trim` | app/patients/page.tsx:96 | the result is a contiguous middle part of the input with only white space cut off either side, and neither end of it is white space |
| `JsStrings.TrimPadded` | app/patients/page.tsx:96 | trimming white space around an already trimmed string gives that string back |
| `JsStrings.TrimIdempotent` | app/patients/page.tsx:96 | trimming twice is the same as trimming once |
| `JsStrings.Split` | app/patients/page.tsx:96 | `split` gives one more piece than there are separators, and no piece contains the separator |
| `JsStrings.JoinSplit` | app/patients/page.tsx:96 | joining the pieces of a split with the same separator restores the text |
| `JsStrings.SplitJoin` | app/patients/page.tsx:96 | splitting a join of separator-free pieces gives the pieces back |
| `JsStrings.DigitRun` | app/patients/page.tsx:95 | `parseInt` reads the longest prefix made of digits |
| `JsStrings.Decimal` | app/patients/page.tsx:95 | a decimal numeral is non-empty, all digits, and has no leading zero |
| `JsStrings.DecimalValue` | app/patients/page.tsx:95 | a decimal numeral denotes the number it was written from |
| `JsStrings.ParseInt` | app/patients/page.tsx:95 | `parseInt` gives a number only if the text has a decimal digit, and a negative number only if the text has a '-'. The value read is stated by `ParseIntOfDigits` and `ParseIntOfHex` |
| `JsStrings.ParseSigned` | app/patients/page.tsx:95 | after the white space, a number needs a digit first or a sign followed by a digit; a negative result needs a leading '-'. `SignedMagnitude` gives the value as the sign times the magnitude |
| `JsStrings.ParseMagnitude` | app/patients/page.tsx:95 | a number needs a leading decimal digit. After "0x" or "0X" a number is read exactly when a hexadecimal digit follows; otherwise a leading decimal digit always gives a number. `MagnitudeOfDigits` and `MagnitudeOfHexDigits` give the value |
| `JsStrings.MagnitudeOfDigits` | app/patients/page.tsx:95 | a run of decimal digits, leading zeros included, is read as the number it denotes, up to the first non-digit |
| `JsStrings.MagnitudeOfHexDigits` | app/patients/page.tsx:95 | after "0x" or "0X", a run of hexadecimal digits is read in radix 16 |
| `JsStrings.SignedMagnitude` | app/patients/page.tsx:95 | a '-' in front negates the magnitude; a '+' or no sign keeps it |
| `JsStrings.SkipSpaceBeforeSign` | app/patients/page.tsx:95 | white space before an optional sign and a leading digit is skipped |
| `JsStrings.ParseIntOfMagnitude` | app/patients/page.tsx:95 | after white space and an optional sign, `parseInt` gives the magnitude read there, negated after '-' |
| `JsStrings.ParseIntOfDigits` | app/patients/page.tsx:95 | any run of decimal digits after white space and an optional sign is read as the signed number it denotes, leading zeros and a '+' included |
| `JsStrings.ParseIntOfHex` | app/patients/page.tsx:95 | "0x" or "0X" and hexadecimal digits after white space and an optional sign are read as the signed radix-16 number |
| `JsStrings.SampleSignedParse` | app/patients/page.tsx:95 | "+5" is read as 5 |
| `JsStrings.SampleZeroPaddedParse` | app/patients/page.tsx:95 | " 007" is read as 7 |
| `JsStrings.SampleHexParse` | app/patients/page.tsx:95 | "0x1A" is read as 26 |
| `JsStrings.ParseIntSkipsSpace` | app/patients/page.tsx:95 | leading white space does not change what `parseInt` reads |
| `JsStrings.ParseIntOfNumeral` | app/patients/page.tsx:95 | `parseInt` reads back any integer written in decimal. Leading white space is skipped and reading stops at the first non-digit, except that "0" followed by "x" or "X" switches to hexadecimal |
| `JsStrings.ParseIntWithoutDigits` | app/patients/page.tsx:95 | with no digit after the optional white space and sign, `parseInt` gives NaN (`None`). This includes white space between the sign and the digits, as in "- 5" |

## Left out

- The page layout: cards, tables, `Progress` bars, icons, `Link` navigation, and the `Dialog` and `Select` widgets. They only display the values modelled here.
- `lastVisit` reads the clock through `new Date().toISOString()`. `AddPatient` takes the date string as the parameter `today`.
- Strings are sequences of characters. ECMAScript strings are sequences of UTF-16 code units, so a lone surrogate, which they can hold, cannot be represented here.
- `toLowerCase` is modelled for the ASCII letters A-Z only. Unicode case mapping is not modelled, because it needs the full Unicode case tables.
- `trim` and `parseInt` use the ECMAScript white-space set, with the Zs characters listed explicitly. A later Unicode version that adds Zs characters is not tracked.
- `ParseIntOfNumeral`: it reads back every integer exactly. The JavaScript result is a double, so it rounds magnitudes above 2^53, and it yields `-0` for "-0". Neither effect is modelled.
- `Reports.RoundHalfUp`: the rates are modelled as integers, as all the report data are. For non-integer rates `Math.round` works on floating-point quotients, which is not modelled.
- Counts and sums are unbounded integers. JavaScript numbers lose precision past 2^53, far beyond any roster or dose count.
- `Reports.Summarize`: its contract gives the patient count and when the average is absent. The meaning of the average and of the totals is stated by `AverageIsRoundedMean`, `AverageWithinBounds`, `MissedAtMostScheduled` and `SampleOverview`.
- `selectedPeriod` and `selectedPatient` in the report page are not modelled. They are widget state that never feeds a computation.
- The Export, Edit and Trash buttons are not modelled, because they have no handlers.
- The medication statistics and weekly trends are modelled as constant data with their badge and arrow rules. The list rendering around them is not.
- app/page.tsx is not part of this model. Its counters are literals shown unchanged, and its adherence rate is not derived from them.
