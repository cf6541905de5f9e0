# Expense tracker ledger, in Dafny

A model of the transaction ledger at the heart of the `ExpenseTracker` React component
(`src/App.jsx`). That ledger has four parts:

- the five `useState` cells: the list of records, the description and amount fields, the selected type and the error message;
- the three figures derived from the list on every render: total income, total expenses and balance;
- `handleAdd`, which validates the form and puts a new record at the front of the list;
- `handleDelete`, which drops the records with a given id.

Modules:

- `Wrappers` holds `Option` and `Result`.
- `Text` models `String.prototype.trim`, using the ECMAScript white-space and line-terminator set.
- `Numbers` models the global `parseFloat` on the decimal grammar:
  - leading white space is skipped;
  - then an optional sign, integer digits, an optional fraction and an optional exponent;
  - the longest numeric prefix is read;
  - NaN becomes `None`.
- `Ledger` holds the records, the filter/sum aggregates, prepend and removal, and their laws.
- `Tracker` holds the component:
  - a class whose fields are the five state cells;
  - `Add` (`handleAdd`) and `Delete` (`handleDelete`);
  - `Validate`, the pure function that says what a submission yields;
  - lemmas about submissions and a short session.

Amounts are exact `real`s. Ids are `int`s. The clock reading `Date.now()` is the `now` parameter of `Add`.

Ids come from the clock (`Date.now()`), so two records added in the same millisecond share one. The model
follows that:

- `Delete` removes every record carrying the id.
- `Ledger.PrependUnique` states exactly when an added record keeps the ids distinct: its id must not be in the list yet.
- `Ledger.RemoveOne` states that, with distinct ids, one record goes.

The check `!amount` in `handleAdd` never decides anything on its own: an empty text has no digit, so `parseFloat`
already gives NaN for it. `Validate` keeps the check, and its contract shows that the outcome is determined by
the trimmed description and the parsed amount alone.

## Model

| member | source | states |
|---|---|---|
| Text.IsSpace | src/App.jsx:21 | the white-space and line-terminator characters trim removes; specified by TrimDropsOnlySpace and TrimEmptyIff |
| Text.Trim | src/App.jsx:21 | the trimmed text is no longer than the input and neither starts nor ends with white space |
| Text.TrimDropsOnlySpace | src/App.jsx:21 | everything trim removes, before and after the kept text, is white space |
| Text.TrimEmptyIff | src/App.jsx:21 | `description.trim()` is empty exactly when the description is all white space (both directions) |
| Text.TrimmedIff | src/App.jsx:27 | a text is its own trimmed form exactly when it neither starts nor ends with white space |
| Text.TrimIdempotent | src/App.jsx:27 | trimming a stored, already trimmed description changes nothing |
| Text.SkipSpacesSkipsSpace | src/App.jsx:21 | the leading part skipped by trim and by parseFloat is all white space |
| Text.SkipSpacesTo | src/App.jsx:21-22 | the white-space scan stops exactly at the first character that is not white space |
| Text.BackSpacesSkipsSpace | src/App.jsx:21 | the trailing part cut by trim is all white space |
| Numbers.ParseFloat | src/App.jsx:22 | parseFloat on the amount text. Its lemmas state it on these shapes: digits followed by other text (ParseDigits), numerals (ParseNatText), "whole.fraction" followed by other text (ParseDecimal), digits with an exponent (ParseExponent), digits after white space and a sign (ParseSigned), text whose first non-space character is `-` (MinusNeverPositive) and text without a digit (NoDigitNoNumber). No lemma states an exponent after a fraction, or white space or a sign in front of a fraction |
| Numbers.NatText | src/App.jsx:22 | the numeral of a natural number is a non-empty digit string denoting that number |
| Numbers.ParseDigits | src/App.jsx:22 | parseFloat reads a digit run followed by non-numeric text as the number the digits denote (longest prefix) |
| Numbers.ParseNatText | src/App.jsx:22 | parseFloat of the numeral of n is n, for every natural n |
| Numbers.ParseDecimal | src/App.jsx:22 | parseFloat of "whole.fraction", followed by text that does not continue the number (as in "5.5kg"), is the whole part plus the fraction's value |
| Numbers.ParseExponent | src/App.jsx:22 | parseFloat of digits, `e` or `E`, an optional sign and exponent digits ("1e3", "25E-1") is the digits' value times ten to the signed exponent |
| Numbers.ParseSigned | src/App.jsx:22 | parseFloat skips leading white space; a `+` in front of digits changes nothing and a `-` negates (" 5", "+5", "-5") |
| Numbers.ExponentDigits | src/App.jsx:22 | an exponent marker followed by an optional sign and digits to the end is read as that signed number |
| Numbers.UnsignedExponent | src/App.jsx:22 | digits up to an exponent marker are scaled by the exponent read there |
| Numbers.UnsignedTrailingDigits | src/App.jsx:22 | digits running to the end of the text are read as their value |
| Numbers.UnsignedDigits | src/App.jsx:22 | the unsigned grammar reads a digit run without point or exponent as its value |
| Numbers.UnsignedDecimal | src/App.jsx:22 | the unsigned grammar reads "whole.fraction", followed by text that does not continue the number, as its decimal value |
| Numbers.FloatIsUnsigned | src/App.jsx:22 | text starting with neither white space nor a sign is read by the unsigned grammar |
| Numbers.SkipDigitsTo | src/App.jsx:22 | the digit scan stops exactly at the first non-digit |
| Numbers.FractionBounds | src/App.jsx:22 | the digits after the point are worth between 0 and 1 |
| Numbers.ScaleKeepsSign | src/App.jsx:22 | scaling by a power of ten keeps a positive value positive, a negative one negative and zero zero |
| Numbers.UnsignedNonNegative | src/App.jsx:22 | a number read without its sign is never negative |
| Numbers.MinusNeverPositive | src/App.jsx:22-23 | text whose first non-space character is '-' never parses to a positive number |
| Numbers.UnsignedNeedsDigit | src/App.jsx:22-23 | without a digit there is no unsigned number |
| Numbers.NoDigitNoNumber | src/App.jsx:22-23 | text without a digit (the empty amount included) parses to NaN |
| Ledger.WellFormed | src/App.jsx:21-27 | what admission guarantees of a record: positive amount, non-empty trimmed description; produced by Tracker.Validate |
| Ledger.LedgerValid | src/App.jsx:4 | every record in the list is well formed; kept by PrependValid and RemovePreserves |
| Ledger.Filter | src/App.jsx:10-16 | `Array.prototype.filter` by type or by id; specified by FilterMembers, FilterConcat, FilterKeepsAll and FilterIdempotent |
| Ledger.Sum | src/App.jsx:12 | the `reduce` sum of the amounts from the first record to the last; specified by SumConcat and SumOfPositives |
| Ledger.TotalIncome | src/App.jsx:10-12 | `totalIncome`; specified by PrependTotals, TotalsPartitionSum and TotalsNonNegative |
| Ledger.TotalExpenses | src/App.jsx:14-16 | `totalExpenses`; specified by PrependTotals, TotalsPartitionSum and TotalsNonNegative |
| Ledger.Balance | src/App.jsx:18 | `balance`; specified by BalanceIsSignedSum against the one-pass signed sum |
| Ledger.FilterMembers | src/App.jsx:10-16 | `filter` keeps exactly the records that pass, adds none and never grows the list |
| Ledger.FilterConcat | src/App.jsx:10-16 | filtering a concatenation filters the parts and keeps their order |
| Ledger.FilterKeepsAll | src/App.jsx:34-36 | a filter every record passes returns the list unchanged |
| Ledger.FilterIdempotent | src/App.jsx:34-36 | filtering twice by the same test is filtering once |
| Ledger.SumConcat | src/App.jsx:12 | the `reduce` sum of a concatenation is the sum of its parts |
| Ledger.SumOfPositives | src/App.jsx:12 | positive amounts sum to a non-negative total, positive when there is one |
| Ledger.PrependKindSum | src/App.jsx:10-16 | a record in front adds its amount to the total of its own type and nothing to the other |
| Ledger.PrependTotals | src/App.jsx:10-16 | adding an income raises total income by its amount and leaves expenses alone, and vice versa |
| Ledger.BalanceIsSignedSum | src/App.jsx:18 | the balance equals the one-pass sum of incomes minus expenses, an independent definition |
| Ledger.TotalsPartitionSum | src/App.jsx:10-16 | total income plus total expenses is the sum of all amounts: every record is one of the two types |
| Ledger.TotalsNonNegative | src/App.jsx:10-16 | on a ledger of admitted records both totals are non-negative |
| Ledger.Prepend | src/App.jsx:26-29 | the new record is first and the previous list follows unchanged |
| Ledger.PrependValid | src/App.jsx:26-29 | putting a well-formed record in front keeps every record well formed |
| Ledger.PrependUnique | src/App.jsx:27 | with distinct ids, the new record keeps them distinct exactly when its id is not in the list yet |
| Ledger.Remove | src/App.jsx:35 | `prev.filter((t) => t.id !== id)`; specified by RemoveMembers, RemoveConcat, RemoveAbsent, RemoveIdempotent, RemoveOne and RemoveUndoesPrepend |
| Ledger.RemoveMembers | src/App.jsx:34-36 | after removal a record is present exactly when it was there and has another id |
| Ledger.RemoveConcat | src/App.jsx:34-36 | removal works record by record, so the kept records stay in their order |
| Ledger.RemoveAbsent | src/App.jsx:34-36 | removing an id no record carries leaves the list unchanged |
| Ledger.RemoveIdempotent | src/App.jsx:34-36 | deleting the same id twice is deleting it once |
| Ledger.RemovePreserves | src/App.jsx:34-36 | removal keeps the ledger well formed and its ids distinct |
| Ledger.RemoveOne | src/App.jsx:34-36 | with distinct ids, deleting a present id shortens the list by exactly one |
| Ledger.RemoveUndoesPrepend | src/App.jsx:26-36 | deleting a record just added under a fresh id restores the previous list |
| Tracker.PositiveAmountText | src/App.jsx:22-24 | the amount test: parseFloat reads a number greater than zero; its refusals are NoDigitRefused and NegativeRefused |
| Tracker.Validate | src/App.jsx:21-27 | an empty trimmed description fails first, whatever the amount; otherwise a non-positive or NaN amount fails; success exactly when both pass, with a well-formed record carrying the id, the type, the trimmed description and the parsed amount |
| Tracker.ExpenseTracker.constructor | src/App.jsx:4-8 | the initial state: no records, empty fields, Income selected, no message |
| Tracker.ExpenseTracker.Valid | src/App.jsx:4 | the class invariant: the list holds only well-formed records; established by the constructor and kept by Add and Delete |
| Tracker.ExpenseTracker.Add | src/App.jsx:20-32 | on failure only the message changes; on success the record goes in front, the message is cleared, the two fields are emptied, and the type is unchanged; the ledger stays well formed |
| Tracker.ExpenseTracker.Delete | src/App.jsx:34-36 | the list loses exactly the records with the id, in order; nothing else changes; an absent id is a no-op; the ledger stays well formed |
| Tracker.AdmitsClean | src/App.jsx:21-27 | a trimmed, non-empty description with a positive parsed amount is admitted as typed |
| Tracker.AdmitsWhole | src/App.jsx:21-27 | a positive whole amount typed as its numeral ("1000") is admitted with that value |
| Tracker.AdmitsDecimal | src/App.jsx:21-27 | an amount "whole.fraction" ("4.5") with a positive value is admitted with that value |
| Tracker.BlankDescriptionRefused | src/App.jsx:21 | a blank description is refused with "Description is required." whatever the amount |
| Tracker.NoDigitRefused | src/App.jsx:22-24 | an amount without a digit ("", "abc") is refused with "Enter a positive amount." |
| Tracker.NegativeRefused | src/App.jsx:22-24 | an amount with a leading minus ("-5") is refused with "Enter a positive amount." |
| Tracker.SalaryFigures | src/App.jsx:10-18 | after a salary of 1000 the figures are income 1000, expenses 0, balance 1000 |
| Tracker.SessionFigures | src/App.jsx:10-18 | with a coffee of 4.5 in front, they are income 1000, expenses 4.5, balance 995.5 |
| Tracker.SessionDelete | src/App.jsx:34-36 | deleting the coffee leaves the salary alone, with income 1000 and expenses 0 |

## Left out

- Rendering is not modelled: the JSX, styles, the list markup, the empty-list message, and `fmt` with its two-decimal `toLocaleString` grouping.
- The `onChange` handlers that copy the inputs into `description`, `amount` and `type` are not modelled as operations. The class fields stand for whatever the user typed or selected.
- `useCallback` and React's update scheduling are not modelled. Each handler runs to completion as one method call, and the functional updater `prev => …` sees the current list, because nothing runs concurrently.
- `Date.now()` is the `now` parameter of `Add`. Nothing is assumed about its value, so ids may repeat, as they can in the code.
- Numbers.ParseFloat: does not model IEEE-754 doubles. Values are exact reals, so there is no rounding in sums, no overflow of large exponents to Infinity and no underflow of tiny ones to 0.
- Numbers.ParseFloat: does not read the text "Infinity". JavaScript reads it as an infinite number, which `handleAdd` would admit; the model gives NaN (`None`).
- Tracker.ExpenseTracker.Add: its contract states the new list rather than the new totals. The change to the totals is stated on lists by `Ledger.PrependTotals`.
- Tracker.SalaryFigures, Tracker.SessionFigures and Tracker.SessionDelete: they state the session's figures on lists of records given by their amounts and types. They do not run the session through `Add` on literal form texts. The parsing of such texts is stated for all inputs by `Tracker.AdmitsWhole` and `Tracker.AdmitsDecimal`.
