# Field-service app core: invoice numbering and the create actions

This project is a Dafny model of the three pieces of pure, sequential logic in a
small field-service management application.

- **Invoice-number allocation** (`generateInvoiceNumber`). Numbers look like
  `INV-2026-0001`. The allocator takes the most recent number of the current
  year and cuts off the `INV-<year>-` prefix. It reads the rest with
  `Number.parseInt(…, 10)` and adds one. It writes the result with `String`,
  left-padded with `'0'` to at least four characters. When there is no
  previous number, or no digit follows the suffix's optional white space and
  sign, the result is `0001`.
- **`createJob`**. It reads six form fields; an absent field reads as `""`
  and every value is trimmed. It rejects a missing client id, title or
  assignee, in that order. It then rejects an unknown client or user, again
  in that order. Otherwise it builds a `SCHEDULED` job. An empty description
  or date is stored as null.
- **`createClient`**. It reads six fields the same way and rejects only a
  missing name. Otherwise it builds an `ACTIVE` client, with every empty
  optional field stored as null.

The modules follow the program's structure:

- `Wrappers`: `Option` and `Result`.
- `JsString`: the JavaScript `trim`, `padStart` and `slice` that the code relies on.
- `JsNumber`: `parseInt` with radix 10, and `String` of an integer.
- `InvoiceNumber`: the allocator.
- `Forms`: how a form field is read.
- `JobActions` and `ClientActions`: the two actions.

Effects become inputs:

- The clock becomes `year`.
- The store lookup becomes `latest: Option<string>`.
- The two existence lookups of `createJob` become sets of known ids.
- The record `create` would write becomes the `Success` value.
- An error that would be thrown becomes the `Failure` value. A failure carries
  no record, so nothing is written on failure.

## Model

| member | source | states |
|---|---|---|
| InvoiceNumber.NextInvoiceNumber | lib/invoiceNumber.ts:8-23 | Every number starts with `INV-<year>-` and has at least four characters after it. With no latest number (or an empty one) the result is exactly `INV-<year>-0001`. |
| InvoiceNumber.Prefix | lib/invoiceNumber.ts:9 | The prefix is `INV-`, then the year as `String` writes it, then `-`. |
| InvoiceNumber.PrefixYearReadBack | lib/invoiceNumber.ts:9 | The year is read back by `parseInt` from between the dashes of the prefix. |
| InvoiceNumber.SequencePart | lib/invoiceNumber.ts:19 | `slice(prefix.length)`: a number that starts with the prefix is the prefix followed by the result. A number no longer than the prefix gives the empty string. |
| InvoiceNumber.NextSequence | lib/invoiceNumber.ts:17-21 | `nextNum` is one more than the value read from the latest suffix. It is 1 when there is no latest number or the read gives `NaN`. |
| InvoiceNumber.NextAfterParsedValue | lib/invoiceNumber.ts:19-23 | If the latest suffix parses to `k`, the new suffix is the formatting of `k + 1`. |
| InvoiceNumber.NextAfterUnparsableSuffix | lib/invoiceNumber.ts:19-23 | If the latest suffix does not parse (`NaN`), the result is `INV-<year>-0001`. |
| InvoiceNumber.FormatSequence | lib/invoiceNumber.ts:23 | The suffix is four characters long, or as long as the value's decimal text if that is longer. It ends with the whole decimal text, with only `'0'` in front. |
| InvoiceNumber.FormatSequenceDigits | lib/invoiceNumber.ts:23 | For a value of zero or more, the suffix is all digits. Its length is the larger of 4 and the numeral's length, so it is never truncated, and its digits read back as the value. |
| InvoiceNumber.SequenceRoundTrip | lib/invoiceNumber.ts:19-23 | Cutting the prefix off `INV-<year>-` followed by the formatted value `n` and parsing the rest gives `n` back when `n >= 0` or `n <= -100`. For `n` between -99 and -1 it gives 0, because the padding zeros come before the minus sign. |
| InvoiceNumber.AllocatedCarriesNextSequence | lib/invoiceNumber.ts:19-23 | A newly allocated number reads back as the `nextNum` that produced it. The exception is a `nextNum` between -99 and -1, which it reads back as 0. |
| InvoiceNumber.AllocationIncrements | lib/invoiceNumber.ts:19-23 | Feeding an allocated number back in as the latest one raises the value it carries by exactly one. The exception is a value between -100 and -2, after which the new number carries 0. |
| InvoiceNumber.AllocationsCountUp | lib/invoiceNumber.ts:11-23 | Start a year with no invoices and feed each output back in. The i-th number is the prefix followed by `i` padded to four characters, and it reads back as `i`. |
| InvoiceNumber.AllocationsDistinct | lib/invoiceNumber.ts:11-23 | Successive allocations in a year never repeat a number. |
| InvoiceNumber.NegativeSuffixPadsBeforeSign | lib/invoiceNumber.ts:19-23 | A latest number `INV-7--5` gives `INV-7-00-4`: padding goes in front of the minus sign of a negative `nextNum`. |
| JsNumber.ParseInt | lib/invoiceNumber.ts:20-21 | `parseInt` gives `NaN` exactly when no digit follows the leading white space and the optional sign. Without a minus sign the value is not negative. |
| JsNumber.ParseIntStopsAtNonDigit | lib/invoiceNumber.ts:20 | A run of digits followed by a non-digit parses to the value of the run. |
| JsNumber.ParseIntSigned | lib/invoiceNumber.ts:20 | After optional white space, `-` and a digit run ended by a non-digit give the negated value of the run; `+` gives the value itself. |
| JsNumber.ParseIntSkipsWhitespace | lib/invoiceNumber.ts:20 | White space in front of the text does not change what `parseInt` reads. |
| JsNumber.ParseIntOfString | lib/invoiceNumber.ts:20-23 | `parseInt` reads back every integer that `String` writes, negative ones included. |
| JsNumber.NatToDecimal | lib/invoiceNumber.ts:23 | `String(n)` for `n >= 0` is digits only and has no leading zero unless it is "0". Its digits read back as `n`. |
| JsNumber.IntToString | lib/invoiceNumber.ts:9-23 | `String(n)` of an integer: for `n >= 0` the digits of `n`; for a negative `n` a minus sign followed by the digits of `-n`. No leading zero, except for "0" itself. |
| JsString.PadStart | lib/invoiceNumber.ts:23 | `padStart` keeps the text whole at the end and fills in front, up to the width, with the fill character only. Longer text is unchanged. |
| JsString.SliceFrom | lib/invoiceNumber.ts:19 | `slice(n)` is everything from position `n` on, so the cut-off part and the result make up the input. Past the end it is the empty string. |
| JsString.IsWhitespaceIff | app/jobs/new/actions.ts:7-13 | The characters that `trim` strips and `parseInt` skips are exactly the ECMAScript WhiteSpace and LineTerminator code points, listed as one set. |
| JsString.Trim | app/jobs/new/actions.ts:7-13 | `trim` returns text with no white space at either end, and never longer than its input. |
| JsString.TrimRecoversCore | app/jobs/new/actions.ts:7-13 | Any trimmed text wrapped in white space on both sides comes back exactly from `trim`. |
| JsString.TrimSplit | app/jobs/new/actions.ts:7-13 | Every text is its `trim` with only white space added on each side. |
| JsString.TrimIsTrimStartThenEnd | app/jobs/new/actions.ts:7-13 | `trim` agrees with stripping leading white space and then trailing white space. |
| JsString.TrimIdempotent | app/jobs/new/actions.ts:7-13 | Trimming twice is the same as trimming once. |
| JsString.TrimEmptyIff | app/clients/new/actions.ts:7 | `trim` gives the empty string exactly when the input is all white space. |
| Forms.FieldEmptyIff | app/clients/new/actions.ts:7-12 | A field reads as empty exactly when it is absent or only white space. |
| Forms.Field | app/jobs/new/actions.ts:7-13 | A field read is trimmed and never longer than what was submitted. A field that was not submitted reads as the empty string. |
| Forms.MissingFieldReadsEmpty | app/jobs/new/actions.ts:7-13 | A field left out of the form reads the same as one submitted as `""`. |
| Forms.PaddedFieldReadsSame | app/jobs/new/actions.ts:7-13 | White space around a submitted value changes no field read. |
| Forms.OrNull | app/jobs/new/actions.ts:35 | An empty text is stored as null, and only an empty one; any other text is stored unchanged. |
| Forms.OrNullUndoesOrEmpty | app/clients/new/actions.ts:22-26 | Writing null as `""` and reading it back with the empty-to-null rule recovers every null or non-empty value. |
| JobActions.CreateJob | app/jobs/new/actions.ts:6-42 | A job is built exactly when all three required fields are present after trimming and both ids exist. The job then has status `SCHEDULED` and the three required values equal the trimmed inputs. The description and dates are null when empty. |
| JobActions.OptionalDate | app/jobs/new/actions.ts:28-29 | A date is null exactly when its trimmed text is empty; otherwise it is the date parsed from that text. |
| JobActions.CreateJobReportsFirstFailure | app/jobs/new/actions.ts:15-26 | The error is the one from the first failing check, in the order client id, title, assignee, client lookup, user lookup. |
| JobActions.MessagesIdentifyErrors | app/jobs/new/actions.ts:15-26 | The five thrown texts are all different, so the message tells which check failed. |
| JobActions.CreateJobSucceedsIffAllPass | app/jobs/new/actions.ts:15-26 | `createJob` succeeds exactly when every one of its five checks passes. |
| JobActions.RequiredChecksPrecedeLookups | app/jobs/new/actions.ts:15-26 | While a required field is missing, `createJob` fails the same way whichever ids exist: no lookup is consulted. |
| JobActions.MoreIdsKeepJob | app/jobs/new/actions.ts:20-26 | A job that can be created is created unchanged when more clients and users exist. |
| JobActions.CreateJobReadsFieldsOnly | app/jobs/new/actions.ts:7-13 | Two forms whose fields read the same give the same outcome. |
| JobActions.CreateJobMissingFieldIsEmpty | app/jobs/new/actions.ts:7-13 | Leaving a field out gives the same outcome as submitting it empty. |
| JobActions.CreateJobIgnoresPadding | app/jobs/new/actions.ts:7-13 | White space around any submitted value does not change the outcome. |
| JobActions.JobFormRoundTrip | app/jobs/new/actions.ts:7-39 | Every job of the shape `createJob` builds, whose client and user exist, is rebuilt exactly from the form that submits its fields. |
| ClientActions.CreateClient | app/clients/new/actions.ts:6-29 | `createClient` fails with "Client name is required." exactly when the name is absent or all white space. On success the name is the trimmed input and the status is `ACTIVE`. Each optional field is null when empty after trimming, and otherwise the trimmed text. |
| ClientActions.OptionalFieldsNeverFail | app/clients/new/actions.ts:14-26 | Whatever is submitted for a field other than the name, success or failure is unchanged, and so are the name and status. |
| ClientActions.CreateClientReadsFieldsOnly | app/clients/new/actions.ts:7-12 | Two forms whose fields read the same give the same outcome. |
| ClientActions.CreateClientMissingFieldIsEmpty | app/clients/new/actions.ts:7-12 | Leaving a field out gives the same outcome as submitting it empty. |
| ClientActions.CreateClientIgnoresPadding | app/clients/new/actions.ts:7-12 | White space around any submitted value does not change the outcome. |
| ClientActions.ClientFormRoundTrip | app/clients/new/actions.ts:7-27 | Every client of the shape `createClient` builds is rebuilt exactly from the form that submits its fields, with null written as `""`. |

## Left out

- The store calls (`findFirst` ordered by `createdAt`, `findUnique`, `create`) are not modelled. They become the `latest` parameter, the sets of known ids, and the returned record.
- Which invoice counts as "latest" is decided by the store's `createdAt` ordering, not by comparing numbers. The model takes that number as given. It follows the code rather than a lexicographic "last number".
- `redirect` and the server-action plumbing are left out: they are framework effects.
- The `Promise.all` at app/jobs/new/actions.ts:20 is left out. The two lookups do not depend on each other, so they are modelled as two independent membership tests checked in the code's order.
- Two concurrent allocations can return the same invoice number; the model does not cover this because concurrency is out of scope.
- `new Date().getFullYear()` becomes the `year` parameter, because the clock is an effect.
- `new Date(text)` for job dates is opaque. The model keeps a date as the text it was parsed from; date parsing is not modelled.
- JavaScript number precision is not modelled. `parseInt` and `String` work on unbounded integers here. Values past 2^53, exponent notation from `String` and `Infinity` do not arise in the model. In JavaScript, from 2^53 on `lastNum + 1` rounds back to `lastNum`, so a latest number `INV-<year>-9007199254740992` produces itself again. `AllocationIncrements` and `AllocationsDistinct` therefore hold for the program only below 2^53.
- `Number.isFinite(lastNum)` is modelled as "the parse found digits", since radix-10 `parseInt` gives only `NaN` or a finite value here.
- `FormData` entries that are files are left out. Every submitted value is a string.
- JavaScript strings are UTF-16 code units; the model uses Unicode scalar values instead. Every character that `trim`, `parseInt` and the prefix inspect is a single code unit, so the two views agree on them.
- The page components, layout and seed script are not part of this model. They render, read or populate the store.
- When a key is submitted more than once, `FormData.get` returns the first value. A map holds one value per key, so repeated keys are not modelled.
- A non-empty date text that `new Date` cannot parse gives an invalid date, and the store's `create` then fails. The model keeps dates opaque and returns `Success` for such a form.
