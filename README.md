# Bariatric-care patient dashboard: verified model of the page logic

The dashboard is one React page (`app/page.tsx`). It lists the 50 most recent
patients and shows the total number of patients and of visits. A dialog
creates a new patient. The page reads and writes a remote store. Apart from
markup and store calls, its own code does three things, and this project
models them:

- `calcAge` (module `Age`, file `age.dfy`). It turns a stored birth date into
  the label shown beside a patient: `"-"` when there is no usable date,
  otherwise `"<n> anos"`, where `n` is the age in whole calendar years.
- `loadDashboard` (module `Dashboard`, file `dashboard.dfy`). It waits for
  three store replies: the patient list, the patient count and the visit
  count. It commits the list and both counters together, and only when none
  of the replies failed.
- `createPatient` (same module). It trims the typed name and refuses a blank
  one. It builds the insert payload and sends it. On success it clears and
  closes the form and reloads the dashboard. On failure it keeps the form so
  the user can retry.

Supporting modules:

- `Text` (`text.dfy`) models JavaScript's `String.prototype.trim`, using its
  exact set of whitespace characters. It also models how a template literal
  writes an integer, with an inverse reader proved to undo it.
- `Wrappers` (`wrappers.dfy`) holds `Option`. It stands for the page's
  `T | null` values and for `x ?? fallback`.

Both page operations exist twice, kept in step:

- A pure function of the page state and the store replies (`AfterLoad`,
  `AfterCreate`). Its contract, and the lemmas beside it, state the
  all-or-nothing commit, the order in which errors are checked, the reset
  flags and what happens to the form.
- A method on the class `Page`. `Page` has one field per `useState` hook. The
  method updates those fields step by step, as the page does. Its
  postcondition equates the new state with the function applied to the old
  state.

The store's replies are parameters. Parsing a date string and reading the
clock are also parameters: a parser function and an already-split "now" date.

Some behaviour of the code worth stating plainly:

- A missing or unparsable birth date is shown as the text `"-"`.
- A blank name is refused with the message `"Digite o nome do paciente."`.
- The birth date is passed to the store as typed, without validation.
- Newest-first ordering and the 50-row cap come from the store query; the
  page's own code does not enforce them.

## Model

| member | source | states |
|---|---|---|
| `Age.AgeInYears` | app/page.tsx:29-31 | The age is the year difference or one less. It is one less exactly when (month, day) of now is before (month, day) of birth. On the birthday itself the age is the full year difference. A birth date not after now gives an age of at least 0. |
| `Age.AgeIsCompletedYears` | app/page.tsx:29-31 | The age counts the birthdays already reached. The `age`-th birthday is on or before now and the next one is after now. For every `k`, the k-th birthday is reached exactly when `k <= age`. |
| `Age.ExactAnniversary` | app/page.tsx:29-31 | Someone born exactly `k` years before today (same month and day) is `k` years old. |
| `Age.CalcAge` | app/page.tsx:24-33 | The result is `"-"` exactly when the birth value is null or empty, or does not parse. Otherwise it reads back as the computed age through `AgeOfLabel`. |
| `Age.AgeLabelReadsBack` | app/page.tsx:32 | Every `"<n> anos"` label reads back as `n`, and no label equals the `"-"` marker. |
| `Age.AgeOfLabelOnlyExact` | app/page.tsx:32 | A text that reads back as `age` is exactly `age` in canonical decimal followed by `" anos"`. Together with `CalcAge`'s contract this fixes the shown label to `` `${age} anos` ``. |
| `Text.TrimStartStrips` | app/page.tsx:84 | Dropping leading whitespace keeps a suffix of the input that does not start with whitespace. Everything dropped was whitespace. |
| `Text.TrimEndStrips` | app/page.tsx:84 | Dropping trailing whitespace keeps a prefix of the input that does not end with whitespace. Everything dropped was whitespace. |
| `Text.Trim` | app/page.tsx:84 | `trim()` is empty exactly when the input is all whitespace. A non-empty result neither starts nor ends with whitespace. |
| `Text.TrimIsSlice` | app/page.tsx:84 | The trimmed name is a contiguous slice of the input, with only whitespace before and after it. |
| `Text.TrimIdempotent` | app/page.tsx:84 | Trimming twice gives the same result as trimming once. |
| `Text.ShowNat` | app/page.tsx:32 | The decimal rendering of a natural number is non-empty and all digits. It starts with `0` only for zero, and then it is the single digit `0`. |
| `Text.ShowInt` | app/page.tsx:32 | The rendering of an integer in a template literal is never the bare `"-"`. It starts with a minus sign exactly when the integer is negative. |
| `Text.ParseShowNat` | app/page.tsx:32 | Reading back the digits of `n` gives `n`. |
| `Text.ParseShowInt` | app/page.tsx:32 | Reading back the rendering of any integer gives that integer. |
| `Text.ShowParseNat` | app/page.tsx:32 | A digit string without a leading zero (other than `0` itself) is exactly the rendering of the number it stands for. |
| `Text.ParseIntOnlyCanonical` | app/page.tsx:32 | The reader accepts only what the rendering writes: a text that reads as `i` is the rendering of `i`. No leading zeros and no `-0` are accepted, so each integer has one spelling. |
| `Dashboard.FirstFailure` | app/page.tsx:65-67 | Returns the position of the first failed reply. Every reply before it succeeded, and the reply at it failed. The position equals the count of replies exactly when none failed. |
| `Dashboard.LoadFailureInOrder` | app/page.tsx:65-73 | The list error is checked first, then the patient-count error, then the visit-count error. The first one found gives the message, `message ?? "Erro ao carregar dados."`. |
| `Dashboard.AfterLoad` | app/page.tsx:50-77 | `loading` ends false. There is no error exactly when all three replies succeeded. After a failure the snapshot and both counters keep their previous values. After success the snapshot becomes `data ?? []` and each counter `count ?? 0`. The form and `saving` are untouched. |
| `Dashboard.AfterLoadReportsFirstFailure` | app/page.tsx:65-73 | The error a load ends with is the message of the first failed reply, in the order list, patient count, visit count. |
| `Dashboard.LoadIdempotent` | app/page.tsx:50-77 | Loading twice with the same replies ends in the same state as loading once. |
| `Dashboard.Page.LoadDashboard` | app/page.tsx:50-77 | The method's new state is `AfterLoad` of its old state. It keeps the snapshot within the 50-row cap when the list reply is within that cap. |
| `Dashboard.BuildPayload` | app/page.tsx:84-91 | No payload exactly when the name is all whitespace. Otherwise the name is the trimmed name, which is non-empty. `birth_date` is present exactly when the birth field is non-empty, and then it is that field, unchanged. |
| `Dashboard.AfterCreate` | app/page.tsx:79-105 | `saving` ends false. Blank name: the error is `"Digite o nome do paciente."` and the form, dialog flag, snapshot, counters and `loading` are unchanged. Refused insert: the error is `message ?? "Erro ao salvar paciente."` and the form and dashboard are kept. Successful insert: dialog closed, both fields empty, and the state is exactly one `AfterLoad` from the old state with `saving` set, no error and the form cleared and closed (`ClearedForm`), with `saving` lowered afterwards. |
| `Dashboard.BlankNameOnlySetsMessage` | app/page.tsx:84-88 | For a blank name the only changes are the validation message and `saving = false`. |
| `Dashboard.RefusedInsertOnlySetsMessage` | app/page.tsx:93-104 | For a refused insert the only changes are the store's message (or `"Erro ao salvar paciente."`) and `saving = false`. |
| `Dashboard.RetryResubmitsSamePayload` | app/page.tsx:90-101 | After a refused insert, submitting again builds the same payload. |
| `Dashboard.Page.CreatePatient` | app/page.tsx:79-105 | Returns the payload it inserted, which equals `BuildPayload` of the old form. It reports that the reload ran exactly when an insert was issued and succeeded. Its new state is `AfterCreate` of its old state. |
| `Dashboard.Page.constructor` | app/page.tsx:38-48 | The initial `useState` values: empty snapshot, zero counters, `loading` true, dialog closed, empty form, no error, not saving. |

## Left out

- `getSupabase` and its environment-variable check (app/page.tsx:13-22) are configuration and foreign client construction.
- The query builder (`from`, `select`, `order`, `limit`, `insert`) and the store itself are not modelled. The store's replies are method parameters.
- Newest-first ordering of the list is not modelled. The store enforces it.
- The 50-row cap is not proved. The store enforces it, and the model takes it as the precondition `WithinLimit` on the list reply.
- `Promise.all`, `await` and React scheduling are not modelled. A rejected promise would reach the same `catch`; the model only handles replies that resolved, with or without an error.
- React's batching of `setState` calls is not modelled. Each method's final state is the result of its setter calls in order.
- Re-entrant calls while a load or save is in flight are not modelled.
- `new Date(...)` string parsing, `getTime()` NaN detection, the clock and UTC-versus-local time zone effects are not modelled. `CalcAge` takes a parser function and an already-split "now" date instead.
- The JSX rendering is not modelled. This covers `alert`, the buttons that open and close the dialog (`setShowNew(true/false)`), the inputs' `onChange` setters for the two form fields, and `disabled={saving}`.
- Counts are unbounded integers. JavaScript numbers are floating point, but exact row counts stay far inside the range where they are exact integers.
- A caught value without a `message` is modelled as a `StoreError` whose message is absent. Rows are taken as `Patient` values as they come, as the code's `as Patient[]` cast does.
