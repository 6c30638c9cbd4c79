# Bookkeeping transaction store, in Dafny

This project models the core of a small bookkeeping web service written in
Rust. The service keeps an ordered, in-memory collection of transactions.
Each transaction has a UUID, a user, an item, an `f64` amount and a UNIX
timestamp. Six HTTP handlers work on the collection:

- create appends a validated record;
- list returns a snapshot;
- get returns the first record with an id;
- update patches a record field by field;
- delete removes every record with an id;
- user summary filters by user, counts and sums.

After each mutation the service rewrites the whole collection to a mirror
file: it writes a temporary file, then renames it over the mirror.

The model has four modules:

- `Text` (`text.dfy`): Rust's `str::trim` over `char::is_whitespace`, which is
  the Unicode White_Space set, and the facts about it the handlers rely on.
- `Transactions` (`transactions.dfy`): the record and the two payloads. It also
  holds the `f64` amount (finite, NaN or ±infinity, with exact finite
  arithmetic), the validation of create, and update applied to one record
  (`Patch`).
- `Collection` (`collection.dfy`): the reading operations as functions on the
  sequence. These are find-first, `retain`, the per-user filter and the
  left-to-right sum. The module also holds the collection's invariant
  (`Consistent`: distinct ids, trimmed non-empty user and item, finite
  amount) and lemmas that every mutation keeps it.
- `Store` (`store.dfy`): the shared `AppState` as a class. Its `transactions`
  field is the in-memory collection. Its `file` field stands for the records
  that loading the mirror file would yield (src/main.rs:226-235, 420), so a
  missing, unreadable or unparseable file reads as `[]`. Create, update and
  delete are methods that change these fields in place; list, get and user
  summary are functions that read them. Two quirks of the source are kept:
  - A failed persist is reported as `PersistError`, but the in-memory change
    stays.
  - Update writes each field as soon as it passes its check and returns at
    the first failure, so a rejected update leaves the earlier fields written
    in memory and not persisted (src/main.rs:329-356).

The model treats these inputs as parameters:

- The fresh UUID of create (`Uuid::new_v4`) is a parameter. The model
  requires it to be new to the collection.
- The current time (`SystemTime::now`, or 0 before the epoch) is the
  parameter `now`.
- Whether the file write and rename succeed is a nondeterministic outcome of
  `Persist`.

## Model

| member | source | states |
|---|---|---|
| `Text.TrimStart` | src/main.rs:245 | the leading-whitespace strip never lengthens the string and leaves no leading whitespace |
| `Text.TrimEnd` | src/main.rs:245 | the trailing-whitespace strip never lengthens the string and leaves no trailing whitespace |
| `Text.Trim` | src/main.rs:265-266 | `trim()` never lengthens the string and leaves a string that is empty or starts and ends with non-whitespace |
| `Text.TrimEndKeepsFirst` | src/main.rs:265-266 | stripping trailing whitespace keeps a first character that is not whitespace |
| `Text.TrimStartIsSuffix` | src/main.rs:265-266 | the leading strip keeps a suffix and drops only whitespace |
| `Text.TrimEndIsPrefix` | src/main.rs:265-266 | the trailing strip keeps a prefix and drops only whitespace |
| `Text.TrimIsSlice` | src/main.rs:265-266 | `trim()` keeps one contiguous slice of its input, and both dropped ends are all whitespace |
| `Text.BlankIffAllWhitespace` | src/main.rs:245 | `trim().is_empty()` holds exactly when every character is whitespace |
| `Text.AllWhitespaceTrimStart` | src/main.rs:245 | an all-whitespace string strips to empty |
| `Text.TrimIdempotent` | src/main.rs:334 | trimming a trimmed value changes nothing, so stored user and item values are their own trim |
| `Text.TrimOfPadded` | src/main.rs:265-266 | whitespace padding around text that neither starts nor ends with whitespace is removed exactly |
| `Text.TrimStartPadded` | src/main.rs:265-266 | leading whitespace before a non-whitespace character is removed exactly |
| `Text.TrimEndPadded` | src/main.rs:265-266 | trailing whitespace after a non-whitespace character is removed exactly |
| `Transactions.Add` | src/main.rs:407 | an `f64` sum is finite exactly when both operands are; finite sums are exact; NaN absorbs |
| `Transactions.CheckCreate` | src/main.rs:245-254 | create accepts exactly when trimmed user and item are non-empty and the amount is finite; a blank user or item is reported before a non-finite amount |
| `Transactions.NewTransaction` | src/main.rs:256-269 | the record create builds has the fresh id, trimmed user and item, the payload's amount, and the payload's timestamp or else now; a payload that passes create's checks builds a well-formed record |
| `Transactions.CreateExamples` | src/main.rs:245-269 | `"  "` as user is rejected; a NaN amount is rejected; `" Alice "`/`" Book "` are stored as `"Alice"`/`"Book"` with the clock's timestamp |
| `Transactions.Patch` | src/main.rs:329-352 | the id is never written; a field is written exactly when it is present, its own check passes and every earlier check passed; the rejection reported is the first failing check in the order user, item, amount |
| `Transactions.PatchKeepsWellFormed` | src/main.rs:329-349 | patching keeps a well-formed record well-formed, even when a later field is rejected |
| `Transactions.PatchItemOnly` | src/main.rs:336-342 | an update carrying only an item changes only the item, to its trimmed value |
| `Collection.FirstIndex` | src/main.rs:328 | the position found holds the id and no earlier record has it; there is no position exactly when no record has the id |
| `Collection.Find` | src/main.rs:305-309 | get finds a record exactly when some record has the id, and then it is the first record with that id |
| `Collection.FindUnique` | src/main.rs:305 | with distinct ids, looking up a record's id returns that record |
| `Collection.FindAfterReplace` | src/main.rs:365-366 | after a record with the same id is written at the first matching position, lookup by id returns the written record |
| `Collection.Without` | src/main.rs:383 | `retain` keeps exactly the records whose id differs |
| `Collection.WithoutAppend` | src/main.rs:383 | `retain` distributes over concatenation, so kept records stay in their original order |
| `Collection.WithoutLength` | src/main.rs:382-386 | the length is unchanged by `retain` exactly when no record had the id (delete's NotFound test) |
| `Collection.WithoutAbsent` | src/main.rs:383-386 | with no record carrying the id, `retain` changes nothing |
| `Collection.WithoutIdempotent` | src/main.rs:381-386 | after a delete no record has the id, and a second delete changes nothing |
| `Collection.UniqueAppend` | src/main.rs:274 | appending a record with a new id keeps ids distinct |
| `Collection.WithoutKeepsUnique` | src/main.rs:383 | `retain` keeps distinct ids distinct |
| `Collection.WithoutUniqueLength` | src/main.rs:382-386 | with distinct ids, deleting a present id removes exactly one record |
| `Collection.WithoutKeepsConsistent` | src/main.rs:381-386 | delete keeps the collection's invariant |
| `Collection.AppendKeepsConsistent` | src/main.rs:263-274 | appending a well-formed record with a fresh id keeps the collection's invariant |
| `Collection.ReplaceKeepsConsistent` | src/main.rs:328-352 | replacing a record in place by a well-formed one with the same id keeps the invariant |
| `Collection.UserRecords` | src/main.rs:402-406 | the filter keeps exactly the records whose user equals the requested one |
| `Collection.UserRecordsAppend` | src/main.rs:402-406 | the filter distributes over concatenation, so it preserves order |
| `Collection.Total` | src/main.rs:407 | the left-to-right sum of amounts from zero is finite exactly when every amount is |
| `Collection.TotalAppendOne` | src/main.rs:407 | the sum over one more record adds that record's amount last |
| `Collection.Summarize` | src/main.rs:399-415 | the summary names the user; its records are exactly the matching ones; count is their number; the total is finite iff all their amounts are; with no match the records are empty, count 0 and total 0 |
| `Collection.SummaryTotal` | src/main.rs:402-408 | over finite amounts, the summary's total is the exact sum of the amounts of the records whose user matches |
| `Collection.UserTotal` | src/main.rs:402-407 | the sum of the filtered records equals the matching-amount sum over the whole collection |
| `Store.AppState.constructor` | src/main.rs:418-425 | at startup the collection and the mirror both hold the records loading produced, which are `[]` when the file is missing or unparseable |
| `Store.AppState.Persist` | src/main.rs:213-225 | on success the mirror holds the entire current collection; on failure the mirror keeps its previous records; the collection is untouched |
| `Store.AppState.Create` | src/main.rs:240-286 | a rejected payload returns the validation error and changes nothing; otherwise exactly one record is appended with the fresh id, trimmed user and item, the amount, and the supplied timestamp or now; the result is Ok with the record and the mirror updated, or PersistError with the append kept and the mirror unchanged; the invariant is kept |
| `Store.AppState.List` | src/main.rs:289-292 | the snapshot is the whole collection in insertion order |
| `Store.AppState.Get` | src/main.rs:295-310 | NotFound exactly when no record has the id; otherwise Ok with the first record that has it; on a valid collection that record is the only one with the id |
| `Store.AppState.Position` | src/main.rs:328 | the scan stops at the first position holding the id, or finds none |
| `Store.AppState.PatchAt` | src/main.rs:329-352 | the record at the position is replaced by the patched record, other records and positions unchanged, and the first failing check is returned |
| `Store.AppState.Update` | src/main.rs:313-368 | an absent id gives NotFound with nothing changed; otherwise the first record with the id is replaced in place by its patch; a rejected field gives the validation error with earlier fields kept and nothing persisted; else Ok with the patched record or PersistError with the change kept; the invariant is kept |
| `Store.AppState.Delete` | src/main.rs:371-396 | the collection becomes the records with a different id, in order; NotFound exactly when no record had the id, with nothing persisted; else Ok with the mirror updated, or PersistError with the removal kept; on a valid collection a successful removal drops exactly one record; the invariant is kept |
| `Store.AppState.UserSummary` | src/main.rs:398-415 | the summary names the user; its count is the number of its records; the records are exactly those whose user equals the requested one; on a valid collection the total is the exact sum of their amounts |

## Left out

- HTTP routing, actix attributes, response bodies and `main`: network plumbing. The status of each handler's answer is the `Response` constructor; the error texts are represented by the `Invalid` reason.
- Parsing the path into a UUID, and the 400 "invalid uuid" answer that get, update and delete give when parsing fails: the model's handlers take an already-parsed `Uuid`.
- JSON serialisation with serde and the byte format of the mirror file: the mirror is modelled by the records it holds.
- Loading the file at startup, including the fallback to an empty collection when the file is missing or unparseable: the constructor takes the records that loading produced.
- The temporary file of `persist` as separate state: a write or rename failure leaves the mirror as it was, and success replaces it whole. Both outcomes are modelled; the intermediate file is not.
- The `RwLock`, `Arc` and async scheduling. The model is single-threaded, so three concurrent effects are not modelled. A persist can snapshot other handlers' later changes. Two persists can complete out of order. The re-read in update, `find(..).unwrap()`, can panic when a concurrent delete removed the record.
- Logging with `eprintln!`: output only.
- Store.AppState.Create: the freshness of the new id is a precondition standing for the randomness of `Uuid::new_v4`; the source does not check it.
- Transactions.Add: finite sums are exact reals; `f64` rounding, overflow to infinity and signed zeros are not modelled.
- Collection.Total: the sum is exact; rounding in each step of the `f64` fold is not modelled.
