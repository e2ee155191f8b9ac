# blurr workload engine in Dafny

This project models the workload engine of blurr, a load generator for
document databases. The engine has two variants.

- **Default** is size-driven, in `workloads/default.go`.
  - A record's key is the hash of its decimal index.
  - A value holds `indexableFields` fields cut from the key, plus a body
    field padded towards a target size.
  - A batch is the five operation percentages expanded into 100 tokens
    (`c`, `r`, `u`, `d`, `q`) and shuffled.
  - `DoBatch` runs a batch against the run state: the operation budget,
    the created records, the per-kind error counts and the workload's
    own DeletedItems counter.
- **N1QL** is schema-driven, in `workloads/n1ql.go`.
  - A key is the twelve-digit zero-padded index.
  - Existing records are drawn from a hot or a cold part of the live
    range.
  - A document of fourteen fields is cut from a 64-character alphabet,
    `Hash(key) + Hash(reverse(key))`.

Modules:

- `Wrappers` holds `Option` and `Result`.
- `GoLib` models the parts of Go's standard library the engine relies on:
  - `strconv.FormatInt`, `strconv.ParseInt`, `fmt`'s `%012d`,
    `strings.Index` and `math.Max`;
  - Go's truncating `/` and `%`.
- `WorkloadTypes` holds the shared types:
  - the configuration and the operation tokens;
  - the database calls;
  - the ways a batch can stop (`log.Fatal` and runtime panics);
  - `Env`, which passes in `Hash` and `RandString`;
  - `Int63n`, the value of `rand.Int63n` for a given raw draw.
- `DefaultGen` holds the Default variant's key, value, query and batch
  functions.
- `BatchSpec` defines the batch loop as a function of the counters, and
  proves its properties for any dispatcher that behaves like blurr's
  switch.
- `DefaultWorkload` models the Default variant's imperative code: the
  `State` and `Default` objects and their methods. Each method is proved
  equal to the functions above.
- `N1QLGen` holds the N1QL variant's key space, alphabet, field builders
  and document.
- `N1QLWorkload` holds the `N1QL` object and the two helpers that work
  step by step:
  - `reverse` swaps array cells from both ends;
  - `build_achievements` runs an accumulator loop.

Conventions:

- Random draws are parameters.
  - Functions take picks already in range.
  - The batch loop takes raw draws and reduces them modulo the bound.
  - A bound of zero or less is a panic, as in `rand.Int63n`.
- The outcome of each database call (error or not) is an input `failed[i]`.
- `Hash` is a function parameter. The comment at `workloads/default.go:43`
  says its result is 32 hex characters; that they are lowercase hex digits
  is an assumption of this model.
- `RandString` is a function parameter with no assumption.
- The `STATES` table is a parameter `states` (see "## Left out" for the
  rows it is assumed to have).
- `Config`, `State`, `Hash`, `RandString`, `STATES` and `NUM_STATES` are
  defined in files that are not part of this model.

Behaviour of the code that the model keeps, and that a reader may not expect:

- `Default.GenerateExistingKey` draws from `[DeletedItems, currentRecords)`.
  `N1QL.GenerateExistingKey` draws from `(DeletedItems, currentRecords]`.
  Removals take indices DeletedItems + 1, + 2, ..., so:
  - Default can return the key of the last removed index;
  - Default never returns the newest record.
  `DefaultGen.ExistingKeyRangeShifted` and `N1QLGen.ExistingIndexEnds`
  state the two ranges.
- The body length is `size - len("field<N>-" + key[:10]) * N`:
  - every field is charged the length of the last field's name;
  - the result is not clamped at zero.
  `DefaultGen.BodyLengthExamples` exhibits both.
- Nothing keeps DeletedItems at or below Records:
  - `d` tokens are issued without a guard;
  - DeletedItems lives on the workload object, not in the shared `State`.
- The shared `State` has no locking around its counters. The model is
  sequential.
- `DoBatch` calls Default's own generators, because Go has no virtual
  dispatch through embedding. An `N1QL` workload therefore runs batches
  with Default keys and values. Its own `DeletedItems` shadows the
  embedded Default's, and the N1QL methods never touch the embedded one.
  `DoBatch` also reads the embedded Default's `Config`: in an `N1QL` run
  the percentages, Operations, IndexableFields and ValueSize come from
  `w.Default.Config`, and `N1QL.Config` is never consulted by the batch.

## Model

| member | source | states |
|---|---|---|
| GoLib.FormatNatValue | workloads/default.go:21 | the decimal digits of a number read back as that number |
| GoLib.FormatIntInjective | workloads/default.go:21 | different integers have different FormatInt strings |
| GoLib.FormatInt | workloads/default.go:21 | strconv.FormatInt(n, 10): a '-' exactly for negative n, then the digits of the magnitude; FormatNatValue and FormatIntInjective state that they read back and never collide |
| GoLib.SprintfZeroPadded | workloads/n1ql.go:19 | `%012d`: the sign counts towards the width and zeros go between sign and digits; ZeroPaddedValue states the digits and value for 0 <= n < 10^width |
| GoLib.ZeroPaddedValue | workloads/n1ql.go:19 | below 10^width, `%0<width>d` gives exactly width decimal digits whose value is the number |
| GoLib.ZeroPadValue | workloads/n1ql.go:19 | zero padding to a width the digits fit in gives that width and keeps the value |
| GoLib.ParseInt | workloads/n1ql.go:81 | the result is bounded by base^length; one character gives a digit in [0, base); valid digits give their value; invalid input without a sign gives 0 |
| GoLib.ParseIntSigned | workloads/n1ql.go:81 | a '+' or '-' followed by valid digits gives their value with that sign; a sign with no valid digits after it reads as 0 |
| GoLib.MaxReal | workloads/n1ql.go:82 | math.Max: the result is one of the two arguments and at least both |
| GoLib.GoRem | workloads/n1ql.go:87 | Go's remainder: the dividend is GoDiv times the divisor plus the remainder, the remainder is smaller than the divisor in absolute value, and a non-zero remainder has the dividend's sign |
| GoLib.GoDiv | workloads/n1ql.go:25 | Go's `/`, rounded toward zero; GoRem and TruncatedDivision state its relation to the remainder |
| GoLib.TruncatedDivision | workloads/n1ql.go:25 | truncated quotient and sign-of-dividend remainder reassemble the dividend |
| GoLib.Index | workloads/n1ql.go:96 | strings.Index of one character: -1 exactly when it is absent, otherwise the first position holding it |
| WorkloadTypes.LetterInjective | workloads/default.go:146-147 | distinct tokens have distinct letters, and no letter is "total", so the two error counts of a failure never collide |
| DefaultGen.GenerateNewKey | workloads/default.go:20-23 | a key is 32 lowercase hex characters |
| DefaultGen.NewKeyInputsDistinct | workloads/default.go:19-23 | distinct indices are hashed from distinct strings, so new keys are unique up to Hash collisions |
| DefaultGen.ExistingIndex | workloads/default.go:28 | the index is DeletedItems plus the draw, in [DeletedItems, currentRecords) |
| DefaultGen.GenerateExistingKey | workloads/default.go:26-31 | the key is the key of some index in [DeletedItems, currentRecords) |
| DefaultGen.KeyForRemoval | workloads/default.go:34-38 | the removal key is the key of index DeletedItems + 1 |
| DefaultGen.ExistingKeyRangeShifted | workloads/default.go:26-38 | the lowest existing-key draw is the last removed key, and the newest index is never drawn |
| DefaultGen.FieldNameInjective | workloads/default.go:50 | distinct field indices give distinct field names |
| DefaultGen.FieldNamesCount | workloads/default.go:49-52 | the names field0 .. field(k-1) are k distinct names |
| DefaultGen.FieldName | workloads/default.go:50 | "field" then the decimal index; FieldNameInjective states that distinct indices give distinct names |
| DefaultGen.IndexedFields | workloads/default.go:48-52 | the map after k iterations of the field loop; IndexedFieldsShape states its keys and values |
| DefaultGen.IndexedFieldsShape | workloads/default.go:48-52 | after k iterations the map holds exactly field0 .. field(k-1), each mapped to its name, "-" and the key window at its offset |
| DefaultGen.BodyLengthFormula | workloads/default.go:54-55 | each field is charged 16 characters plus the digits of indexableFields |
| DefaultGen.BodyLengthExamples | workloads/default.go:54-56 | with 9 fields each is charged 17 characters and with 10 fields 18; one field with size 0 asks for length -17 (no clamp) |
| DefaultGen.BodyLength | workloads/default.go:54-55 | the length asked of RandString; BodyLengthFormula and BodyLengthExamples state the per-field charge and the missing clamp |
| DefaultGen.ValueMap | workloads/default.go:48-56 | the value GenerateValue returns; ValueMapShape states its fields |
| DefaultGen.ValueMapShape | workloads/default.go:41-58 | for 0 <= indexableFields the value has exactly indexableFields + 1 fields: each indexed field holds its key window, and the body field holds RandString(key, body length) |
| DefaultGen.BodyFieldAdded | workloads/default.go:54-56 | adding the body field to the indexed fields gives n + 1 fields and changes none of the indexed ones |
| DefaultGen.GenerateQuery | workloads/default.go:60-67 | the field name is that of the drawn index; the value is that name, "-" and the window of the key of some index in [DeletedItems, currentRecords); the limit is in [10, 20) |
| DefaultGen.QueryMatchesStoredField | workloads/default.go:60-67 | the queried (name, value) pair is stored by GenerateValue for the drawn key, whatever the size |
| DefaultGen.Repeat | workloads/default.go:73-75 | one token loop appends max(0, n) copies of its token |
| DefaultGen.RepeatCount | workloads/default.go:73-87 | a token loop adds max(0, n) of its own token and none of any other |
| DefaultGen.Mix | workloads/default.go:71-87 | the five token loops in order; MixCounts states its length and per-kind counts |
| DefaultGen.MixCounts | workloads/default.go:71-87 | the unshuffled tokens number the sum of the non-negative percentages, each kind as often as its percentage |
| DefaultGen.PermutationIndices | workloads/default.go:91-93 | a permutation of 0..n-1 has n entries, all valid indices |
| DefaultGen.Shuffle | workloads/default.go:91-93 | position i holds token perm[i], one token per permutation entry; ShufflePermutes states that the tokens are kept |
| DefaultGen.ShufflePermutes | workloads/default.go:91-93 | placing token perm[i] at position i keeps exactly the same tokens |
| DefaultGen.BatchCounts | workloads/default.go:70-95 | a prepared batch has 100 tokens, each kind as many times as its percentage |
| BatchSpec.RunExhausted | workloads/default.go:119 | once Operations reaches Config.Operations an iteration changes nothing |
| BatchSpec.PanicIsFinal | workloads/default.go:115-150 | after a panic the remaining tokens change nothing |
| BatchSpec.IssuerConforms | workloads/default.go:122-144 | blurr's switch behaves as follows: `c` adds one record and uses the key of the new count; `d` adds one to DeletedItems and targets index old + 1; each call is of its token's kind; nothing else in the counters moves |
| BatchSpec.StepFacts | workloads/default.go:119-148 | one iteration claims at most one unit of budget, appends at most one call, of its token's kind, and moves Records and DeletedItems only for `c` and `d` |
| BatchSpec.BudgetRespected | workloads/default.go:115-121 | Operations grows by at most one per token and never passes Config.Operations if it started at or below it |
| BatchSpec.IssuedCalls | workloads/default.go:115-144 | without a panic, exactly min(k, budget left) tokens are issued and each makes one call |
| BatchSpec.CallsFollowBatch | workloads/default.go:115-144 | the calls are in batch order: call i is of the kind of token i |
| BatchSpec.RecordsCountCreates | workloads/default.go:123-125 | without a panic, Records grows by exactly the number of issued `c` tokens |
| BatchSpec.CreatesInOrder | workloads/default.go:123-128 | the create calls use the keys of start.Records + 1, + 2, ... in order, one per step of Records |
| BatchSpec.DeletesInOrder | workloads/default.go:137-139 | the delete calls target the keys of start.DeletedItems + 1, + 2, ... in order, one per step of DeletedItems (FIFO removal) |
| BatchSpec.ErrorsCounted | workloads/default.go:145-148 | without a panic, each failed call adds one to its letter's count and one to "total", and no other entry changes |
| BatchSpec.DoBatchSummary | workloads/default.go:112-151 | a whole batch: bad percentages stop it before anything changes; the budget is respected; one call per issued token; a batch the budget fully covers creates exactly CreatePercentage records; creates and deletes follow index order |
| BatchSpec.CountError | workloads/default.go:145-148 | Errors[v]++ then Errors["total"]++: both counts grow by one and every other entry is unchanged |
| BatchSpec.Issue | workloads/default.go:122-144 | the switch on one token; IssuerConforms states what each case does to the counters and which call it makes |
| BatchSpec.Step | workloads/default.go:119-148 | one iteration of the loop; StepFacts and RunExhausted state its effect on budget, calls and counters |
| BatchSpec.Run | workloads/default.go:115-150 | the first k iterations; BudgetRespected, IssuedCalls, CallsFollowBatch, RecordsCountCreates, CreatesInOrder, DeletesInOrder, ErrorsCounted and PanicIsFinal state its properties |
| BatchSpec.BatchOutcome | workloads/default.go:112-151 | PrepareBatch then the loop over the shuffled batch; DoBatchSummary states what a whole batch does |
| DefaultWorkload.AppendTokens | workloads/default.go:73-87 | one append loop adds exactly Repeat(token, n) to the slice |
| DefaultWorkload.Default.constructor | workloads/default.go:14-17 | a Default holds its configuration and its own DeletedItems |
| DefaultWorkload.Default.GenerateKeyForRemoval | workloads/default.go:34-38 | DeletedItems grows by exactly one, and the key is that of index old + 1 (the new value) |
| DefaultWorkload.Default.GenerateValue | workloads/default.go:41-58 | aborts with TooManyFields exactly when indexableFields >= 20; otherwise returns the value map with indexableFields + 1 fields, field i holding "field<i>-" and the key window at offset i |
| DefaultWorkload.Default.PrepareBatch | workloads/default.go:70-95 | aborts exactly when the appended tokens are not 100; otherwise returns the mix shuffled by the permutation, 100 tokens with each kind as often as its percentage |
| DefaultWorkload.Default.DoBatch | workloads/default.go:112-151 | the new Operations, Records, DeletedItems and error map, the calls made and the panic raised are those of BatchOutcome, to which the BatchSpec lemmas apply |
| DefaultWorkload.Default.RunBatch | workloads/default.go:115-150 | the loop leaves the counters, calls and panic of Run over the whole batch |
| DefaultWorkload.Default.Dispatch | workloads/default.go:122-144 | the switch on one token yields the counters and outcome of Issue |
| DefaultWorkload.Default.IssueCreate | workloads/default.go:123-128 | `c`: Records + 1, and a create call with the new key and its value, or TooManyFields |
| DefaultWorkload.Default.IssueRead | workloads/default.go:129-131 | `r`: a read of an existing key, or NonPositiveBound when no record is live |
| DefaultWorkload.Default.IssueUpdate | workloads/default.go:132-136 | `u`: an update of an existing key with a fresh value, or NonPositiveBound or TooManyFields |
| DefaultWorkload.Default.IssueDelete | workloads/default.go:137-139 | `d`: DeletedItems + 1, and a delete of the removal key |
| DefaultWorkload.Default.IssueQuery | workloads/default.go:140-143 | `q`: a query from GenerateQuery, or NoIndexableFields, NonPositiveBound, or SliceOutOfRange past the key's end |
| N1QLGen.NewKeyDigits | workloads/n1ql.go:18-20 | for 0 <= n < 10^12 the key is twelve decimal digits whose value is n |
| N1QLGen.NewKeyInjective | workloads/n1ql.go:18-20 | on [0, 10^12) distinct indices give distinct keys |
| N1QLGen.GenerateNewKey | workloads/n1ql.go:18-20 | the index formatted with `%012d`; NewKeyDigits and NewKeyInjective state its digits, value and uniqueness |
| WorkloadTypes.Int63n | workloads/n1ql.go:28-30 | rand.Int63n yields a value in [0, n) exactly when n > 0, and panics otherwise |
| N1QLGen.HotRecordsBounds | workloads/n1ql.go:24-26 | for a percentage in [0, 100] the hot part lies between 0 and the total, so the cold part is no larger than the total |
| N1QLGen.HotRecords | workloads/n1ql.go:25 | the truncated hot share of the live records; HotRecordsBounds states its bounds |
| N1QLGen.ExistingIndex | workloads/n1ql.go:23-31 | the hot or cold index draw, panicking on an empty part; ExistingIndexRange and ExistingIndexEnds state its range |
| N1QLGen.HotShareOutOfRange | workloads/n1ql.go:24-28 | with HotDataPercentage 200, which the code does not reject, ten records and DeletedItems 0, the hot branch draws index -9 |
| N1QLGen.ExistingIndexPanics | workloads/n1ql.go:27-30 | for any percentages, the draw panics (NonPositiveBound) exactly when the branch taken draws from an empty part: hot records <= 0 on a hot access, cold records <= 0 otherwise |
| N1QLGen.HotPartEmpty | workloads/n1ql.go:25-28 | one live record at 50% hot data has no hot records, so a hot access panics although a record is live |
| N1QLGen.ExistingIndexRange | workloads/n1ql.go:22-33 | for HotDataPercentage in [0, 100]: no live records means a panic; the draw panics exactly when the chosen part (hot or cold) is empty; the hot branch gives an index in (DeletedItems + cold, currentRecords], the cold branch in (DeletedItems, DeletedItems + cold], so always within (DeletedItems, currentRecords] |
| N1QLGen.ExistingIndexEnds | workloads/n1ql.go:28-30 | the last hot draw gives currentRecords and the first cold draw DeletedItems + 1 |
| N1QLGen.ExistingKeyInRange | workloads/n1ql.go:22-33 | for HotDataPercentage in [0, 100], the key draw panics exactly when the index draw does, and a drawn key is the key of some index in (DeletedItems, currentRecords] |
| N1QLGen.GenerateExistingKey | workloads/n1ql.go:22-33 | the padded key of the drawn index; ExistingKeyInRange states its range |
| N1QLGen.Reversed | workloads/n1ql.go:40-46 | the reverse has the same length and position i holds position len - 1 - i |
| N1QLGen.ReversedInvolution | workloads/n1ql.go:40-46 | reversing twice gives the original back |
| N1QLGen.BuildAlphabet | workloads/n1ql.go:48-50 | the alphabet is 64 lowercase hex characters |
| N1QLGen.NameIsTwoWords | workloads/n1ql.go:52-54 | a name is 13 characters with its only space at position 6, between alphabet[0:6] and alphabet[6:12] |
| N1QLGen.EmailShape | workloads/n1ql.go:56-58 | an email is 17 characters with its only '@' at position 6 and ending in ".com" |
| N1QLGen.BuildName | workloads/n1ql.go:52-54 | alphabet[:6], a space and alphabet[6:12]; NameIsTwoWords and FieldSources state its shape and source |
| N1QLGen.BuildEmail | workloads/n1ql.go:56-58 | alphabet[12:18], '@', alphabet[18:24] and ".com"; EmailShape and FieldSources state its shape and source |
| N1QLGen.BuildCity | workloads/n1ql.go:60-62 | alphabet[24:30]; FieldSources states it comes from Hash(key) |
| N1QLGen.BuildRealm | workloads/n1ql.go:64-66 | alphabet[30:36]; FieldSources states it spans both digests |
| N1QLGen.BuildCountry | workloads/n1ql.go:68-70 | alphabet[42:48]; FieldSources states it comes from Hash(reverse(key)) |
| N1QLGen.BuildCounty | workloads/n1ql.go:72-74 | alphabet[48:54]; FieldSources states it comes from Hash(reverse(key)) |
| N1QLGen.BuildStreet | workloads/n1ql.go:76-78 | alphabet[54:62]; FieldSources states it comes from Hash(reverse(key)) |
| N1QLGen.BuildCoins | workloads/n1ql.go:80-83 | coins are at least 0.1 |
| N1QLGen.CoinsRange | workloads/n1ql.go:80-83 | over hex digits the parsed number is in [0, 65535] and the coins in [0.1, 655.35] |
| N1QLGen.BuildCategory | workloads/n1ql.go:85-88 | the category is in {0, 1, 2} |
| N1QLGen.BuildYear | workloads/n1ql.go:90-93 | the year is in [1985, 2016] for any character, so int16 holds it |
| N1QLGen.YearRange | workloads/n1ql.go:90-93 | over a hex alphabet the year is in [1985, 2000] |
| N1QLGen.RemainderOfIndex | workloads/n1ql.go:96-99 | Go's remainder of a found position is the ordinary remainder; of -1 it is -1, except modulo 1 where it is 0 |
| N1QLGen.StateIndex | workloads/n1ql.go:95-101 | the state row is a valid row of the table or the fallback 56 |
| N1QLGen.StateIndexCases | workloads/n1ql.go:95-109 | a present character gives its first position modulo NUM_STATES; an absent one gives exactly 56, or 0 for a one-row table |
| N1QLGen.EuclideanRemainderHidesFallback | workloads/n1ql.go:96-99 | Go's -1 % n is -1, which the fallback tests for; a Euclidean remainder would be n - 1 and never fire it |
| N1QLGen.BuildState | workloads/n1ql.go:95-101 | the abbreviation in row StateIndex(alphabet, '7'); StateIndexCases states which row |
| N1QLGen.BuildFullState | workloads/n1ql.go:103-109 | the full name in row StateIndex(alphabet, '8'); StateIndexCases states which row |
| N1QLGen.GmtimeOffset | workloads/n1ql.go:111-113 | the offset from the epoch is a whole number of 396-day steps, at most 11 |
| N1QLGen.Running | workloads/n1ql.go:130-138 | the achievement accumulator always stays in [0, 512) |
| N1QLGen.Emitted | workloads/n1ql.go:130-140 | emitted achievements are in [0, 256); after k >= 1 digits at most k - 1 are emitted, since position 0 keeps 256 |
| N1QLGen.Achievements | workloads/n1ql.go:130-140 | at most 15 achievements, each in [0, 256) |
| N1QLGen.AchievementStep | workloads/n1ql.go:134 | from a non-negative accumulator, one step of build_achievements gives a value in [0, 512) |
| N1QLGen.AchievementStepFitsInt16 | workloads/n1ql.go:134 | the int16 products and sums of a step stay below 32768, so nothing wraps |
| N1QLGen.DocumentFieldsFixed | workloads/n1ql.go:142-161 | every document has the same fourteen field names and does not depend on size |
| N1QLGen.DocumentKeys | workloads/n1ql.go:145-160 | the document built from an alphabet has exactly the fourteen field names |
| N1QLGen.GenerateValue | workloads/n1ql.go:142-161 | the document of the key's alphabet, whatever the size; DocumentFieldsFixed and DocumentRanges state its fields and ranges |
| N1QLGen.Document | workloads/n1ql.go:145-160 | the fourteen fields built from one alphabet; DocumentKeys and HexDocumentRanges state its keys and ranges |
| N1QLGen.FieldSources | workloads/n1ql.go:48-78 | name, email and city come from Hash(key) alone; country, county, street and the achievement digits from Hash(reverse(key)) alone; realm spans both |
| N1QLGen.DocumentRanges | workloads/n1ql.go:142-161 | in every document: coins in [0.1, 655.35], year in [1985, 2000], category in {0, 1, 2}, at most 15 achievements below 256, the time offset within 11 steps, a 13-character name and a 17-character ".com" email |
| N1QLGen.HexDocumentRanges | workloads/n1ql.go:145-160 | the same ranges for the document of any 64-digit hex alphabet |
| N1QLGen.HexNumberFields | workloads/n1ql.go:153-154 | the coins and year fields of a hex alphabet's document hold coins in [0.1, 655.35] and a year of at most 2000 |
| N1QLGen.HexTextFields | workloads/n1ql.go:146-147 | the name and email fields of a hex alphabet's document are 13 and 17 characters, the email ending in ".com" |
| N1QLWorkload.Reverse | workloads/n1ql.go:40-46 | swapping from both ends towards the middle yields the reverse of the input |
| N1QLWorkload.BuildAchievements | workloads/n1ql.go:130-140 | the accumulator loop yields exactly the achievements of the alphabet |
| N1QLWorkload.N1QL.constructor | workloads/n1ql.go:12-16 | an N1QL holds its own configuration and DeletedItems, next to the embedded Default |
| N1QLWorkload.N1QL.GenerateKeyForRemoval | workloads/n1ql.go:35-38 | DeletedItems grows by exactly one first, and the key is the padded new value, so removals target old + 1, old + 2, ...; the embedded Default's shadowed counter does not move |
| N1QLWorkload.N1QL.GenerateExistingKey | workloads/n1ql.go:22-33 | the hot/cold draw from the object's fields is GenerateExistingKey, so its key is in (DeletedItems, currentRecords] |

## Left out

- `RunWorkload` (`workloads/default.go:154-177`) is left out. It measures wall-clock time, sleeps and signals a WaitGroup.
- `Something` (`workloads/default.go:97-109`) is left out. It is a goroutine that feeds a channel forever.
- The database clients under `databases/` are left out. Each call's success or failure is an input.
- Concurrency is left out. Several workers share one `State` without locking, so the model is sequential.
- `rand.Seed`, `rand.Perm`, `rand.Intn` and `rand.Int63n` are not modelled as random sources.
  - Their results are inputs.
  - `rand.Perm(100)` is any permutation of 0..99.
  - The re-seeding from the clock is dropped.
- The internals of `Hash`, `RandString` and the `STATES` table are not part of this model.
- 64-bit integer wrap-around is not modelled. Counters, `total_records * HotDataPercentage` and the body length are unbounded integers.
  - The int16 conversions of the N1QL builders are proved never to wrap (`N1QLGen.BuildCategory`, `N1QLGen.BuildYear`, `N1QLGen.AchievementStepFitsInt16`).
- N1QLGen.BuildCoins: coins are a real number, not an IEEE float64, so rounding of `float64(coins)/100.0` is not modelled.
- N1QLGen.GmtimeOffset: only the offset from the epoch is modelled. The calendar conversion of Go's `time` package that turns it into nine int16 fields is left out.
- Strings are sequences of characters. `[]rune(s)` in `reverse` and `range` over a string in `build_achievements` are modelled one character per element, which agrees with Go for the ASCII strings the engine builds.
- `build_achievements` returns a nil slice when nothing is emitted. The model does not distinguish that from an empty sequence.
- GoLib.ParseInt: Go clamps an out-of-range value to the int64 limit and returns ErrRange. The model does not clamp. blurr parses at most four digits (`workloads/n1ql.go:81`, 86, 91, 112, 133), so the clamp is never reached.
- N1QLWorkload.N1QL.constructor: the embedded `Default` is a reference to a separate object, while in Go it is a value inside the struct. The model allows two `N1QL` objects to share one `Default`, which Go does not.
- N1QLGen.ExistingIndexRange: holds only for HotDataPercentage in [0, 100]. The code never checks the configured value, and outside that range the index can leave (DeletedItems, currentRecords]; N1QLGen.HotShareOutOfRange exhibits -9.
- N1QLGen.ExistingKeyInRange: holds only for HotDataPercentage in [0, 100], for the same reason.
- N1QLGen.BuildState: requires a `STATES` table of more than 56 rows, since the code falls back to row 56. The two Go panics of a shorter table are not modelled: `STATES[56]` out of range when NUM_STATES <= 56, and `% 0` when the table is empty.
- N1QLGen.BuildFullState: requires more than 56 rows, as BuildState does, with the same two panics left out.
- The N1QL variant has no batch loop of its own. `DoBatch` is Default's, and it calls Default's generators.
