# QuantumSentinel: verified core

A Dafny model of the parts of QuantumSentinel whose correctness is easy to get wrong and hard to
see from one function: the content-addressed dataset format, the numeric kernels, the two backtest
simulators with their execution model, the two sliding-window limiters, refresh-token families, the
AEAD session's replay window, and the reusable job process. Check it with
`dafny verify dfyconfig.toml`.

## What is modelled

| modules | part of the system |
|---|---|
| `Bytes`, `Orders`, `CanonicalJson`, `Columns`, `Tables`, `TableBuilds`, `Datasets`, `Blobs`, `BlobChecks`, `ByteLayouts` | `backend/services/dataset_format.py`: canonical JSON, typed columns and their bytes, `Table.build`, manifests and ids, the blob codec |
| `Reals`, `NeweyWest`, `HmmForward`, `RollingCorr`, `Ranks`, `Moments` | the numeric kernels of `factor_model.py`, `cpp_ext.py`, `cpp/qs_fast.cpp` and `alpha_research.py`, over exact reals |
| `OrderedMaps`, `RequestLimiter`, `LoginLockout` | the in-memory request limiter of `backend/main.py` and the failed-login lockout of `auth_service.py` |
| `RefreshTokens`, `AeadSession` | refresh-token rotation, and the sequence-number window of `message_protocol.py` |
| `JobProcess` | the worker's child process and its two pipes (`backend/worker.py`) |
| `Portfolios`, `EventBacktest`, `EventStrategies`, `EventOrders`, `EventBooks` | the event-driven simulator, its strategies, its orders and its books |
| `ExecutionModel`, `ExecutionCosts`, `BarBacktest`, `BarOrders`, `BarCurves` | the execution model and the bar-by-bar backtester, its trades and its curves |

Code that changes things step by step is a class or a method with loops here, proved equal to a
function of its inputs or its old state; the results below are about those functions, over every
input or every run. Python exceptions are error values. Numbers are exact reals, except that float64
words, little-endian integers, two's complement and the decimal rounding of the execution model are
modelled bit by bit or digit by digit. Clocks, nonces, hashes of tokens and standard deviations are
inputs.

## Where the code and its description differ

The model follows the code in each case, and a lemma states what happens.

- A signal of direction 0 is documented to liquidate the position. Both sizers give it size zero, so
  it is dropped before that branch (`FlatSignalNeverTrades`).
- Replay of a used refresh token is documented to revoke the family. The expiry and revocation checks
  come first, so replay of a used token that has expired revokes nothing (`RotationEndsFamily` has the
  exact condition, `ExpiredReplayUnnoticed` the run).
- The momentum strategy is commented to rebalance weekly, every five bars. It counts calls, of which every
  bar makes one per ticker, so any five bars hold as many rankings as there are tickers
  (`MomentumRanksByCalls`).
- `check_gap` is documented to list the missing numbers up to the received one. Numbers below the
  greatest accepted one are never listed (`GapsReported`, `GapBelowUnreported`).
- `JobProcess.run` pairs results with jobs exactly as long as no `on_tick` raises (`RunPairs`). The worker
  catches such an exception and goes on with the same child, from which every later result is one call
  late (`RaiseLeavesOwing`, `ResultsStayLate`, `OwingBreaksPairing`).
- A locked key is told to retry after zero seconds in the last second of its lock, because the wait is
  rounded down (`RetryAfterZeroExactly`, `RetryAfterMayBeZero`).
- The decoder accepts columns the encoder never writes: null rows that are not all zero
  (`ReencodedExactly`, `DecoderAcceptsMore`).
- A negative average volume turns into a positive fill larger than the order (`NegativeVolumeOverfills`;
  `OverfillsExactly` and `SellWithinPositionExactly` have the exact conditions).
- The native rolling correlation refuses a matrix without columns, which the NumPy fallback accepts.
  On everything else the two agree, although their guards against division fall back differently
  (`KernelsAgree`).
- The native forward pass refuses a model without states, which the NumPy form accepts; on all others they agree.
- The product of the HMM scales is the likelihood exactly when the last scale did not hit its floor;
  floors hit earlier do no harm (`ScalesGiveLikelihood`).

## Model

| member | source | states |
|---|---|---|
| Bytes.Utf8RoundTrip | backend/services/dataset_format.py:360-377 | Decoding the UTF-8 of any valid text gives the text back. |
| Bytes.Utf8DecodeEncodes | backend/services/dataset_format.py:562-579 | Strict decoding accepts only what encoding writes: no overlong forms, no surrogates, nothing out of range. |
| Bytes.SignedRoundTrip | backend/services/dataset_format.py:65-70 | Every integer of a signed little-endian field survives being written and read. |
| Orders.StrictlySortedUnique | backend/services/dataset_format.py:343-347 | A list sorted strictly by a key is determined by the set of its elements. |
| CanonicalJson.CanonicalRoundTrip | backend/services/dataset_format.py:85-112 | Parsing the canonical JSON of any accepted value gives that value back with its keys sorted at every depth, and nothing is left over. |
| CanonicalJson.CanonicalInjective | backend/services/dataset_format.py:85-92 | Two accepted values have the same canonical bytes exactly when they are equal up to the order of object keys. |
| CanonicalJson.SortedLookup | backend/services/dataset_format.py:88-89 | Sorting an object's keys changes no lookup. |
| CanonicalJson.KeyOrderIrrelevant | backend/services/dataset_format.py:88-89 | Objects with the same fields inserted in different orders have the same canonical form. |
| Columns.EncodeTextColumn | backend/services/dataset_format.py:360-377 | The batches a text column is encoded in join to the concatenation of its encoded rows, wherever the batches are cut. |
| Columns.EncodeTextRow | backend/services/dataset_format.py:371-375 | A row is the validity byte if the column is nullable, the length and the text, or a zero length for a null. |
| Columns.ParseUtf8Row | backend/services/dataset_format.py:564-576 | One row at an offset is read as the row that starts there, with every failure reported as such. |
| Columns.ParseUtf8 | backend/services/dataset_format.py:562-579 | The single pass with a moving offset reads exactly the rows that follow one another and end at the last byte. |
| Columns.RecordRoundTrip | backend/services/dataset_format.py:378-388 | Every valid fixed-width cell, null or not, is read back from its record. |
| Columns.TextRoundTrip | backend/services/dataset_format.py:371-375 | Every valid text cell is read back from its row whatever bytes follow, and the row says how long it is. |
| Columns.ColumnRoundTrip | backend/services/dataset_format.py:539-579 | For every column of every type, decoding its encoding gives its cells back and uses every byte. |
| Columns.ColumnInjective | backend/services/dataset_format.py:21-31 | Columns of one type and length with the same bytes have the same cells, nulls included. |
| Columns.DecoderAcceptsMore | backend/services/dataset_format.py:547-558 | The converse fails: a null whose value bytes are not zero decodes, though it is never written. |
| Columns.RowWritten | backend/services/dataset_format.py:547-576 | For either layout, the row a valid cell was read from is that cell's encoding exactly when it is not a null or is all zero bytes. |
| Columns.ReencodedExactly | backend/services/dataset_format.py:539-579 | For every column and all bytes that are read as valid cells, encoding the cells gives the bytes back exactly when every null row is all zero. |
| Columns.WrittenExactly | backend/services/dataset_format.py:539-579 | Of all the bytes the decoder accepts, the encoder writes exactly those that hold valid cells and whose null rows are all zero. |
| Tables.BuildSorts | backend/services/dataset_format.py:330-355 | A built table is strictly increasing in its key, and its rows are a permutation of the normalised input rows; `TableBuilds` says what normalising does to each cell. |
| Tables.BuildRefusesDuplicates | backend/services/dataset_format.py:343-350 | Among inputs whose columns are acceptable, exactly those with two rows of equal key are refused, with that error. |
| Tables.BuildIgnoresRowOrder | backend/services/dataset_format.py:330-355 | Every reordering of the input rows builds the same table or fails with the same error. |
| Tables.BuildRebuilds | backend/services/dataset_format.py:330-355 | Building from the columns of a built table gives that table. |
| TableBuilds.SchemaExactly | backend/services/dataset_format.py:136-147 | A schema is accepted exactly when its names are names, it has as many different column names as columns, and its key is of different columns, at least one, none nullable. |
| TableBuilds.BarsValid | backend/services/dataset_format.py:157-165 | The declared schema of daily bars is one of them. |
| TableBuilds.Specials | backend/services/dataset_format.py:214-218 | The words treated as NaN, infinite and zero are those of that magnitude, either sign. |
| TableBuilds.CellBuilds | backend/services/dataset_format.py:200-312 | Per kind of cell: infinities are refused, and NaN where the column is not nullable; an accepted NaN is stored as missing, negative zero as zero, and every other number, date, timestamp and text as itself. |
| TableBuilds.BuildStores | backend/services/dataset_format.py:330-355 | A built table holds, in every column, what the given cells become under one reordering of the rows; where no cell is a NaN or a negative zero its rows are exactly the given rows in that order. |
| TableBuilds.BuildOrders | backend/services/dataset_format.py:341-354 | Any two rows of a built table differ in the key, and the earlier has the lesser cell at the first key column where they do: texts by code point, dates and timestamps by time, numbers by their bits as a signed integer. |
| TableBuilds.BuildRefusesExactly | backend/services/dataset_format.py:331-349 | Which inputs are refused and with which error, told from the given cells: wrong columns, a cell its column does not take, unequal lengths, a gap, and two rows with the same key, zeros of either sign being the same. |
| Datasets.TableHashDefined | backend/services/dataset_format.py:396-403 | A table has a hash exactly when it has at most 2^53 - 1 rows. |
| Datasets.IdDefined | backend/services/dataset_format.py:446-452 | A dataset has an id exactly when none of its tables has more rows than that. |
| Datasets.SameHashSameTable | backend/services/dataset_format.py:396-403 | Under an injective hash, tables of one name with the same hash have the same schema and rows. |
| Datasets.TableManifestInjective | backend/services/dataset_format.py:396-400 | A table's manifest, up to key order, tells everything about the table but its name. |
| Datasets.IdentityInjective | backend/services/dataset_format.py:426-427 | Identity facts are told apart by their JSON objects, up to key order. |
| Datasets.SameIdSameContent | backend/services/dataset_format.py:446-452 | Under an injective hash, two datasets with the same id have the same identity facts and the same tables, schemas and rows included. |
| Datasets.IdIgnoresTableOrder | backend/services/dataset_format.py:446-452 | Datasets with the same identity and the same tables in any order have the same id. |
| Blobs.EncodeTable | backend/services/dataset_format.py:474-483 | The inner loop writes one table's header entry, lengths included, and its columns' bytes. |
| Blobs.EncodeTables | backend/services/dataset_format.py:470-483 | The outer loop accumulates the header entries and the payload of every table, in order. |
| Blobs.EncodeBlob | backend/services/dataset_format.py:470-488 | A blob is the magic, the header's length, the canonical header and the compressed payload; it raises exactly when there is no id or no canonical header. |
| Blobs.DecodeColumns | backend/services/dataset_format.py:526-532 | The inner loop cuts the payload at the lengths the header gives and parses each slice, failing at the first that does not fit. |
| Blobs.DecodeTable | backend/services/dataset_format.py:524-533 | One table is rebuilt from its header entry, through the schema checks and the table checks. |
| Blobs.DecodeTables | backend/services/dataset_format.py:522-535 | The offset moves over the payload table after table. |
| Blobs.DecodeBlob | backend/services/dataset_format.py:491-536 | Whatever the bytes, success means a well-formed dataset whose id is the expected one. |
| Blobs.BlobRoundTrip | backend/services/dataset_format.py:470-536 | Decoding a dataset's own blob with its own id gives the dataset back, tables in order, exactly when the header is at most 1 MiB and the payload is within the read limit. |
| Blobs.DecodedContent | backend/services/dataset_format.py:491-502 | Whatever bytes decode against the id of a dataset hold the content of that dataset. |
| Blobs.RebuiltValid | backend/services/dataset_format.py:520-536 | Whatever the header and payload say, what is rebuilt passed every construction check. |
| ByteLayouts.CellLayout | backend/services/dataset_format.py:360-388 | Every byte of a cell: the validity byte of a nullable column, then the word, the date or timestamp in two's complement lowest byte first, or the length and the UTF-8, and zeros for a null. |
| ByteLayouts.RecordRead | backend/services/dataset_format.py:539-559 | What any bytes of a fixed-width record are read as: refused only for the validity byte; missing where that says so, for a NaN and for the least timestamp; else the value with just these bytes. |
| ByteLayouts.ScalarLayout | backend/services/dataset_format.py:371-375 | A code point is spelled in as few bytes as hold it, the first telling how many, six bits in each of the others. |
| ByteLayouts.AcceptedExactly | backend/services/dataset_format.py:85-112 | Canonical JSON accepts exactly integers of at most 2^53 - 1 either way, texts without surrogates, ASCII keys, and lists and objects of such values at any depth. |
| ByteLayouts.BlobLayout | backend/services/dataset_format.py:485-488 | A blob is eight fixed bytes, the header's length in eight bytes lowest first, the header and the compressed payload. |
| BlobChecks.OpensExactly | backend/services/dataset_format.py:505-521 | A blob is opened exactly when it has the magic, a header of at most 1 MiB that is inside it and parses, the format name, and a payload of the promised length within the read limit; and then to that header and payload. |
| BlobChecks.DecodedMeans | backend/services/dataset_format.py:491-536 | Whatever decodes was cut out of the blob: it opens, its identity and its tables, at least one and of different names, are those the header names, the tables lie in the payload one after the other, column after column, from its first byte to its last, and the content has the expected id. |
| Blobs.HeaderDictlike | backend/services/dataset_format.py:485-487 | No key repeats at any depth of a dataset's header, so a reader that returns dicts can return it. |
| Blobs.FaithfulExists | backend/services/dataset_format.py:512-520 | What is asked of the compressor, the JSON reader and the hash can all be met at once, by a reader that only ever returns dicts. |
| NeweyWest.StandardError | backend/services/factor_model.py:274-288 | The result is the non-negative root of the clamped Bartlett-weighted variance over n, of the sample variance over two for two values, and 1 for fewer. |
| NeweyWest.VarianceIsSumOfSquares | backend/services/factor_model.py:279-286 | For every series and lag count L, (L+1) times n times the variance before its clamp is the sum of the squared moving sums over L+1 zero-padded residuals. |
| NeweyWest.VarianceNonNegative | backend/services/factor_model.py:279-287 | So the variance is never negative and the clamp never hides a negative one. |
| Moments.ErrorExactly | backend/services/factor_model.py:274-288 | The squared error of two values is the square of half their difference; of more it is the variance, floored at 1e-12, over their number, that variance being the sum of squared moving sums of the values moved to add up to zero, over their number and one more than the lags. |
| HmmForward.NativeForward | cpp/qs_fast.cpp:163-250 | The native loops accept exactly the well-shaped models with a state and fill alpha, the scales and the log-likelihood with the values of the recurrence. |
| HmmForward.NativeStep | cpp/qs_fast.cpp:230-242 | One pass of the time loop completes one row and keeps the earlier ones. |
| HmmForward.NativeRow | cpp/qs_fast.cpp:231-238 | The scratch row and its running sum are the unscaled row and its sum. |
| HmmForward.SumLogs | cpp/qs_fast.cpp:244-247 | The logarithms of all the scales are added up. |
| HmmForward.NumpyForward | backend/services/cpp_ext.py:98-122 | The NumPy form computes the same alpha, scales and log-likelihood as the native one, and accepts a model without states besides. |
| HmmForward.SumFlooredLogs | backend/services/cpp_ext.py:121 | Flooring the scales once more before their logarithms are added up changes nothing. |
| HmmForward.AllPathsExact | backend/services/cpp_ext.py:98-122 | The reference sum ranges over every one of the K^T state paths exactly once. |
| HmmForward.AlphaTimesScales | backend/services/cpp_ext.py:112-119 | Each alpha times the scales so far is the total weight of the paths that end in that state, whether or not a floor was hit. |
| HmmForward.RowSumsToOne | backend/services/cpp_ext.py:116-119 | A row of alpha sums to 1 exactly when its scale did not hit the floor. |
| HmmForward.ScalesGiveLikelihood | backend/services/cpp_ext.py:98-122 | The product of the scales is the sum over all state paths of initial, transition and emission products exactly when the last scale did not hit the floor. |
| HmmForward.LogLikelihoodExactly | cpp/qs_fast.cpp:244-249 | The sum of logarithms both kernels return is the logarithm of that path sum, where it is positive, exactly when the last scale did not hit the floor. |
| RollingCorr.NativeRollingCorr | cpp/qs_fast.cpp:50-148 | The native kernel accepts exactly windows from 2 to T on at least one column, and fills every bar's matrix. |
| RollingCorr.NativeCovariance | cpp/qs_fast.cpp:92-125 | Accumulating the upper triangle row by row and mirroring it gives every covariance. |
| RollingCorr.Mirror | cpp/qs_fast.cpp:121-125 | In place, the upper triangle is divided once each and copied below the diagonal. |
| RollingCorr.NativeBar | cpp/qs_fast.cpp:127-144 | One bar's matrix is written and the others are left alone. |
| RollingCorr.ClampIdle | cpp/qs_fast.cpp:127-143 | Off the diagonal neither the division guard nor the clamp ever acts: an entry is the covariance over the product of the floored deviations. |
| RollingCorr.KernelsAgree | backend/services/cpp_ext.py:85-93 | The native and the NumPy entries are equal, though their guards fall back to different values. |
| RollingCorr.CorrelationShape | backend/services/cpp_ext.py:167-184 | Every matrix is symmetric, has a unit diagonal and entries from -1 to 1, before and after the window fills. |
| Moments.CorrelationExactly | backend/services/cpp_ext.py:77-95 | Before the window is full a matrix is the unit matrix; after that an entry off the diagonal, times the roots of the two floored variances, is the covariance of the two centred columns, all with a divisor of one less than the window. |
| RollingCorr.ShiftedColumns | cpp/qs_fast.cpp:82-144 | Two columns a constant apart correlate fully once their variance is above the floor. |
| Ranks.Rank | backend/services/alpha_research.py:29-41 | For whichever order the sort leaves ties in, each rank is the number of smaller values plus the middle of the equal ones. |
| Ranks.InitialRanks | backend/services/alpha_research.py:31-34 | Ranks are scattered through the sort order. |
| Ranks.AverageGroup | backend/services/alpha_research.py:37-40 | One group of ties is averaged and no other rank moves. |
| Ranks.RankTotal | backend/services/alpha_research.py:29-41 | Ranks always add up to n(n+1)/2, whatever the ties. |
| Ranks.RanksSeeOnlyOrder | backend/services/alpha_research.py:29-41 | Inputs that compare alike have the same ranks. |
| Ranks.CauchySchwarz | backend/services/alpha_research.py:65-70 | The squared inner product of two vectors is at most the product of their squared lengths. |
| Ranks.SpearmanBounded | backend/services/alpha_research.py:44-70 | The squared numerator of the coefficient never exceeds its squared denominator, so the coefficient lies in [-1, 1]. |
| Moments.SpearmanExactly | backend/services/alpha_research.py:44-70 | The coefficient is zero for fewer than four values and below a denominator of 1e-12, else the sum of products of the centred ranks over the root of the product of their sums of squares. |
| RequestLimiter.Limiter.Call | backend/main.py:511-520 | One request changes the map of buckets as the specification says, and is refused when its count is over the limit. |
| RequestLimiter.SweepIsExact | backend/main.py:403-407 | Popping from the front removes exactly the wholly expired buckets, wherever they stand. |
| RequestLimiter.StateTidy | backend/main.py:390-417 | In every reachable state buckets are in order of last request and at most 20,000. |
| RequestLimiter.BucketIsKept | backend/main.py:401-417 | In every reachable state each bucket is the latest part of its key's history since its last eviction, and what it dropped is out of the window. |
| RequestLimiter.RequestCounts | backend/main.py:511-516 | A request is counted against its own key's requests of the last 60 seconds since its last eviction. |
| RequestLimiter.EvictionNeedsCrowd | backend/main.py:409-416 | A key is evicted only when 20,000 other keys made requests since its last one. |
| RequestLimiter.RefusedExactly | backend/main.py:497-520 | Unless its key was crowded out meanwhile, a request is refused exactly when that key already made `limit` requests, refused ones included, in the last 60 seconds. |
| RequestLimiter.RefusedByRoute | backend/main.py:496-520 | With the routes' limits: an uncrowded key of an authentication route is refused exactly from its eleventh request in 60 seconds on, any other exactly from its 241st. |
| LoginLockout.Limiter.ExpireState | backend/services/auth_service.py:121-132 | Both maps lose their expired front entries and nothing else. |
| LoginLockout.Limiter.RecentFailures | backend/services/auth_service.py:135-141 | A key's failures are cut to the window in place. |
| LoginLockout.Limiter.CheckRateLimit | backend/services/auth_service.py:144-154 | The answer and the wait are those of the swept state. |
| LoginLockout.Limiter.RecordFailedAttempt | backend/services/auth_service.py:157-174 | A failure is added, and the fifth in the window turns into a lock. |
| LoginLockout.Limiter.ClearFailedAttempts | backend/services/auth_service.py:177-182 | A success forgets the key's failures and its lock. |
| LoginLockout.ExpireIsExact | backend/services/auth_service.py:121-132 | Expiry from the front drops exactly the expired entries, wherever they stand. |
| LoginLockout.RunTidy | backend/services/auth_service.py:109-114 | In every reachable state both maps are in order, failures by latest attempt and locks by expiry. |
| LoginLockout.RunTells | backend/services/auth_service.py:113-182 | In every reachable state the maps tell the same as the full history of each key. |
| LoginLockout.LockedExactly | backend/services/auth_service.py:144-154 | A key is reported locked exactly when a lock from its fifth failure within 900 seconds, counted since its last clear or lock, is under 900 seconds old and uncleared. |
| LoginLockout.LocksExactly | backend/services/auth_service.py:157-174 | The failures counted with a new one are exactly those of the key's history since its last clear or lock that are in the window. |
| LoginLockout.CheckPrunes | backend/services/auth_service.py:135-154 | A check of a key that is not locked leaves just its failures within the window, and no entry where there are none. |
| LoginLockout.RetryAfterZeroExactly | backend/services/auth_service.py:144-152 | After any history, a locked key's lock ends 900 seconds after its last lock, and the key is told to wait zero seconds exactly in the last second of it. |
| LoginLockout.RetryAfterMayBeZero | backend/services/auth_service.py:144-174 | Five failures a second apart lead there: half a second before the lock ends the key is locked and told zero. |
| RefreshTokens.TokenStore.CreateToken | backend/services/auth_service.py:304-323 | A new token opens a family of its own, unless its hash is taken. |
| RefreshTokens.TokenStore.Rotate | backend/services/auth_service.py:326-400 | One rotation: the outcome and the new table, in the code's order of checks. |
| RefreshTokens.TokenStore.RevokeAll | backend/services/auth_service.py:427-435 | Exactly the tokens of the family are revoked. |
| RefreshTokens.TokenStore.Revoke | backend/services/auth_service.py:403-411 | Every row with the presented hash is revoked and otherwise as it was, every other row is as it was, none is added, and the answer says whether there is one. |
| RefreshTokens.TokenStore.RevokeAllOf | backend/services/auth_service.py:414-424 | Exactly the user's tokens are revoked, and those that were live are counted. |
| RefreshTokens.RotatesExactly | backend/services/auth_service.py:326-400 | A token can be rotated exactly when it is known, neither expired, revoked nor used, its family is within its absolute lifetime, and the new hash is free; then it is marked used, a fresh token of its user and family is added, and nothing else changes. |
| RefreshTokens.CreatesExactly | backend/services/auth_service.py:304-323 | A login adds just its own token, unused and unrevoked, and is refused exactly when the hash is taken. |
| RefreshTokens.LiveRowsCounted | backend/services/auth_service.py:414-424 | The number answered by a user-wide revocation is that of the rows of the user that were not revoked. |
| RefreshTokens.RunKeepsSound | backend/services/auth_service.py:304-435 | Every run of creations, rotations and revocations keeps the token table's invariant. |
| RefreshTokens.OneLiveToken | backend/services/auth_service.py:334-339 | After any run at most one token of a family is neither used nor revoked. |
| RefreshTokens.UnusedIsLatest | backend/services/auth_service.py:382-398 | After any run the unused token of a family is its latest. |
| RefreshTokens.AbsoluteLifetime | backend/services/auth_service.py:366-380 | After any run no token was minted later than its family's start plus the absolute lifetime, and none expires later than that plus one sliding period. |
| RefreshTokens.RotationEndsFamily | backend/services/auth_service.py:349-380 | Presenting a token ends its live family if and only if the token is unexpired, unrevoked and either used already or of a family past its absolute lifetime. |
| RefreshTokens.DeadStaysDead | backend/services/auth_service.py:326-435 | No call revives a token of a dead family or mints another for it. |
| RefreshTokens.DeadForGood | backend/services/auth_service.py:326-435 | A dead family is dead after every further run. |
| RefreshTokens.RevokedStays | backend/services/auth_service.py:304-435 | No call brings a revoked token back. |
| RefreshTokens.RevokedForGood | backend/services/auth_service.py:403-411 | After a known token is revoked, no further run of any calls lets it be rotated. |
| RefreshTokens.LoggedOutForGood | backend/services/auth_service.py:414-424 | After a user is logged out everywhere, no further run lets any token the user had be rotated. |
| RefreshTokens.ReplayEndsFamily | backend/services/auth_service.py:359-364 | Replaying a used, unexpired, unrevoked token ends the family for good. |
| RefreshTokens.ExpiredReplayUnnoticed | backend/services/auth_service.py:349-364 | A run in which a used token is replayed after its expiry and the family's newer token goes on to be rotated. |
| AeadSession.Session.Encrypt | backend/crypto/message_protocol.py:79-93 | Each message takes the next number, and the number is spent even where packing it fails. |
| AeadSession.Session.Decrypt | backend/crypto/message_protocol.py:95-114 | One envelope's verdict and the window after it, pruning included. |
| AeadSession.Session.CheckGap | backend/crypto/message_protocol.py:116-121 | The list reported is computed from the window and changes nothing. |
| AeadSession.AadNamesSequence | backend/crypto/message_protocol.py:123-125 | Equal associated data means the same sequence number. |
| AeadSession.TrackingBounded | backend/crypto/message_protocol.py:110-113 | After every call of every run at most 2000 numbers are tracked. |
| AeadSession.AcceptedExactly | backend/crypto/message_protocol.py:95-114 | After any run an envelope is accepted exactly when it is authentic, its number fits 64 bits, was never accepted in the whole run and is at most 1000 below the greatest accepted: pruning changes no verdict. |
| AeadSession.NoReplay | backend/crypto/message_protocol.py:95-114 | Over any run no sequence number is accepted twice. |
| AeadSession.NoCiphertextTwice | backend/crypto/message_protocol.py:84-86 | With a cipher that opens a ciphertext under one associated data only, no run accepts the same nonce and ciphertext twice, whatever numbers they are sent under. |
| AeadSession.SealedArrives | backend/crypto/message_protocol.py:79-114 | With a cipher that opens what it sealed, a sealed message opens to its plaintext the first time it arrives within the window, in any order. |
| AeadSession.GapsReported | backend/crypto/message_protocol.py:116-121 | Exactly the numbers between the greatest accepted and the received one are reported; that is all missing numbers if and only if none below the greatest is missing. |
| AeadSession.GapBelowUnreported | backend/crypto/message_protocol.py:95-121 | A run that accepts 0 and then 2 reports 3 as missing below 4, and not 1. |
| JobProcess.Process.RunJob | backend/worker.py:174-219 | One call of `run`, against any behaviour of the child and any clock: its outcome, the parent it leaves and the deadline it used. |
| JobProcess.LoopPairs | backend/worker.py:190-214 | The polling loop returns a result of its own job only; it leaves no child that owes an answer exactly when no tick raised, and after a raise a live child that owes just that job. |
| JobProcess.RunPairs | backend/worker.py:174-219 | From no child or an idle one with empty pipes, any result is the call's own, and the call ends that way if and only if no tick raised; after a raise the live child owes exactly this job. |
| JobProcess.AllPaired | backend/worker.py:174-219 | Over any sequence of calls whose ticks do not raise, every result was computed from the job it is returned for. |
| JobProcess.LoopAnswersOldest | backend/worker.py:190-214 | Whatever the child and the clock do, a result is of the oldest job the child owes and leaves it owing the rest; a raise leaves it owing all, and any other end leaves no child. |
| JobProcess.ResultsStayLate | backend/worker.py:174-219 | A child left owing one job gives any next call that job's result, over all behaviours, and then owes the call's own: every later result is one call late. |
| JobProcess.OwingBreaksPairing | backend/worker.py:183-202 | It does happen: for any child left owing, booting, idle or busy, there is a behaviour under which the next call returns the other job's result. |
| JobProcess.RaiseLeavesOwing | backend/worker.py:211 | From any parent that is clean, a tick that raises before the answer leaves a live child that owes the job. |
| JobProcess.LimitStartsWhenReady | backend/worker.py:183-198 | A new child's job has no deadline until the child is heard to be ready, and then the whole limit from that moment. |
| JobProcess.TimeoutAfterDeadline | backend/worker.py:208-210 | A call times out only at a clock reading at or after its deadline. |
| JobProcess.NewProcessTimesOutLate | backend/worker.py:183-210 | A job sent to a new process times out no sooner than its whole limit after readiness, however long the process took to start. |
| JobProcess.LoopEndsExactly | backend/worker.py:190-214 | Over all scripts the loop ends at the first turn at which a result is heard, the silent child is gone, its deadline or the boot limit has come, or the tick stops or raises, whichever the turn meets first; and as that turn says. |
| JobProcess.RunEndsExactly | backend/worker.py:174-219 | Every call, over all behaviours of child and clock: it times out exactly when the first turn that ends it is silent, of a living child, at or after the deadline; likewise for a result, a crash, the 120 seconds for starting, and a tick that stops or raises. A call still running has had no silent turn at or after its deadline. |
| JobProcess.PayloadDelivered | backend/worker.py:189-202 | A child that boots if it has to, takes its job and finishes it is heard with just that payload. |
| JobProcess.DeathCrashes | backend/worker.py:203-204 | A child that dies without a word crashes the call. |
| JobProcess.DeadIsReplaced | backend/worker.py:184-186 | A child that died between two calls makes no difference to the second: it starts another. |
| Portfolios.Portfolio.ProcessFill | backend/services/event_simulator.py:172-223 | One fill: position, average cost in every case of opening, extending, closing and flipping, cash, totals and log. |
| Portfolios.Portfolio.UpdateCost | backend/services/event_simulator.py:196-205 | The average cost after a fill, in every case of opening, extending, closing and flipping; the other tickers' costs stay. |
| Portfolios.Portfolio.AccrueBorrow | backend/services/event_simulator.py:251-259 | The day's borrow on every short position leaves cash and is recorded. |
| Portfolios.Portfolio.UpdateEquity | backend/services/event_simulator.py:225-239 | The curve and the returns get the marked value. |
| Portfolios.TermMoves | backend/services/event_simulator.py:183-205 | In every case, opening, extending, closing and flipping, a position's cost term moves by the cash paid plus the profit realised. |
| Portfolios.FillConserves | backend/services/event_simulator.py:172-214 | A fill changes cash plus the cost of the open positions by the profit it realises, less commission and borrow. |
| Portfolios.FillKeepsCosted | backend/services/event_simulator.py:183-205 | Exactly the open positions have an average cost, after every fill. |
| Portfolios.RunConserves | backend/services/event_simulator.py:172-259 | Over any sequence of fills, borrow charges and marks: cash plus cost of the open positions is the initial capital plus realised profit, less commission and borrow. |
| Portfolios.RunLogged | backend/services/event_simulator.py:178-223 | Over any run the commission and slippage totals are the sums over the trade log, and each position is the sum of its logged fills. |
| EventBacktest.RunEventBacktest | backend/services/event_simulator.py:446-633 | The bar loop refuses exactly unaligned or missing arrays and otherwise reaches the specified portfolio. |
| EventBacktest.Record | backend/services/event_simulator.py:587-590 | Every listed ticker's history gets the bar's close, once for each time it is listed. |
| EventBacktest.FillPending | backend/services/event_simulator.py:530-585 | The pending orders are filled, skipped or capped in order. |
| EventBacktest.GatherSignals | backend/services/event_simulator.py:592-599 | The strategy is asked about every listed ticker in turn, each time with the state it was left in. |
| EventBacktest.StageOrders | backend/services/event_simulator.py:601-630 | The signals are turned into orders for the next bar, in order. |
| EventOrders.SizeIsWorth | backend/services/event_simulator.py:412-439 | A size times its price is the direction times the equity times the fraction times the strength, or, for a volatility target, times the smaller of a quarter and the target over the volatility, at most 5; nothing without a price or enough moving returns. |
| EventOrders.StagedExactly | backend/services/event_simulator.py:603-630 | A signal becomes an order exactly when it is for one side at a positive price and what it calls for is at least a ten-thousandth of a share; the order is for the signalled ticker, at this bar, and worth exactly that. |
| EventOrders.SignalsInTurn | backend/services/event_simulator.py:593-599 | A bar's signals are the strategy's answers for the listed tickers in turn. |
| EventOrders.AllStagedExactly | backend/services/event_simulator.py:603-630 | The orders staged are those of exactly the signals that call for one, in their order. |
| EventOrders.PendingExactly | backend/services/event_simulator.py:592-630 | So for every bar of every simulation, sized by the equity recorded before the bar's own mark and priced at its close. |
| EventOrders.FillsExactly | backend/services/event_simulator.py:531-583 | An order fills exactly when it has a positive price, the gross exposure it asks for is within the leverage limit, and more than a millionth of a share may trade; and then all of it, or the position where it would go short and may not. |
| EventOrders.FilledPrice | backend/services/event_simulator.py:111-124 | A buy pays, and a sale gives up, the spread in basis points and the impact in basis points per percent of volatility. |
| EventOrders.FillsLogged | backend/services/event_simulator.py:529-585 | At every bar of every simulation the log grows by the fills of the orders that were pending, in their order, each asked of the book that the ones before it left. |
| EventBacktest.NoLookAhead | backend/services/event_simulator.py:520-633 | Two panels that agree on bars 0..t give the same cash, positions, cost bases, fills, pending orders and equity curve through bar t, for any causal strategy. |
| EventBacktest.SeriesCausal | backend/services/strategy_signals.py:75-88 | Element t of the moving-average series depends only on the closes up to t. |
| EventBacktest.CrossoverCausal | backend/services/event_simulator.py:288-324 | The crossover strategy is causal although it precomputes its series from the whole array. |
| EventStrategies.CrossesExactly | backend/services/strategy_signals.py:75-88 | The series is 1 exactly where the fast mean comes to lie above the slow one, -1 exactly where it comes to lie below, and 0 elsewhere and before both windows are full. |
| EventStrategies.CrossoverAnswers | backend/services/event_simulator.py:301-324 | The strategy buys exactly at the ones of its ticker's series and sells exactly at the minus ones, at full strength. |
| EventStrategies.UnpreparedAgrees | backend/services/event_simulator.py:307-314 | Without the prepared series the answer is the same, although it is computed from the last few closes only. |
| EventBacktest.HistoryOnlyCausal | backend/services/event_simulator.py:278-285 | Any strategy that answers from the history it is handed, whatever panel it was prepared with, is causal. |
| EventStrategies.MomentumCausal | backend/services/event_simulator.py:337-372 | Cross-sectional momentum answers from the history and its counter alone, and so is causal. |
| EventStrategies.MomentumTakesExtremes | backend/services/event_simulator.py:345-372 | The ranking is of all scored tickers; a ticker on the longer side of another never has a lower score, and either side keeps to its third of the ranking. |
| EventStrategies.ScoresExactly | backend/services/event_simulator.py:344-349 | A ticker is scored exactly when it has enough closes, with what it gained over the lookback. |
| EventStrategies.SidesExactly | backend/services/event_simulator.py:354-371 | The first of the ranking are bought and the last sold, as many as asked for up to a third of it, with their scores as strength; the others get a flat signal. |
| EventStrategies.InsertedAt | backend/services/event_simulator.py:354 | The ranking is stable: a score goes after all that are not lower. |
| EventStrategies.MomentumRanksByCalls | backend/services/event_simulator.py:339-342 | At every bar of every simulation the signals are the ranking's, as often as a multiple of five calls falls in the bar; any five bars hold as many rankings as tickers are listed. |
| EventStrategies.MeanReversionCausal | backend/services/event_simulator.py:382-405 | Mean reversion answers from the history alone, and so is causal. |
| EventStrategies.MeanReversionByBands | backend/services/event_simulator.py:384-405 | Once the window is full and not flat: buy exactly below the lower Bollinger band, sell exactly above the upper one, flat exactly between them within half a deviation of the mean, and at most one signal. |
| EventBacktest.ReturnsCompound | backend/services/event_simulator.py:609-613 | Each return belongs to the price it is divided by: compounded, the returns lead from the first price to the last. |
| EventBacktest.SlippageIsInPrice | backend/services/event_simulator.py:117-132 | The slippage a fill reports is exactly what its price adds to the open, for buys and sells, so it is paid once. |
| EventBacktest.SplittingNeverSaves | backend/services/event_simulator.py:107-148 | Splitting an order in two of the same side never costs less cash, and at most one minimum commission more; reported slippage adds up. |
| EventBacktest.VolatilityTargetBounded | backend/services/event_simulator.py:430-439 | A volatility-targeted order is worth at most a quarter of the equity and goes the signal's way. |
| EventBacktest.FlatSignalNeverTrades | backend/services/event_simulator.py:603-630 | A signal of direction 0 never becomes an order. |
| EventBacktest.ExposureBounded | backend/services/event_simulator.py:530-585 | After an executed fill, capped or not, gross exposure at current prices is within the leverage limit (plus 1e-9) times the last recorded equity, floored at 1e-9. |
| EventBacktest.ExposureThroughout | backend/services/event_simulator.py:520-585 | The same for every order of every bar of every simulation, whatever filled before it at that bar. |
| EventBacktest.NeverShort | backend/services/event_simulator.py:565-580 | With short sales disabled no position is negative after any number of bars. |
| EventBacktest.SimulationIsRun | backend/services/event_simulator.py:520-633 | Every book a simulation reaches comes from a sequence of fills, borrow charges and marks. |
| EventBacktest.SimulationConserves | backend/services/event_simulator.py:520-633 | At every bar cash plus the cost of the open positions is the initial capital plus realised profit, less commission and borrow. |
| EventBooks.EquityIsProfit | backend/services/event_simulator.py:225-239 | Every recorded equity is the initial capital plus realised profit plus what the open positions have gained at the marked prices, less commission and borrow. |
| EventBooks.SimulationMarks | backend/services/event_simulator.py:632-633 | Every bar of every simulation adds one equity and one return, and the return explains the step. |
| EventBooks.YearOfBorrow | backend/services/event_simulator.py:251-259 | 252 days of borrow at the same prices are the annual rate on the value of the short positions. |
| EventBooks.HistoryIsPast | backend/services/event_simulator.py:587-590 | Before every bar the history of a ticker listed once is its closes at the bars before, no more. |
| ExecutionModel.RoundedBelow | backend/services/execution_model.py:346-348 | Rounding to six digits never passes a bound that has six digits itself. |
| ExecutionModel.VolumeStageBounded | backend/services/execution_model.py:75-84 | The volume stage stays within the order exactly when the cap is at least minus the order, and within the cap exactly when the cap is not negative. |
| ExecutionModel.OverfillsExactly | backend/services/execution_model.py:286-343 | A filled order stays within what was asked for, before rounding, exactly when the cap is at least minus that or a buyer's cash buys no more; and within the cap exactly when the cap is not negative. |
| ExecutionModel.FillWithinLimits | backend/services/execution_model.py:286-354 | Where the volume cap is not negative, no fill exceeds the order or the cap by more than half a millionth of a share, and no order for whole millionths is exceeded. |
| ExecutionModel.PartialExactly | backend/services/execution_model.py:301-327 | At volumes that are not negative, a fill is marked partial exactly when volume or cash made it smaller than what may be traded. |
| ExecutionModel.PriceNeverBetter | backend/services/execution_model.py:309-319 | Where spread and slippage are costs, a buy fills at the price or above; a sell at the price or below, but at half of it or above. |
| ExecutionModel.CostsExplainPrice | backend/services/execution_model.py:309-352 | The reported spread and slippage are what the shares cost beyond the reference price, or give up below it unless the price was floored, and the total is the sum of the parts, all up to rounding. |
| ExecutionModel.NegativeVolumeOverfills | backend/services/execution_model.py:304-307 | An order for one share at a negative average volume fills fifty. |
| ExecutionModel.BuyNeedsCash | backend/services/execution_model.py:321-343 | No buy fills while cash is zero or below, when the reserve is a fraction. |
| ExecutionModel.BuyCost | backend/services/execution_model.py:321-334 | Before rounding, a buy costs at most the usable cash and its commission at most the capped share of that. |
| ExecutionModel.BuyLeavesCash | backend/services/execution_model.py:321-354 | After the rounding of quantity, price and commission, a buy leaves cash no lower than minus the commission cap times the cash before it, less a stated slack. |
| ExecutionModel.SellPaysCommission | backend/services/execution_model.py:315-354 | A sell brings in at least its commission, less the same slack. |
| ExecutionModel.SellWithinPositionExactly | backend/services/execution_model.py:292-307 | When short sales are disabled or no more than the position is asked for, a filled sell takes no more than the position, before rounding, exactly when the volume cap is at least minus the position. |
| ExecutionModel.SellWithinPosition | backend/services/execution_model.py:292-348 | Under that condition the rounded sell takes no more than a position of whole millionths either. |
| ExecutionModel.SharesBounded | backend/services/execution_model.py:170-219 | Whatever the sizing rule, a size is a whole number of millionths worth at most the position cap up to rounding, and Kelly sizing takes at most a quarter of the capital. |
| ExecutionModel.FillsUncapped | backend/services/execution_model.py:286-354 | An order that volume and cash allow fills in full. |
| ExecutionCosts.NearestExactly | backend/services/execution_model.py:346-354 | Rounding takes the nearest integer, and of two equally near ones the even one. |
| ExecutionCosts.CommissionExactly | backend/services/execution_model.py:39-44 | A commission is the larger of the minimum and the rates on shares and notional, unless the cap on the notional is below. |
| ExecutionCosts.PriceExactly | backend/services/execution_model.py:309-319 | Above the reference by the spread's and the slippage's basis points for a buy; below it, but not below half of it, for a sale. |
| ExecutionCosts.QuantityExactly | backend/services/execution_model.py:301-334 | What the volume limit leaves, and of that for a buy no more than the spendable cash pays for. |
| ExecutionCosts.OrderExactly | backend/services/execution_model.py:264-354 | Exactly which orders fill, and every figure of the fill told from the configured rates: price, quantity, commission, spread, slippage and total, each rounded to its digits. |
| ExecutionCosts.WantedExactly | backend/services/execution_model.py:170-210 | The notional each sizing rule asks for. |
| ExecutionCosts.KellyExactly | backend/services/execution_model.py:192-204 | The Kelly fraction is the edge over the odds, kept between nothing and a half. |
| ExecutionCosts.SharesExactly | backend/services/execution_model.py:170-219 | A size is the smaller of what the rule asks for and the position cap, in shares, rounded to six digits; nothing without a price or capital. |
| BarBacktest.RunStrategy | backend/services/backtest_service.py:164-383 | The bar loop refuses exactly delays below one bar and otherwise reaches the specified cash, positions, log, totals, curves and daily returns. |
| BarBacktest.Engine.Place | backend/services/backtest_service.py:236-259 | One order: cash, position, totals and log change as its fill says, or nothing does. |
| BarBacktest.Engine.Settle | backend/services/backtest_service.py:240-258 | A filled order reaches cash, position, totals and log, buys and sells alike. |
| BarBacktest.Engine.Act | backend/services/backtest_service.py:222-345 | A buy signal covers and then buys; a sell signal closes and then, where allowed, shorts; conditions are checked again against the position at hand. |
| BarBacktest.Engine.Choose | backend/services/backtest_service.py:211-220 | Exits and entries are picked from the positions before the bar's first trade. |
| BarBacktest.Engine.TradeBar | backend/services/backtest_service.py:198-345 | Exits settle before entries, each group in ticker order, sized by the equity at the decision bar. |
| BarOrders.RunExplained | backend/services/backtest_service.py:190-345 | At every bar under any configuration, every logged buy has a positive signal at its decision bar and every sale a negative one; a buy is for the size or covers the short position held just before it, a sale is for the whole long position held just before it or, where allowed and below -0.5, opens a short for the size; and at no bar does a sale come after a buy. |
| BarOrders.ChosenExactly | backend/services/backtest_service.py:211-220 | Exits are exactly the tradable tickers with a long position and a signal down, entries those with a signal up and no long position. |
| BarOrders.QueueExactly | backend/services/backtest_service.py:207-222 | A bar goes through exactly the tradable tickers that have a long position and a signal down or no long position and a signal up. |
| BarOrders.OrdersPlaced | backend/services/backtest_service.py:198-345 | The converse: every order that signal and position call for at a bar is put to the execution model, and logged if it fills. |
| BarOrders.SalesMade | backend/services/backtest_service.py:262-295 | So a sale that is called for, at a price and with volume enough, is made in full. |
| BarOrders.BuysMade | backend/services/backtest_service.py:222-259 | And so is a buy that the cash, less the reserve, pays for. |
| BarBacktest.Engine.AccrueBorrow | backend/services/backtest_service.py:347-356 | The loop takes the day's borrow of every short position out of cash. |
| BarBacktest.Engine.MarketValue | backend/services/backtest_service.py:358-362 | The loop adds the value of every position that has a close to the cash. |
| BarBacktest.Engine.Mark | backend/services/backtest_service.py:358-383 | Both curves get the marked value, the gross one with the costs so far added back, and the daily returns what lies between two points. |
| BarBacktest.SortedIsSorted | backend/services/backtest_service.py:207-212 | The tickers a bar goes through are in order and are the listed ones, repeats included. |
| BarBacktest.ListedOrderIrrelevant | backend/services/backtest_service.py:190-222 | Listing the same assets in any other order gives the same trade log, cash, positions, totals and equity curves, also when cash caps some entries. |
| BarBacktest.RunBalances | backend/services/backtest_service.py:190-371 | At every bar under any configuration: cash is the initial capital plus the cash flows of the logged trades less borrow, every position is the sum of its logged trades, and the cost totals and the turnover are the sums over the log. |
| BarBacktest.RunReturns | backend/services/backtest_service.py:373-383 | At every bar under any configuration there are as many net as gross returns; where the net curve is positive there is one between any two points, and compounded they lead from its first point to its last. |
| BarCurves.EquityIsGains | backend/services/backtest_service.py:198-205 | The equity that sizes a bar's orders is the initial capital and what every trade has gained at the decision bar's closes, less commissions and borrow. |
| BarCurves.BacktestMarks | backend/services/backtest_service.py:196 | The curves have a point for every bar from the later of the start and the delay on. |
| BarCurves.CurvesGrow | backend/services/backtest_service.py:358-371 | Every bar adds one point to each curve: the net one is the initial capital and all gains so far less commissions and borrow, the gross one has the costs added back. |
| BarCurves.YearOfBorrow | backend/services/backtest_service.py:347-356 | 252 bars of borrow are the annual rate on every priced short position, the higher one for those hard to borrow. |
| BarCurves.BarBorrows | backend/services/backtest_service.py:347-356 | What a bar adds to the borrow owed is one day's borrow on the positions it ends with. |
| BarCurves.LiquidityKnown | backend/services/backtest_service.py:572-589 | Volatility and average volume are those of the 22 bars up to the decision bar, and fixed before there are any. |
| BarBacktest.RunStaysWithinLimits | backend/services/backtest_service.py:222-345 | At every bar, short sales allowed or not, no logged fill exceeds its order or the volume cap of its decision bar by more than its rounding, where volumes are not negative. |
| BarBacktest.RunStaysLong | backend/services/backtest_service.py:190-371 | With short sales disabled, reserve and commission cap between 0 and 1, and volumes and the participation limit not negative, whatever the initial capital, at every bar: no position is negative, no borrow is owed, no buy was made at zero cash or below, no fill exceeds its order or its volume cap by more than its rounding, and cash is no lower than zero or a negative initial capital and minus the commission cap on the cash before the last buy, less the rounding slack of that buy and of later sells. |
| BarBacktest.NoLookAhead | backend/services/backtest_service.py:164-373 | Two panels that agree on bars 0..t give the same trades, cash, positions and curves through bar t under any causal signal, wherever each panel is cut off later. |
| BarBacktest.CrossoverSignalCausal | backend/services/strategy_signals.py:130-146 | The moving-average series keeps the timing contract as this engine reads it. |

## Left out

- IEEE rounding in kernels and simulators: arithmetic is over exact reals; square root and logarithm are
  parameters with their laws.
- `backtest_loop`, native and NumPy: one recurrence over prices and signals, which would add only easy members.
- HmmForward.NativeForward: the Gaussian emission densities enter as a table, which may hold any numbers.
- RollingCorr.NativeRollingCorr: writes to a three-dimensional array instead of a flat buffer with computed offsets.
- Columns.EncodeTextColumn: fixed-width columns, which the code encodes by one array operation, are a function.
- Blobs.EncodeBlob: the compressor is fed the whole payload at once instead of chunk by chunk.
- Blobs.BlobRoundTrip: zlib and the JSON reader are parameters with a contract; SHA-256 is any function here, and an injective one where content is told from ids.
- Blobs.DecodeBlob: a header value of a kind Python would accept by duck typing, such as a string for the key list or a number for `nullable`, is malformed here, and all malformed headers are one error.
- Conversion of Python and NumPy inputs to cells (strings to dates, time zones, objects to floats): the
  model starts from typed cells.
- RequestLimiter.Limiter.Call: the Redis branch, the response and the choice of the key are left out; the clock is a parameter that does not go back.
- LoginLockout.Limiter.CheckRateLimit: the lock around the maps and the normalisation of the key are left out; the clock does not go back.
- RefreshTokens.TokenStore.Rotate: one call is one atomic step at one clock reading. The row lock justifies
  that for one token, not for a family-wide update that races an insert. A clash of family ids does not happen.
- AeadSession.Session.Decrypt: AES-GCM is a parameter; key derivation and the envelope's dictionary form are left out.
- JobProcess.Process.RunJob: what the child does between polls and what the clock shows are an arbitrary
  script; the wait for the child in `stop`, and the environment it starts with, are left out.
- EventBacktest.RunEventBacktest: the performance figures computed from the curve are left out; the standard
  deviations of returns are parameters.
- EventOrders.PendingExactly: a volatility target's lookback of at least one return is assumed, here and in `SizeIsWorth`,
  `StagedExactly` and `AllStagedExactly`; the one place that makes the sizer leaves
  it at 21 (`event_simulator.py:499`).
- EventStrategies.Momentum: a lookback, and for `MeanReversion` a window, of at least one bar is assumed;
  the standard deviation of a window is a parameter.
- Portfolios.Portfolio.ProcessFill: the log holds the fill itself, not its rounded figures; average costs are exact.
- BarBacktest.RunStrategy: the dates, the final liquidation (nothing it changes is
  returned), the benchmark and the risk figures are left out; the signal series and the standard deviation are parameters.
- BarBacktest.RunStaysLong: assumes a reserve and a commission cap between 0 and 1, as every configuration in the
  repository has, and volumes and a participation limit not below 0: both callers see to the volumes
  (`historical_data.py:98`, `walk_forward.py:149`), though the dataset format would admit negative ones.
- Real cryptography, the database, HTTP routes, schema validators and market-data downloads.
