# Bi-spectral co-clustering pipeline: a Dafny model

This project models `run_bispectral` and `get_idx_mapping` from `bispectral.py`.
The pipeline turns a dictionary of `(user id, username, hashtag) -> weight`
entries into two JSON result sets of user/hashtag clusters. It works in these steps:

1. **Identity index.** Every user id and every hashtag gets a dense index in
   order of first appearance. The inverse tables and a user id -> username
   table are built alongside; for the username table the last entry wins.
2. **Matrix builder.** The weighted matrix `A` and the 0/1 presence matrix `S`
   get one cell written per entry, so for a repeated pair the last write wins.
3. **Degree filters.** Hashtags are kept when at least `min_user` distinct
   users have an entry with them (the column sums of `S`). Users are then kept
   when their row of the hashtag-filtered `A` has a positive sum. Each filter
   records a new -> old index map (`get_idx_mapping`).
4. **First pass.** The co-clustering algorithm labels every row and column of
   the active matrix. For each label in `[0, k)` the extractor lists the users
   and the hashtags carrying it, in ascending index order. Each member gets the
   name its index resolves to and its row (or column) sum as weight.
5. **Second pass.** The active matrix is restricted to the rows and columns
   with one selected first-pass label. The matrix is clustered again, and names
   are resolved through the two-link chains (second-pass map, then filter map).

Modules:

- `IndexMapping` (`index_mapping.dfy`): keep-vectors, `IdxMapping`, the
  dictionary-building `GetIdxMapping`, and boolean-mask selection `Mask`.
- `IdentityIndex` (`identity_index.dfy`): the identity index.
- `Matrices` (`matrices.dfy`): dense matrices, sums, and row/column selection.
- `MatrixBuilder` (`matrix_builder.dfy`): `A` and `S`.
- `Extraction` (`extraction.dfy`): the per-label result extractor.
- `Pipeline` (`pipeline.dfy`): the filters, both passes and the whole run.
  `RunFiltered` is the run after filtering, and `RunBispectral` applies it to
  `Filter(entries, minUser)`.
- `Properties` (`properties.dfy`): end-to-end statements about a run.
- `Example` (`example.dfy`): a worked three-user instance of the filters.

The matrix builder and the filters are defined for any tables that index
every entry (`Pipeline.FilterWith`); `Pipeline.Filter` applies them to the
tables the identity index builds. The statements about the filters are made
at that generality, so they hold in particular for the built tables.

The co-clustering algorithm (`SpectralCoclustering`) is a parameter, the
*oracle*. It either fails or returns one label per row and one per column of
the matrix it is given, each label below `k`; `Pipeline.OracleContract`
states this assumption. The second-pass label, hard-coded as 96 in the
source, is the parameter `selected`.

The source performs no explicit checks of its own. It does not validate `k`,
`min_user` or whether the selected label occurs; any failure can only come
from the clustering library, and when it fails is not modelled. The model
therefore has exactly one error path: the oracle answering `Failed`. The first result set is written out before the
second clustering runs, so `Pipeline.Run` distinguishes `FirstPassFailed`,
`SecondPassFailed(first)` and `Completed(first, second)`.

## Model

| member | source | states |
|---|---|---|
| IndexMapping.IdxMapping | bispectral.py:113-121 | the new -> old map has one entry per kept position; it is strictly increasing, every value is a kept position, and every kept position appears |
| IndexMapping.GetIdxMapping | bispectral.py:113-121 | the dictionary built by the loop has keys exactly `0 .. count-1`, and key `j` maps to the `j`-th kept position |
| IndexMapping.IndexMapUnique | bispectral.py:113-121 | any strictly increasing list that covers exactly the kept positions is the index map, so the characterisation determines it |
| IndexMapping.Mask | bispectral.py:43-47 | numpy boolean-mask selection keeps one element per `True` in the keep-vector, so its length is the kept count; which elements it keeps is stated by `MaskSelects` |
| IndexMapping.MaskSelects | bispectral.py:41-47 | numpy boolean-mask selection picks, at new position `j`, the element at old position `IdxMapping(cond)[j]`, so the recorded maps agree with the selections |
| IndexMapping.Compose | bispectral.py:96-103 | chaining a second-pass map after a filter map keeps one entry per inner index and stays strictly increasing |
| IdentityIndex.Insert | bispectral.py:21-28 | an unseen key claims the next index `len(to_idx)`; existing indices never change and the two tables stay mutually inverse |
| IdentityIndex.Enumerate | bispectral.py:16-28 | after the loop the tables are mutually inverse and index exactly the keys of the input |
| IdentityIndex.EnumerateStable | bispectral.py:23-28 | an index assigned to a key after a prefix of the input is still its index after the whole input |
| IdentityIndex.EnumerateFirstOccurrence | bispectral.py:21-28 | a key first seen at position `p` gets the number of distinct keys before `p`; a repeated key already holds a smaller index |
| IdentityIndex.Usernames | bispectral.py:15-20 | the username table has an entry for exactly the user ids of the input |
| IdentityIndex.UsernameIsLast | bispectral.py:20 | a user's recorded username is the one of the user's last entry |
| IdentityIndex.BuildTables | bispectral.py:11-31 | both index tables are bijective and cover exactly the input's users and hashtags; every indexed user has a username |
| IdentityIndex.EntriesIndexed | bispectral.py:37-39 | every entry's user id and hashtag have an index, so the lookups of the build loop succeed |
| Matrices.Zeros | bispectral.py:35-36 | the initial matrices have the given shape and all cells zero |
| Matrices.Set | bispectral.py:38-39 | one cell assignment changes that cell and no other |
| Matrices.SumZeroIff | bispectral.py:45 | a row of non-negative weights sums to zero exactly when every weight is zero |
| Matrices.SumZeroOne | bispectral.py:41 | a 0/1 column sums to the number of its ones |
| Matrices.SelectRows | bispectral.py:47 | `A[cond, :]` has one row per kept row, and row `i` is old row `IdxMapping(cond)[i]` |
| Matrices.SelectCols | bispectral.py:43 | `A[:, cond]` has one column per kept column, and cell `(i, j)` is old cell `(i, IdxMapping(cond)[j])` |
| Matrices.SelectedRowPositive | bispectral.py:43-45 | a row of the column-filtered matrix has a positive sum exactly when the original row has a positive weight in some kept column |
| MatrixBuilder.TablesIndexEntries | bispectral.py:37-39 | the tables index the user and hashtag of every entry |
| MatrixBuilder.LastWriteExists | bispectral.py:37-39 | when some entry pairs a user with a hashtag, there is a last such entry |
| MatrixBuilder.Fill | bispectral.py:35-39 | the build loop, starting from zeros and writing one cell per entry in input order, yields a matrix with one row per indexed user and one column per indexed hashtag; its cells are characterised by `CellsAreLastWrites` |
| MatrixBuilder.WeightMatrix | bispectral.py:35-38 | `A` has one row per indexed user and one column per indexed hashtag; each cell is the last written weight or 0 (`CellsAreLastWrites`) |
| MatrixBuilder.PresenceMatrix | bispectral.py:36-39 | `S` has the same shape as `A`; a cell is 1 exactly when some entry pairs its user and hashtag (`CellsAreLastWrites`) |
| MatrixBuilder.FillStep | bispectral.py:37-39 | one iteration of the build loop writes the entry's own cell and leaves every other cell unchanged |
| MatrixBuilder.FillCellLast | bispectral.py:35-39 | after the build loop a cell holds the value written by the last entry for its user and hashtag |
| MatrixBuilder.FillCellEmpty | bispectral.py:35-39 | a cell whose user and hashtag share no entry keeps its initial zero |
| MatrixBuilder.CellsAreLastWrites | bispectral.py:35-39 | `A[u, h]` is the last entry's weight, or 0 with no entry; `S[u, h]` is 1 exactly when an entry exists |
| MatrixBuilder.HashtagDegree | bispectral.py:36-41 | column `h` of `S` sums to the number of distinct users with an entry for hashtag `h` |
| Extraction.AbsentLabelSelectsNothing | bispectral.py:78-81 | a label outside `[0, k)` selects no row or column |
| Extraction.Distribute | bispectral.py:58-72 | the extraction loop appends each item to the bucket of its label, in ascending index order, and yields exactly `k` buckets; bucket contents are stated by `DistributeSelects` and `DistributeTotal` |
| Extraction.DistributeSelects | bispectral.py:58-72 | bucket `l` of the extraction loop holds exactly the items labelled `l`, in ascending index order |
| Extraction.TotalSizeAppend | bispectral.py:65 | appending one item to one bucket adds one to the total |
| Extraction.DistributeTotal | bispectral.py:58-72 | no item is lost or duplicated: the buckets hold as many entries as there are items |
| Extraction.EmptyBucketsSize | bispectral.py:58-59 | the `k` initial buckets are empty |
| Extraction.UserMembers | bispectral.py:62-65 | one `{"username", "weight"}` record per row of the active matrix, in row order |
| Extraction.HashtagMembers | bispectral.py:69-72 | one `{"hashtag", "weight"}` record per column of the active matrix, in column order |
| Extraction.Extract | bispectral.py:56-72 | `clustering_results` has exactly one cluster per label in `[0, k)`; what each cluster lists is stated by `ExtractMembers` |
| Extraction.ExtractMembers | bispectral.py:56-72 | cluster `l` lists exactly the rows and columns labelled `l`, in ascending order, each with its name and its row or column sum |
| Extraction.ExtractPartition | bispectral.py:56-72 | over all clusters there are exactly as many user entries as rows and as many hashtag entries as columns |
| Pipeline.FilterWith | bispectral.py:35-47 | the active matrix's cell `(i, j)` is the built cell `(userMap[i], hashtagMap[j])`, both maps land in range, and the tables are kept for name resolution |
| Pipeline.Filter | bispectral.py:11-47 | the whole filtering front end runs on tables that index every entry and cover exactly the input's user ids and hashtags |
| Pipeline.HashtagCond | bispectral.py:41 | `S.sum(axis=0) >= min_user` is a keep-vector with one entry per hashtag; which hashtags it keeps is stated by `Properties.HashtagFilterKeeps` |
| Pipeline.UserCond | bispectral.py:45 | `A.sum(axis=1) > 0` is a keep-vector with one entry per user row; which users it keeps is stated by `Properties.UserFilterKeeps` |
| Pipeline.UserNames | bispectral.py:62-63 | one username per index of a user chain, resolved through `idx_to_userid` and `userid_to_username` (the second pass resolves its two-link chain the same way); every lookup succeeds for indexed users |
| Pipeline.HashtagNames | bispectral.py:69-70 | one hashtag per index of a hashtag chain, resolved through `idx_to_hashtag` (also for the second pass's two-link chain) |
| Pipeline.FirstPass | bispectral.py:56-72 | the first extraction yields exactly `k` clusters; their contents are stated by `Properties.FirstPassReport` |
| Pipeline.Restrict | bispectral.py:78-84 | the second-pass matrix keeps only rows and columns labelled `selected`; each cell is the first-pass cell reached through the two maps |
| Pipeline.SecondPass | bispectral.py:91-106 | the second extraction yields exactly `k` clusters; their contents are stated by `Properties.SecondPassReport` |
| Pipeline.RunFiltered | bispectral.py:51-108 | after the filters, the run fails at the first pass exactly when the first clustering fails; after a successful first clustering it fails at the second pass exactly when the clustering of the restriction to `selected` fails; each result set has `k` clusters |
| Pipeline.RunBispectral | bispectral.py:8-108 | the same outcome conditions for the whole run from the input entries: first-pass failure exactly when the first clustering of the filtered matrix fails, second-pass failure exactly when the clustering of its restriction fails, `k` clusters per result set |
| Pipeline.RunWithDefaults | bispectral.py:125-128 | `main`'s call `run_bispectral(input_data)` uses the defaults `min_user = 10`, `k = 100` of the signature and the second-pass label 96; it has the same outcome conditions, with 100 clusters per result set |
| Properties.HashtagFilterKeeps | bispectral.py:41-43 | for any tables indexing the entries, a hashtag is kept exactly when at least `min_user` distinct users have an entry with it |
| Properties.UserFilterKeeps | bispectral.py:43-47 | for any tables indexing the entries, a user is kept exactly when it has a positive weight towards some hashtag that survived the hashtag filter |
| Properties.ActiveCellsAreInputWeights | bispectral.py:35-47 | each active cell is the input weight of the pair its indices resolve to: the last entry's weight, or 0 when no entry pairs them |
| Properties.PositiveCellHasEntry | bispectral.py:35-38 | a positive cell of `A` was written by the last entry for its pair, and that entry's weight is positive |
| Properties.KeptUsersFromInput | bispectral.py:43-47 | every user the filters keep has an input entry of positive weight (the last for its pair) with some kept hashtag |
| Properties.UsedHashtagHasEntry | bispectral.py:36-41 | a hashtag with at least one distinct user occurs in the input entries |
| Properties.KeptHashtagsFromInput | bispectral.py:41-43 | with `min_user >= 1`, every hashtag the filter keeps occurs in the input entries |
| Properties.FirstPassReport | bispectral.py:56-72 | first-pass cluster `l` lists exactly the active rows and columns labelled `l`, named through the filter maps, weighted by active-matrix sums |
| Properties.FirstPassPartition | bispectral.py:58-72 | over all first-pass clusters there are as many user entries as kept users and as many hashtag entries as kept hashtags; with `FirstPassReport` this makes each kept user and hashtag appear exactly once |
| Properties.SecondPassRestriction | bispectral.py:78-84 | the restriction's maps are strictly increasing and select exactly the label-`selected` rows and columns; cells trace to `A` through four maps; an absent label gives an empty matrix |
| Properties.SecondPassReport | bispectral.py:91-106 | second-pass cluster `l` lists exactly its labelled rows and columns, named through the two-link chains, weighted by second-pass sums |
| Properties.FirstPassReportsAll | bispectral.py:56-72 | every first-pass cluster `l` reports exactly the active rows and columns labelled `l`, named through the filter maps and weighted by active-matrix sums |
| Properties.SecondPassReportsAll | bispectral.py:91-106 | every second-pass cluster `l` reports exactly the restricted rows and columns labelled `l`, named through the two-link chains and weighted by second-pass sums |
| Properties.SecondPassPartition | bispectral.py:91-106 | over all second-pass clusters there are as many user entries as second-pass rows and as many hashtag entries as second-pass columns |
| Properties.RunFirstResult | bispectral.py:51-74 | when a run gets past the first clustering, every active row and column got a label below `k`, each first-result cluster reports exactly its label's rows and columns, and the clusters hold as many user entries as kept users and as many hashtag entries as kept hashtags |
| Properties.RunSecondResult | bispectral.py:78-108 | when a run completes, every row and column of the restriction to `selected` got a label below `k`, each second-result cluster reports exactly its label's rows and columns through the two-link chains, and the clusters hold as many entries as restricted rows and columns |
| Properties.RunBispectralResults | bispectral.py:8-108 | both statements hold for `run_bispectral` on the input entries, with the filtered tables and matrices of `Filter(entries, minUser)` |
| Example.Degrees | bispectral.py:36-41 | in the example, `#a` and `#b` have two distinct users each and `#c` has one |
| Example.HashtagsKept | bispectral.py:41-43 | with `min_user = 2` the hashtag map is `[0, 1]`: `#c` is dropped |
| Example.WeightCells | bispectral.py:35-39 | the example's weight matrix restricted to `#a`, `#b` is `[[1, 1], [1, 0], [0, 1]]` |
| Example.UsersKept | bispectral.py:45-47 | every example user keeps an edge to a kept hashtag, so the user map is `[0, 1, 2]` |
| Example.ThreeUsersExample | bispectral.py:35-47 | kept hashtags are `#a`, `#b`, kept users `u1`, `u2`, `u3`; the active matrix is `[[1, 1], [1, 0], [0, 1]]` with row sums 2, 1, 1 |

## Left out

- `SpectralCoclustering` itself is not modelled. It is the oracle parameter, and the model relies only on label counts and ranges (`Pipeline.OracleContract`). Both calls fix `random_state=0`, so the clustering is deterministic: the same matrix and `k` always give the same answer. That is why the oracle is a function of the matrix and `k`.
- Loading the pickle, `main`, the `tqdm` progress bars and the two `json.dump` writes are I/O. The written content is the `Run` value.
- Extraction.UserMembers: weights are unbounded naturals. The source stores `A` and `S` as `uint16` and sums with Python's `sum` over `uint16` scalars, so weights and sums of 65536 or more would wrap or raise there. The model is exact only below that bound.
- Matrices.Set: a weight of 65536 or more written into the `uint16` matrix is not modelled. This is the same `uint16` limit.
- The second-pass label is the parameter `selected` of `Pipeline.RunBispectral`; `Pipeline.RunWithDefaults` fixes it to the source's 96, together with the defaults `min_user = 10` and `k = 100` that `main` relies on.
- When the clustering library fails is not modelled. `k` is a `nat`; a negative `k` is outside the model. The oracle may fail or answer on any matrix and any `k`. Nothing forces `Failed` for `k = 0`, for a `k` larger than the matrix, or for an all-zero or empty matrix. In particular, an empty second-pass matrix is not forced to fail. That matrix arises when `selected >= k` (`Properties.SecondPassRestriction`), which with the hard-coded 96 is every `k <= 96`, or when no row or column carries `selected`. The model only promises what follows from a successful answer, and it treats a failure at either pass as the error path.
- The input dictionary is the sequence of its items in iteration order. Python's guarantee that the keys are distinct is not needed by any statement and is not assumed.
- Example.ThreeUsersExample: the identity-index tables of the example are given in first-occurrence order rather than derived through `IdentityIndex.BuildTables`, because evaluating the enumeration on concrete strings is too costly for the verifier; the lemma is stated over those tables.
- `del S` has no counterpart; `S` simply stops being used after the hashtag filter.
