# Syncthing pull queuer (draft `model/puller2.go`) in Dafny

This project models the core of an early draft of Syncthing's pull pipeline,
`model/puller2.go`. The draft has two pieces of logic.

- **Temporary file naming** (`tempName`). A file being pulled is written to
  a hidden sibling named `.syncthing.<base>.<version>` in the target's
  directory. The name is built with Go's `filepath.Join`, `filepath.Dir`,
  `filepath.Base` and `fmt.Sprintf("%d")`.
- **One cycle of the queuer** (`queuer`). It compares the repository's local
  version with `prevVer` and skips the cycle when they are equal. `prevVer`
  is meant to hold the version seen at the previous cycle, but the draft
  never assigns it after its zero initialisation. So the comparison is
  always with zero, and only a local version of zero skips a cycle. Otherwise it collects every file the repository
  needs and visits them in a random permutation. For each file it sends one
  copy request and then one pull request. Both requests share the target
  `FileInfo`, the temporary file and a newly made abort channel. The copy
  request carries the segments the block diff says are present locally, and
  the pull request the segments it says are needed.

Files:

- `decimal.dfy` (module `Decimal`): `%d` rendering of a `uint64` and its
  inverse, `Parse`.
- `paths.dfy` (module `Paths`): Go's `filepath.Clean`, `Dir`, `Base` and
  `Join` for `/`-separated paths. `Clean` is defined by what it computes:
  split at separators, fold the parts onto a stack, write the stack back.
  The lemmas say that `Clean` is idempotent and that joining `Dir(name)`
  with one element gives back that directory and that element.
- `permutation.dfy` (module `Permutation`): what `math/rand.Perm` returns (a
  permutation of `[0, n)`), reordering by it, and the proof that reordering
  by a permutation keeps the multiset of elements.
- `puller.dfy` (module `Puller`): the record types `segment`, `request` and
  `result`; `TempName`; the specification `CycleSends` of what one cycle
  sends; and the class `Queuer`. Its field `prevVer` is the loop-carried
  version and its field `sent` is the log of channel sends. Its method
  `Cycle` is one iteration of the queuer loop, proved against `CycleSends`.

The queuer's collaborators are parameters:

- the local version `curVer`;
- the result of the need query `needFiles`;
- the permutation `perm`;
- a `Collaborators` value holding the current-local-file lookup, the block
  diff and the temporary-file opener.

The temporary-file handle is a type parameter `H`. An abort channel is an
object of class `AbortSignal`, and each cycle allocates a new one per file,
as `make(chan struct{})` does.

Two behaviours of the draft are modelled as the code has them:

- `prevVer` is set to zero when it is declared and never assigned again
  (model/puller2.go:48, 52-55). A cycle is therefore skipped only when the
  local version is zero. `Queuer.Cycle` proves that `prevVer` does not change.
  `TwoCyclesSameVersion` proves that two cycles seeing the same non-zero
  version both queue every needed file.
- `pullBatchSize` is only the initial capacity of the `files` slice
  (model/puller2.go:37, 65-69). Every file of the need query is collected,
  however many there are. `Queuer.Cycle` ensures `files == needFiles`.

The draft passes `scanner.BlockDiff`'s results, which are block lists, into
the `blocks` field of `request`, which is a list of segments. The model
types the block diff as returning a pair of segment lists (copy, pull),
which is the field type the draft declares.

## Model

| member | source | states |
|---|---|---|
| Decimal.Render | model/puller2.go:121 | `%d` of a version is a non-empty string of ASCII digits with no leading zero, except "0" itself |
| Decimal.ParseRender | model/puller2.go:121 | reading the decimal text of a version back gives the version: the rendering loses nothing |
| Decimal.RenderInjective | model/puller2.go:121 | different versions are rendered as different decimal texts |
| Paths.CleanIdempotent | model/puller2.go:121 | `filepath.Clean` (which `Join` and `Dir` apply) leaves a cleaned path unchanged |
| Paths.BaseOfName | model/puller2.go:121 | `filepath.Base` of a name that is not made of separators alone is one non-empty element without a separator |
| Paths.BaseOfSeparators | model/puller2.go:121 | `filepath.Base` of a name made of separators alone is "/" |
| Paths.JoinDirElement | model/puller2.go:121 | joining `Dir(name)` with one plain element (not "", ".", ".." and without "/") gives a path whose `Dir` is `Dir(name)` and whose `Base` is that element |
| Puller.TempName | model/puller2.go:120-122 | `tempName`: joins `Dir(f.name)` with ".syncthing." + `Base(f.name)` + "." + the decimal version; the result is a non-empty path, absolute exactly when the file's name is |
| Paths.SeparatorsDirBase | model/puller2.go:121 | `filepath.Dir` and `filepath.Base` of a name made of separators alone ("/", "//", ...) are both "/" |
| Puller.TempNameInDir | model/puller2.go:120-122 | the temporary file lies in the same directory as its target: `Dir(TempName(f)) == Dir(f.name)` |
| Puller.TempNameBase | model/puller2.go:121 | the base of the temporary file is exactly ".syncthing." + `Base(f.name)` + "." + decimal version, so it starts with ".syncthing." and is hidden |
| Puller.TempNameDeterministic | model/puller2.go:120-122 | two records with the same name and version get the same temporary file |
| Puller.TempNameInjective | model/puller2.go:120-122 | the same name with different versions gives different temporary files, for every name, including names made of separators alone |
| Puller.TempNameOfSeparators | model/puller2.go:120-122 | for a name made of separators alone, `Dir` and `Base` are "/", so the temporary file is "/.syncthing./.<version>": it lies in "/.syncthing." rather than in "/", and its base is "." followed by the version |
| Permutation.PermutationCovers | model/puller2.go:74 | a permutation of `[0, n)` as `rand.Perm` returns it takes every index in `[0, n)` |
| Permutation.ReorderPermutes | model/puller2.go:74-76 | visiting the collected files in a permutation order visits each exactly as many times as it occurs |
| Puller.JobSends | model/puller2.go:76-100 | the two sends for one visited file: a copy request and then a pull request, both for the target `f`, with the temporary file `openTemp(f)` and the same abort signal; the copy request carries the first half of the block diff of the current local file's blocks against `f`'s blocks, and the pull request the second half |
| Puller.CycleSends | model/puller2.go:75-101 | a cycle makes exactly two sends per visited file |
| Puller.CycleSendsAt | model/puller2.go:76-100 | the k-th visit sends a copy request and then immediately a pull request. Both are for `files[perm[k]]` and carry the same temporary file and the k-th abort signal. The copy request carries the "have" half and the pull request the "need" half of the block diff of the current local file's blocks against the target's blocks |
| Puller.CycleTargets | model/puller2.go:74-101 | the targets of the copy requests, and likewise of the pull requests, are the collected files in permutation order |
| Puller.EveryNeededFileOnce | model/puller2.go:65-101 | with a permutation, every needed file gets exactly one copy request and exactly one pull request (as multisets of targets) |
| Puller.Queuer.constructor | model/puller2.go:48 | the queuer starts with `prevVer` zero and nothing sent |
| Puller.Queuer.Cycle | model/puller2.go:52-101 | one cycle. `prevVer` is unchanged. When `curVer == prevVer` nothing is sent. Otherwise all needed files are collected (none dropped for the batch size) and the log grows by exactly `CycleSends`. The abort signals are newly allocated and pairwise distinct |
| Puller.TwoCyclesSameVersion | model/puller2.go:48-55 | because `prevVer` is never updated, two cycles with the same non-zero version both queue every needed file, so the copy targets are the permuted files twice |

## Left out

- The infinite loop, the five-second `time.Sleep`, the channel sends as synchronisation and the `done` channel of `queuer` (model/puller2.go:47-50, 88-100): scheduling plumbing. One iteration is modelled, and the sends become entries of an ordered log.
- The debug log line (model/puller2.go:57-59): output only.
- `rand.Perm` (model/puller2.go:74): a random source. The permutation is an input, with the precondition that it is a permutation of the collected indices.
- `p.model.LocalVersion`, `NeedFilesRepo`, `CurrentRepoFile` and `scanner.BlockDiff` (model/puller2.go:52, 66, 77-78): their code is not part of this model. They are inputs or uninterpreted functions. The draft's undeclared `p` is replaced by these parameters.
- `openTemp` and the `panic` on its error (model/puller2.go:80-84, 124-126): a stub that always fails and would open a real file. The handle is an opaque value from an input function, and the error path is not modelled. As written, the draft would panic on the first file it visits.
- `copier`, `puller` and `doRequest` (model/puller2.go:106-118): empty stubs with no behaviour. The `result` record is declared but nothing produces one.
- `protocol.FileInfo` is not part of this model. Only the fields the draft reads are kept: name, version and blocks.
- Windows path rules (volume names, `\` separators): `filepath` is modelled for a Unix host only.
- Puller.TempNameInDir: holds only for names that are not made of separators alone, because it is false for them. For such names `Base` returns "/" and the temporary file lands in the sub-directory "/.syncthing." (`Puller.TempNameOfSeparators` proves what happens there). File names in a repository index are relative file paths and never take that form.
- Puller.TempNameBase: same condition as `TempNameInDir`, for the same reason. For names of separators alone the base is "." followed by the version, as `Puller.TempNameOfSeparators` states.
- lib/model/requests_test.go: end-to-end tests of a running model over goroutines, a fake connection and a real directory. The engine they drive is not part of this model.
- lib/fs/basicfs_windows_test.go: tests of Windows-only path helpers whose code is not part of this model.
- lib/protocol/nativemodel_darwin.go: a wrapper that applies Unicode normalization form D through an external library, with no logic of its own.
