# s3nc sync core, modelled in Dafny

s3nc is a command-line tool that copies every new or modified object from
one S3 bucket to another. This project models the decision logic of its one
script, `s3nc.rb`. It covers the start-up argument checks, the diff of the two
bucket listings, the cap on copy threads, the "nothing to copy" exit, the
interactive continue/list/quit prompt, and the copy phase. In the copy phase,
each copy's error is caught and turned into a value, and the results are then
split into failed and copied.

Every call into the storage service becomes an input:
- the two listings are given maps from object name to `ObjectKey`;
- the server-side copy call is a function parameter `copy: CopyRequest -> CopyResult`;
- the operator's answers at the prompt are a sequence of input lines, and
  running out of lines stands for end of input.

Modules:
- `Maybe`: the `Option` type.
- `Config`: option defaults, the six canned ACLs, and the ordered argument
  checks.
- `DiffEngine`: the `ObjectKey` and `Snapshot` types, the diff, what a re-run
  after copying would do, and the worker count.
- `Gate`: line chomping, the prompt as a recursive function over input lines,
  and the prompt loop as a method.
- `CopyPhase`: the copy request for each item, per-item outcomes, and the
  split into failed and copied.
- `Sync`: one run from the listings to the split outcomes, plus its exit status.
- `Scenarios`: small worked examples.

Behaviour of the script that the model captures:
- Equal timestamps mean "copy" (the `>` at s3nc.rb:225). src {a:5, b:10}
  against dst {a:5} copies both a and b (`Scenarios.EqualTimestampIsCopied`).
- Because of that, a second run right after a sync copies nothing only when
  every copy got a strictly newer timestamp (`DiffEngine.ResyncEmptyIffCopiesNewer`). A
  copy that kept the source timestamp is copied again
  (`DiffEngine.ResyncWithEqualStampsRepeats`).
- The ACL value is refused by the option parser while options are parsed.
  That happens before the SRC, DST, key and secret checks, so an invalid ACL is
  reported first.
- End of input at the prompt is not a clean exit. `gets` returns nil, and
  calling `chomp` on nil raises. The process stops with status 1
  (`Decision.InputClosed`).
- Only an absent SRC or DST argument counts as missing. An empty string is
  accepted. For the key and the secret, both nil and the empty string count as
  missing. A `-k`/`-s` flag replaces the environment value even when the flag is
  empty.

## Model

| member | source | states |
|---|---|---|
| Config.Validate | s3nc.rb:51-153 | Any failed check exits with status 1. An accepted configuration takes both bucket names from the positional arguments, and the key and secret from the flag when given, else from the environment; both are non-empty. A given ACL, thread count and prefix are used as given; without them the ACL is public-read, the thread count 20 and the prefix empty. The ACL is always one of the six canned ones. Storage is REDUCED_REDUNDANCY when the reduced flag is set and STANDARD otherwise, asking is turned off exactly by the yes flag, and the unsafe, create and quiet flags carry over. |
| Config.ValidateReportsFirstFailure | s3nc.rb:125-153 | The checks run in the order ACL, SRC, DST, key, secret. The run exits exactly when one of them fails, with the message of the first one that fails. |
| Config.EmptyFlagHidesEnvironment | s3nc.rb:141-146 | A key flag given as empty replaces a non-empty environment key, and the run stops with "Missing Amazon Key". |
| Config.EmptyBucketNameAccepted | s3nc.rb:127-139 | Empty SRC and DST names pass the checks. Only absent positional arguments are missing. |
| DiffEngine.Diff | s3nc.rb:225 | A name is in the diff iff it is in the source and either absent from the destination or not strictly newer there. Every diff value is the source's entry. |
| DiffEngine.DiffIsSourceSubMap | s3nc.rb:225 | The diff is a sub-map of the source listing. It is no larger than the source, and it keeps well-formed listings well formed. |
| DiffEngine.DiffEmptyIffDestinationNewer | s3nc.rb:225 | The diff is empty iff every source name is in the destination with a strictly greater timestamp. |
| DiffEngine.DiffOfEmpty | s3nc.rb:225 | An empty source gives an empty diff. An empty destination gives the whole source. |
| DiffEngine.ResyncEmptyIffCopiesNewer | s3nc.rb:225 | After every diff entry is copied, a second diff is empty if and only if every copy got a timestamp strictly newer than its source's. |
| DiffEngine.ResyncWithEqualStampsRepeats | s3nc.rb:225 | If the copies keep the source timestamps, the second diff is the same as the first. |
| DiffEngine.WorkerCount | s3nc.rb:228 | The thread count is at most the diff size and at most the configured count, and equals one of them. It is positive when both are. |
| Gate.Chomp | s3nc.rb:243 | Returns a prefix of the line; what it removes is exactly one of "", "\n", "\r" or "\r\n", and a trailing "\r\n" is removed whole. It changes the line exactly when the line ends in a newline or carriage return. |
| Gate.AnswerIsFirstCharacter | s3nc.rb:243 | Every line other than "", "\n", "\r" and "\r\n" answers with its first character; those four answer nothing. |
| Gate.Prompt | s3nc.rb:241-252 | Lines answering `l` each print the unchanged diff once. The first other line ends the prompt: it proceeds iff that line answers `c` and otherwise aborts. If every line answers `l`, input runs out and the process dies at end of input. |
| Gate.PromptStopsAtFirstOtherAnswer | s3nc.rb:243-251 | Index form: after i `l` answers, line i decides Proceed or Abort. The diff has been printed i times and i+1 lines have been read. |
| Gate.PromptClosedWhenAllListed | s3nc.rb:241-245 | If every line answers `l`, the diff is printed once per line and the gate ends at end of input. |
| Gate.RunGate | s3nc.rb:241 | With asking off, the gate proceeds at once, reading and printing nothing. |
| Gate.AskLoop | s3nc.rb:241-252 | The script's while/break/exit loop computes the same result as the recursive gate. |
| CopyPhase.CopyOne | s3nc.rb:260-268 | The outcome records its key. It is Failed with the raised error exactly when the copy call raised. |
| CopyPhase.CopyAll | s3nc.rb:258-269 | Exactly one outcome per diff value, in the same position. |
| CopyPhase.EachDiffEntryCopiedOnce | s3nc.rb:258-265 | Over an enumeration of a well-formed diff, one copy request is issued per diff entry: every entry's request is among them, every request is the one for the diff entry it targets, and no two requests write the same destination object. |
| CopyPhase.OutcomeIgnoresOtherItems | s3nc.rb:258-269 | An item's outcome depends only on its own copy call. |
| CopyPhase.Partition | s3nc.rb:274 | The failed side holds only failures and the copied side only successes. Together they are a permutation of the outcomes. |
| CopyPhase.PartitionIsExact | s3nc.rb:274 | The two side sizes add up to the number of outcomes. Each outcome lands on exactly the side its tag names. |
| CopyPhase.FailedCountsRaisedCalls | s3nc.rb:258-274 | The failed count equals the number of copy calls that raised. The copied count equals the rest. |
| CopyPhase.Names | s3nc.rb:258 | Lists every name of the diff exactly once. |
| CopyPhase.ValuesAreDiffValues | s3nc.rb:258 | Given an enumeration of the diff's names, the values handed to the copy phase are as many as the diff's entries and include every one of them. |
| Sync.ExitStatus | s3nc.rb:238-252 | The status is 1 only for end of input at the prompt. An empty diff, a declined run and a finished copy phase exit 0, even when some copies failed. |
| Sync.Run | s3nc.rb:225-274 | An empty diff ends the run before the prompt with no copy calls. A non-empty diff reaches the gate, and a non-proceeding gate stops the run with no copy calls. Otherwise the run uses `min(diff size, threads)` workers and issues one copy per diff value. The failed and copied counts add up to the diff size. |
| Scenarios.EqualTimestampIsCopied | s3nc.rb:225 | src {a:5, b:10} against dst {a:5} copies both a and b. |
| Scenarios.NewerDestinationCopiesNothing | s3nc.rb:225 | src {a:5} against dst {a:10} copies nothing. |
| Scenarios.ListThenQuit | s3nc.rb:241-252 | Answering "list" then "q" prints the diff once and aborts after two lines. |
| Scenarios.EmptyAnswerQuits | s3nc.rb:243-250 | An empty line aborts even when a `c` follows it. |
| Scenarios.OneOfTwoFails | s3nc.rb:258-274 | With two items whose second copy raises, one item is copied and one failed. |

## Left out

- Banner, usage text, progress lines and the final report text (s3nc.rb:66-77, 171-173, 230-236, 242-249, 259, 275-278) are output only. A listing at the prompt is recorded as an event in `GateRun.listings`.
- OptionParser mechanics and the `ENV` lookup (s3nc.rb:79-125) are library behaviour. Their result is the input `RawOptions`, including the integer the thread option was converted to.
- OptionParser's unique-prefix completion of ACL values is left out: the model accepts only the six exact names. The refusal itself is an uncaught parser exception whose text comes from the library.
- The dependency probe for the aws and parallel gems (s3nc.rb:155-165) checks the runtime environment.
- The S3 connection, the write probe, the two listings and bucket creation (s3nc.rb:176-222) are calls into the aws gem. The listings are inputs. The AccessDenied detection on their errors matches the gem's message text, which is not part of this model.
- The server-side copy (s3nc.rb:261-265) is the `copy` parameter. An outcome records the key it was for. The script instead keeps the call's return value or the exception object.
- The thread pool of `Parallel.map_with_index` (s3nc.rb:258) runs concurrently. The model maps sequentially over the values in one arbitrary enumeration order, one outcome per value; the progress index is display only.
- Sync.Run: a thread count of 0 or less (from `-n 0`, `-n -3` or a non-numeric `-n`, which `to_i` turns into 0 or less, s3nc.rb:83) reaches the thread pool unchanged through the cap at s3nc.rb:228. What the pool library does with it is not part of this model; the model still issues one copy per diff value in that case.
- The copy request carries the metadata directive as a two-valued choice; how the storage library spells it on the wire is not part of this model.
- Elapsed-time measurement (s3nc.rb:255, 271, 276) uses the wall clock and floats.
- The prompt reads with `Kernel#gets`, which reads from any file names still left in ARGV after SRC and DST. The model takes the input lines as given.
- Prefix filtering is done by the listing calls, which are outside the model.
