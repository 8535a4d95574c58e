# Parameter guessing and the Skipjack keystream reader, in Dafny

This project models two small pieces of sequential logic.

**`UrlGuesser` (parameter miner).** It guesses which hidden URL parameters a
target reacts to. The constructor merges the built-in and the custom
wordlists. For every enabled request method (GET, POST, XML, JSON, in that
order) `run` calls `startGuess`, which does four things:

1. It sends one baseline request carrying only the control parameter `zap=123`.
2. It slices the populated wordlist into groups.
3. It runs the narrowing loop. Each round (`narrowDownParams`) submits one
   BRUTEFORCE probe per group. A group whose probe yields nothing is dropped.
   What a probe reports is sliced into the groups of the next round. Finished
   groups are moved into the usable parameters. The loop repeats until no
   group is left.
4. It submits one VERIFY task per usable candidate.

**`SkipjackRandom` (token generator).** It is a random byte stream built on
the Skipjack block cipher. It keeps an eight-byte output block, an index into
it, a byte counter and an open flag. When the index reaches 8 it encrypts the
input block, copies the output back into the input and restarts at 0. This is
output feedback (OFB, section 6.4 of NIST SP 800-38A) with an all-zero IV.
In PRNG mode each read hands out a keystream byte and the stream closes once
the counter passes the limit. In file mode each byte is XOR-ed with the next
byte of the file. `readInt` and `readLong` pack four and eight bytes
big-endian.

Modules:

- `Wrappers`: `Option`.
- `ParamGroups`: the narrowing search on values. It holds one round
  (`Narrow`), the loop (`Guess`), one `startGuess` (`GuessRun`) and their
  properties, including termination.
- `UrlGuessing`: the configuration, the wordlist merge, the run over the four
  methods, and the class `UrlGuesser`. The class's methods are proved against
  the functions of `ParamGroups`.
- `BytePacking`: big-endian packing, and Java's `int` and `long` view of a
  32- and 64-bit pattern.
- `SkipjackOfb`: the feedback chain, the keystream, and OFB as SP 800-38A
  defines it.
- `SkipjackRandomStream`: the reader's behaviour on an abstract state
  (`Stream`, `ReadByteSpec`, `ReadIntSpec`, `ReadLongSpec`), what that
  behaviour promises, and the class `SkipjackRandom`. Each method of the class
  is proved to follow the spec functions.

Some collaborators' code is not part of this model:

- the probe (`UrlBruteForce` with `ComparableResponse`);
- `UrlUtils.slice`, `UrlUtils.populate` and `UrlUtils.confirmUsableParameters`;
- the Skipjack cipher;
- the parent stream's `readByte`.

They are parameters (function values). `ParamGroups.Assumptions` states, once,
all that is assumed of slice, probe and confirm:

- slices are disjoint parts of the sliced group that together cover it;
- a group of two or more entries is sliced into smaller pieces;
- a probe reports only parameters of its group;
- confirming keeps the old usable list as a prefix;
- confirming partitions the round's groups between the groups kept and the new
  usable ones;
- confirming keeps only groups of two or more entries;
- confirming adds to the usable list only groups of at most one entry.

Termination of the `while (true)` loop is proved under these assumptions. The
measure is the sum of the squared group sizes. Under them the search is also
proved sound and complete: every candidate is made of wordlist parameters
and holds at most one of them, and every wordlist parameter the target reacts
to ends up as a candidate on its own.

The model follows the code on these points:

- The code has no retry and no kill threshold. A probe that throws is treated
  exactly like one that returns null: the group is pruned.
- An exception in `startGuess` ends the whole `run`, not only the current
  method.
- The results of the VERIFY tasks are not collected.
- The keystream is not restarted by `openInputStream`. Only the index is
  reset, so after a re-open the stream continues at the next block boundary
  (`SkipjackRandomStream.ReopenSkipsToBlockBoundary`).

## Model

Source paths are relative to the repository root. `UrlGuesser.java` is
`addOns/paramminer/src/main/java/org/zaproxy/addon/paramminer/UrlGuesser.java`,
and `SkipjackRandom.java` is
`addOns/tokengen/src/main/java/com/fasteasytrade/JRandTest/Algo/SkipjackRandom.java`.

| member | source | states |
|---|---|---|
| ParamGroups.ControlRequest | addOns/paramminer/src/main/java/org/zaproxy/addon/paramminer/UrlGuesser.java:143-144 | the baseline parameters have exactly one entry, `zap` mapped to `123` (the constants of lines 78-79) |
| ParamGroups.Refined | addOns/paramminer/src/main/java/org/zaproxy/addon/paramminer/UrlGuesser.java:206-212 | what one group passes to the next round: nothing when its probe returns null or fails, otherwise the slices of the parameters it reported |
| ParamGroups.Narrow | addOns/paramminer/src/main/java/org/zaproxy/addon/paramminer/UrlGuesser.java:188-219 | one round: the contributions of the groups, concatenated in the order of the groups |
| ParamGroups.Guess | addOns/paramminer/src/main/java/org/zaproxy/addon/paramminer/UrlGuesser.java:163-170 | the narrowing loop: each turn submits one probe per group and confirms the round; it ends when confirming leaves no group, with the usable list at that point |
| ParamGroups.GuessRun | addOns/paramminer/src/main/java/org/zaproxy/addon/paramminer/UrlGuesser.java:140-186 | one `startGuess`: the loop from the slices of the populated wordlist with no usable parameter, followed by one VERIFY task per candidate |
| ParamGroups.Submissions | addOns/paramminer/src/main/java/org/zaproxy/addon/paramminer/UrlGuesser.java:191-204 | one task per group, same length, task `i` carries group `i` with the given mode, method and baseline |
| ParamGroups.GuessStep | addOns/paramminer/src/main/java/org/zaproxy/addon/paramminer/UrlGuesser.java:164-170 | proof step (unfolds `Guess`): one loop turn submits the round's probes; if confirming leaves no group the loop ends with the confirmed usable list, otherwise the weight has dropped and the loop continues from the confirmed groups |
| ParamGroups.LoopTurn | addOns/paramminer/src/main/java/org/zaproxy/addon/paramminer/UrlGuesser.java:164-170 | one turn keeps the loop state (tasks so far plus the tasks still to come make up the whole run); it exits only when confirming leaves no group, and otherwise leaves less weight |
| ParamGroups.NarrowingProgress | addOns/paramminer/src/main/java/org/zaproxy/addon/paramminer/UrlGuesser.java:165-167 | after a round and confirming, either no group is left or the groups weigh strictly less than before (the termination argument) |
| ParamGroups.SliceWeight | addOns/paramminer/src/main/java/org/zaproxy/addon/paramminer/UrlGuesser.java:208 | slicing never adds weight, removes weight from a group of two or more entries, and makes no piece bigger than the group |
| ParamGroups.RefinedWeight | addOns/paramminer/src/main/java/org/zaproxy/addon/paramminer/UrlGuesser.java:206-212 | one group's contribution to the next round weighs no more than the group, and less when it has two or more entries |
| ParamGroups.NarrowWeight | addOns/paramminer/src/main/java/org/zaproxy/addon/paramminer/UrlGuesser.java:188-219 | a round weighs no more than its input, strictly less when some input group has two or more entries; singletons yield only groups of at most one entry |
| ParamGroups.NarrowAppend | addOns/paramminer/src/main/java/org/zaproxy/addon/paramminer/UrlGuesser.java:190-218 | a round over two lists is the round over the first followed by the round over the second (groups are handled independently, in order) |
| ParamGroups.NarrowSnoc | addOns/paramminer/src/main/java/org/zaproxy/addon/paramminer/UrlGuesser.java:191-212 | proof step (unfolds `Narrow` and `Submissions`): one more group appends exactly its contribution to the round and exactly one BRUTEFORCE task |
| ParamGroups.NarrowPrefix | addOns/paramminer/src/main/java/org/zaproxy/addon/paramminer/UrlGuesser.java:191-212 | proof step (unfolds `Narrow` and `Submissions`): the round over the first `i + 1` groups extends the round over the first `i` by group `i`'s contribution and task |
| ParamGroups.NarrowSplice | addOns/paramminer/src/main/java/org/zaproxy/addon/paramminer/UrlGuesser.java:206-216 | a group whose probe yields nothing is pruned; otherwise the slices of what it reported stand in its place, between the contributions of the groups before and after it |
| ParamGroups.NarrowWithin | addOns/paramminer/src/main/java/org/zaproxy/addon/paramminer/UrlGuesser.java:206-212 | every group of a round is made of parameters of the groups it came from |
| ParamGroups.NarrowSilent | addOns/paramminer/src/main/java/org/zaproxy/addon/paramminer/UrlGuesser.java:206-212 | when no probe reports anything a round yields no group |
| ParamGroups.GuessKeepsUsable | addOns/paramminer/src/main/java/org/zaproxy/addon/paramminer/UrlGuesser.java:163-170 | the usable parameters never lose entries: the list the loop starts with is a prefix of the one it ends with |
| ParamGroups.GuessWithin | addOns/paramminer/src/main/java/org/zaproxy/addon/paramminer/UrlGuesser.java:163-170 | every candidate the loop adds is made of parameters of the groups it started from |
| ParamGroups.NarrowKeeps | addOns/paramminer/src/main/java/org/zaproxy/addon/paramminer/UrlGuesser.java:206-212 | a group whose probe reports `p`, sliced so that a piece holds `p`, passes `p` on: some group of the round holds it |
| ParamGroups.CoveringPiece | addOns/paramminer/src/main/java/org/zaproxy/addon/paramminer/UrlGuesser.java:208 | proof step (unfolds the coverage assumption of `SlicesOf`): every parameter of a sliced group is in some piece of its slices |
| ParamGroups.ConfirmKeeps | addOns/paramminer/src/main/java/org/zaproxy/addon/paramminer/UrlGuesser.java:166 | confirming loses no group: one holding `p` is either kept for the next round or added to the usable parameters |
| ParamGroups.GuessKeepsConfirmed | addOns/paramminer/src/main/java/org/zaproxy/addon/paramminer/UrlGuesser.java:163-170 | the usable list after the first round is a prefix of the one the loop ends with |
| ParamGroups.GuessFinds | addOns/paramminer/src/main/java/org/zaproxy/addon/paramminer/UrlGuesser.java:163-170 | a parameter the target reacts to (every probe of a group holding it reports it), held by a starting group, ends up isolated: the loop adds a candidate whose only parameter it is |
| ParamGroups.GuessIsolates | addOns/paramminer/src/main/java/org/zaproxy/addon/paramminer/UrlGuesser.java:163-170 | every candidate the loop adds has at most one entry: narrowing ends at single parameters |
| ParamGroups.GuessSilent | addOns/paramminer/src/main/java/org/zaproxy/addon/paramminer/UrlGuesser.java:164-170 | when no probe reports anything the loop adds no candidate |
| ParamGroups.GuessProbesOnly | addOns/paramminer/src/main/java/org/zaproxy/addon/paramminer/UrlGuesser.java:164-166 | the loop submits only BRUTEFORCE tasks, all for its method and against its baseline |
| ParamGroups.VerifiedParamsOfVerifications | addOns/paramminer/src/main/java/org/zaproxy/addon/paramminer/UrlGuesser.java:172-185 | the VERIFY tasks submitted for a list of candidates carry exactly those candidates, in order |
| ParamGroups.VerifyOnePerCandidate | addOns/paramminer/src/main/java/org/zaproxy/addon/paramminer/UrlGuesser.java:163-185 | over one `startGuess`, the VERIFY tasks carry exactly the usable candidates, one each, in order, and none is submitted during narrowing |
| ParamGroups.AllTasksShareBaseline | addOns/paramminer/src/main/java/org/zaproxy/addon/paramminer/UrlGuesser.java:142-185 | every task of one `startGuess` is for its method and against the same baseline, the one from the control request alone |
| ParamGroups.CandidatesFromWordlist | addOns/paramminer/src/main/java/org/zaproxy/addon/paramminer/UrlGuesser.java:162-170 | every usable candidate is made of parameters populated from the wordlist |
| ParamGroups.CandidatesIsolated | addOns/paramminer/src/main/java/org/zaproxy/addon/paramminer/UrlGuesser.java:162-170 | every usable candidate of one `startGuess` holds at most one parameter |
| ParamGroups.WordlistParamFound | addOns/paramminer/src/main/java/org/zaproxy/addon/paramminer/UrlGuesser.java:162-170 | every populated wordlist parameter the target reacts to ends up as a usable candidate of `startGuess` holding that parameter alone |
| ParamGroups.SilentTargetNoCandidates | addOns/paramminer/src/main/java/org/zaproxy/addon/paramminer/UrlGuesser.java:162-185 | against a target on which no probe reports anything, `startGuess` finds no candidate and submits no VERIFY task |
| UrlGuessing.EnabledMethods | addOns/paramminer/src/main/java/org/zaproxy/addon/paramminer/UrlGuesser.java:121-132 | a method is guessed with exactly when its flag is set, and the methods come in the order GET, POST, XML, JSON |
| UrlGuessing.StartedStep | addOns/paramminer/src/main/java/org/zaproxy/addon/paramminer/UrlGuesser.java:121-132 | proof step (unfolds `StartedVerbs`): considering method number `k` adds it to the methods guessed with exactly when it is enabled and the run has not failed |
| UrlGuessing.StartedAll | addOns/paramminer/src/main/java/org/zaproxy/addon/paramminer/UrlGuesser.java:119-137 | after the four `if`s, a run with a wordlist has guessed with every enabled method; one without a wordlist has guessed only with the first enabled method |
| UrlGuessing.MergeWordlists | addOns/paramminer/src/main/java/org/zaproxy/addon/paramminer/UrlGuesser.java:103-115 | with both lists: no duplicates, the words are exactly the union, and the length is the size of the union; with the default list alone: that list, in its order; otherwise: the custom list (possibly null) |
| UrlGuessing.ControlBaselines | addOns/paramminer/src/main/java/org/zaproxy/addon/paramminer/UrlGuesser.java:142-158 | one baseline request per method, in order, each carrying the control parameters alone |
| UrlGuessing.RunTasksInOrder | addOns/paramminer/src/main/java/org/zaproxy/addon/paramminer/UrlGuesser.java:121-132 | every task of a run over methods of increasing rank is for one of those methods, and tasks for an earlier method all come first |
| UrlGuessing.TasksInOrderAppend | addOns/paramminer/src/main/java/org/zaproxy/addon/paramminer/UrlGuesser.java:121-132 | appending the tasks of a later method to tasks in method order keeps them in method order |
| UrlGuessing.RunStep | addOns/paramminer/src/main/java/org/zaproxy/addon/paramminer/UrlGuesser.java:121-132 | proof step (unfolds `RunTasks` and `ControlBaselines`): guessing with one more method appends its tasks and its baseline request, after those of the earlier methods |
| UrlGuessing.RunFollowsConfig | addOns/paramminer/src/main/java/org/zaproxy/addon/paramminer/UrlGuesser.java:121-132 | a run submits tasks for enabled methods only, in the order GET, POST, XML, JSON |
| UrlGuessing.RunStateStart | addOns/paramminer/src/main/java/org/zaproxy/addon/paramminer/UrlGuesser.java:119-121 | proof step (the starting state): a run starts with nothing sent and nothing submitted |
| UrlGuessing.RunStateStep | addOns/paramminer/src/main/java/org/zaproxy/addon/paramminer/UrlGuesser.java:121-132 | one `startGuess` keeps the run state; guessing fails exactly when there is no wordlist, and then nothing is submitted |
| UrlGuessing.RunStateDone | addOns/paramminer/src/main/java/org/zaproxy/addon/paramminer/UrlGuesser.java:119-137 | after the four `if`s the run has done what `RunOutcome` describes |
| UrlGuessing.AppendEach | addOns/paramminer/src/main/java/org/zaproxy/addon/paramminer/UrlGuesser.java:209-211 | adding the slices one by one appends them all, in order |
| UrlGuessing.UrlGuesser.constructor | addOns/paramminer/src/main/java/org/zaproxy/addon/paramminer/UrlGuesser.java:94-115 | each wordlist is loaded only when its flag is set, and the wordlist is their merge as `MergedFrom` describes |
| UrlGuessing.UrlGuesser.NarrowDownParams | addOns/paramminer/src/main/java/org/zaproxy/addon/paramminer/UrlGuesser.java:188-219 | submits one BRUTEFORCE task per group, in order, and returns the round `Narrow` (properties: NarrowSplice, NarrowWeight, NarrowWithin) |
| UrlGuessing.UrlGuesser.NarrowGroup | addOns/paramminer/src/main/java/org/zaproxy/addon/paramminer/UrlGuesser.java:191-212 | one group: exactly one task submitted, and the slices of what its probe reported (nothing on null or failure) appended |
| UrlGuessing.UrlGuesser.StartGuess | addOns/paramminer/src/main/java/org/zaproxy/addon/paramminer/UrlGuesser.java:140-186 | sends exactly one baseline request; fails exactly when the wordlist is null (assuming `populate` throws on null), then submitting nothing; otherwise submits the tasks of `GuessRun` (properties: VerifyOnePerCandidate, AllTasksShareBaseline) |
| UrlGuessing.UrlGuesser.NarrowingLoop | addOns/paramminer/src/main/java/org/zaproxy/addon/paramminer/UrlGuesser.java:163-170 | the `while (true)` loop terminates, submits the probes of `Guess` and returns its usable parameters (properties: GuessKeepsUsable, GuessWithin) |
| UrlGuessing.UrlGuesser.SubmitVerifications | addOns/paramminer/src/main/java/org/zaproxy/addon/paramminer/UrlGuesser.java:171-185 | exactly one VERIFY task per usable candidate, in order, against the same baseline |
| UrlGuessing.UrlGuesser.Run | addOns/paramminer/src/main/java/org/zaproxy/addon/paramminer/UrlGuesser.java:119-138 | with a wordlist: the baselines and tasks of every enabled method, in the order GET, POST, XML, JSON; without one: only the first enabled baseline is sent, nothing is submitted, and the exception ends the run |
| UrlGuessing.UrlGuesser.GuessIfEnabled | addOns/paramminer/src/main/java/org/zaproxy/addon/paramminer/UrlGuesser.java:121-132 | one `if`: guesses with method number `k` exactly when its flag is set and the run has not failed |
| BytePacking.BigEndianSnoc | addOns/tokengen/src/main/java/com/fasteasytrade/JRandTest/Algo/SkipjackRandom.java:169-171 | shifting the packed value left by eight bits and OR-ing in the unsigned byte `b` gives the packing of the bytes with `b` appended |
| BytePacking.BigEndianBound | addOns/tokengen/src/main/java/com/fasteasytrade/JRandTest/Algo/SkipjackRandom.java:168-173 | `n` packed bytes stay below 256 to the power `n`, so four fit in 32 bits and eight in 64 |
| BytePacking.SplitPacked | addOns/tokengen/src/main/java/com/fasteasytrade/JRandTest/Algo/SkipjackRandom.java:168-173 | packing loses nothing: splitting the packed value gives the bytes back |
| BytePacking.ToJavaInt | addOns/tokengen/src/main/java/com/fasteasytrade/JRandTest/Algo/SkipjackRandom.java:168-173 | the `int` returned is in Java's range and has the packed 32-bit pattern |
| BytePacking.ToJavaLong | addOns/tokengen/src/main/java/com/fasteasytrade/JRandTest/Algo/SkipjackRandom.java:189-193 | the `long` returned is in Java's range and has the packed 64-bit pattern |
| BytePacking.IntBytesRecoverable | addOns/tokengen/src/main/java/com/fasteasytrade/JRandTest/Algo/SkipjackRandom.java:168-173 | the four bytes can be read back from the `int` returned |
| BytePacking.LongBytesRecoverable | addOns/tokengen/src/main/java/com/fasteasytrade/JRandTest/Algo/SkipjackRandom.java:189-193 | the eight bytes can be read back from the `long` returned |
| SkipjackOfb.Chain | addOns/tokengen/src/main/java/com/fasteasytrade/JRandTest/Algo/SkipjackRandom.java:134-139 | the register after `n` encrypt-and-copy steps, from the all-zero buffer the reader starts with |
| SkipjackOfb.Keystream | addOns/tokengen/src/main/java/com/fasteasytrade/JRandTest/Algo/SkipjackRandom.java:134-141 | keystream byte `j` is byte `j % 8` of the register after `j / 8 + 1` encryptions |
| SkipjackOfb.OutputBlockIsChain | addOns/tokengen/src/main/java/com/fasteasytrade/JRandTest/Algo/SkipjackRandom.java:134-139 | with a zero IV, OFB output block number `k + 1` is the register after `k + 1` encrypt-and-copy steps |
| SkipjackOfb.KeystreamIsOfb | addOns/tokengen/src/main/java/com/fasteasytrade/JRandTest/Algo/SkipjackRandom.java:134-141 | the bytes the reader hands out, in order, are the SP 800-38A OFB keystream under the cipher with an all-zero IV |
| SkipjackRandomStream.ReadByteSpec | addOns/tokengen/src/main/java/com/fasteasytrade/JRandTest/Algo/SkipjackRandom.java:125-153 | between calls the index stays within 1..8, and it stays 8 until a block has been encrypted |
| SkipjackRandomStream.ReadBytes | addOns/tokengen/src/main/java/com/fasteasytrade/JRandTest/Algo/SkipjackRandom.java:125-153 | `n` successive `readByte` calls: the final state is well formed and exactly `n` bytes come back, in order |
| SkipjackRandomStream.ReadIntSpec | addOns/tokengen/src/main/java/com/fasteasytrade/JRandTest/Algo/SkipjackRandom.java:159-174 | one `readInt`: -1 on a closed stream; -1 and the stream closed past the limit in PRNG mode; otherwise four `readByte` calls packed big-endian into a Java `int`; the state stays well formed |
| SkipjackRandomStream.ReadLongSpec | addOns/tokengen/src/main/java/com/fasteasytrade/JRandTest/Algo/SkipjackRandom.java:180-194 | one `readLong`: the same checks, otherwise eight `readByte` calls packed big-endian into a Java `long`; the state stays well formed |
| SkipjackRandomStream.ReadIntFromBytes | addOns/tokengen/src/main/java/com/fasteasytrade/JRandTest/Algo/SkipjackRandom.java:168-173 | proof step (the in-limit branch of `ReadIntSpec`): an in-limit `readInt` is exactly four `readByte` calls, packed |
| SkipjackRandomStream.ReadLongFromBytes | addOns/tokengen/src/main/java/com/fasteasytrade/JRandTest/Algo/SkipjackRandom.java:189-193 | proof step (the in-limit branch of `ReadLongSpec`): an in-limit `readLong` is exactly eight `readByte` calls, packed |
| SkipjackRandomStream.ReadClosed | addOns/tokengen/src/main/java/com/fasteasytrade/JRandTest/Algo/SkipjackRandom.java:126-182 | on a closed stream `readByte`, `readInt` and `readLong` return -1 and change nothing (lines 126-127, 160-161, 181-182) |
| SkipjackRandomStream.ReadExhausted | addOns/tokengen/src/main/java/com/fasteasytrade/JRandTest/Algo/SkipjackRandom.java:129-187 | in PRNG mode, once the counter is past the limit, each read closes the stream, returns -1 and changes nothing else (lines 129-132, 163-166, 184-187) |
| SkipjackRandomStream.ReadByteDelivers | addOns/tokengen/src/main/java/com/fasteasytrade/JRandTest/Algo/SkipjackRandom.java:134-152 | a successful read returns the next keystream byte (XOR the next file byte in file mode) and moves the position on by one; it encrypts a block exactly when the index was 8; it counts in PRNG mode only |
| SkipjackRandomStream.ReadBytesDeliver | addOns/tokengen/src/main/java/com/fasteasytrade/JRandTest/Algo/SkipjackRandom.java:134-152 | `n` in-limit reads return the next `n` keystream bytes in order (XOR the next `n` file bytes in file mode), and the counter grows by exactly `n` in PRNG mode |
| SkipjackRandomStream.EncryptionsPerBlock | addOns/tokengen/src/main/java/com/fasteasytrade/JRandTest/Algo/SkipjackRandom.java:134-139 | from a used-up block, reading `n` bytes encrypts exactly `n / 8` blocks, rounded up: one encryption per eight bytes |
| SkipjackRandomStream.ReopenSkipsToBlockBoundary | addOns/tokengen/src/main/java/com/fasteasytrade/JRandTest/Algo/SkipjackRandom.java:116 | marking the block used up moves the next keystream position to the next multiple of 8 |
| SkipjackRandomStream.ReadIntPacks | addOns/tokengen/src/main/java/com/fasteasytrade/JRandTest/Algo/SkipjackRandom.java:168-173 | within the limit `readInt` returns the next four stream bytes packed big-endian, and they can be recovered from it |
| SkipjackRandomStream.ReadLongPacks | addOns/tokengen/src/main/java/com/fasteasytrade/JRandTest/Algo/SkipjackRandom.java:189-193 | within the limit `readLong` returns the next eight stream bytes packed big-endian, and they can be recovered from it |
| SkipjackRandomStream.ReadIntAtLimit | addOns/tokengen/src/main/java/com/fasteasytrade/JRandTest/Algo/SkipjackRandom.java:159-174 | the limit is checked once per `readInt`: with the counter at the limit, the first byte is a keystream byte, the stream then closes, and the low 24 bits are all ones |
| SkipjackRandomStream.SkipjackRandom.constructor | addOns/tokengen/src/main/java/com/fasteasytrade/JRandTest/Algo/SkipjackRandom.java:50-57 | both buffers start as zeros, the index starts at 8 (block used up), and the stream starts closed |
| SkipjackRandomStream.SkipjackRandom.OpenInputStream | addOns/tokengen/src/main/java/com/fasteasytrade/JRandTest/Algo/SkipjackRandom.java:107-119 | the counter becomes 0, the index 8 and the stream open; the file restarts in file mode; the register is kept, so the keystream continues at the next block boundary |
| SkipjackRandomStream.SkipjackRandom.EncryptBlock | addOns/tokengen/src/main/java/com/fasteasytrade/JRandTest/Algo/SkipjackRandom.java:135 | the output block becomes the encryption of the input block, and the input block is unchanged |
| SkipjackRandomStream.SkipjackRandom.NextBlock | addOns/tokengen/src/main/java/com/fasteasytrade/JRandTest/Algo/SkipjackRandom.java:134-139 | from a used-up block: one encryption, then the input block equals the output block, the index is 0, and both hold the next register of the chain |
| SkipjackRandomStream.SkipjackRandom.RefillIfUsedUp | addOns/tokengen/src/main/java/com/fasteasytrade/JRandTest/Algo/SkipjackRandom.java:134-139 | a block is encrypted exactly when the index equals 8; otherwise nothing changes |
| SkipjackRandomStream.SkipjackRandom.ReadByte | addOns/tokengen/src/main/java/com/fasteasytrade/JRandTest/Algo/SkipjackRandom.java:125-153 | the new state and the byte are those of `ReadByteSpec`, and the buffer invariant holds (properties: ReadClosed, ReadExhausted, ReadByteDelivers) |
| SkipjackRandomStream.SkipjackRandom.NextByte | addOns/tokengen/src/main/java/com/fasteasytrade/JRandTest/Algo/SkipjackRandom.java:134-152 | past the two checks: refill when used up, hand out the byte at the index, and count it (PRNG) or XOR it with the file byte |
| SkipjackRandomStream.SkipjackRandom.ReadUnsignedByte | addOns/tokengen/src/main/java/com/fasteasytrade/JRandTest/Algo/SkipjackRandom.java:169 | `0xff & readByte()` is the next byte as an unsigned value, and the shift-and-or extends the packed value by it |
| SkipjackRandomStream.SkipjackRandom.ReadInt | addOns/tokengen/src/main/java/com/fasteasytrade/JRandTest/Algo/SkipjackRandom.java:159-174 | the new state and the value are those of `ReadIntSpec` (properties: ReadIntPacks, ReadIntAtLimit) |
| SkipjackRandomStream.SkipjackRandom.ReadLong | addOns/tokengen/src/main/java/com/fasteasytrade/JRandTest/Algo/SkipjackRandom.java:180-194 | the new state and the value are those of `ReadLongSpec` (property: ReadLongPacks) |

## Left out

- HTTP: sending requests, `HttpSender`, and the response fingerprint
  `ComparableResponse`. A baseline is identified by its request. The network
  is the list `requests` of baseline requests sent.
- The probe (`UrlBruteForce` with its `requester`): it is a function of the
  baseline, the method and the group. So two probes of the same group give the
  same answer, which a flaky target need not do.
- `UrlUtils.slice`, `UrlUtils.populate`, `UrlUtils.confirmUsableParameters`
  and `UrlUtils.read`: their code is not part of this model. They are
  parameters, and `ParamGroups.Assumptions` states what the proofs need of
  them.
- The executor and its futures: every submitted task goes to the list
  `submitted`. A BRUTEFORCE probe's answer is taken at once, which is what
  `future.get()` right after `submit` does.
- Interrupted and failed futures are folded into the probe answering `None`,
  because the code treats them like null.
- Logging, the TODOs, and the fields `id`, `scan`, `httpSender`,
  `guessedParams` (always null) and `paramGuessResults` (assigned an empty
  list and never read). The unused `Status` enum is also left out.
- Exceptions in `run` other than the null wordlist, for example from `read`,
  `populate` or the baseline request.
- UrlGuessing.UrlGuesser.StartGuess: requires `Assumptions` on the
  collaborators, which the Java code does not demand. With a slice or confirm
  that breaks them, the Java loop may never end; the model does not capture
  such runs.
- UrlGuessing.UrlGuesser.StartGuess: assumes that with a null wordlist the
  probe's construction and the baseline request succeed and
  `UrlUtils.populate(null)` throws. Their code is not part of this model. If
  `populate` returned an empty map instead, `startGuess` would complete
  normally (the model's `ok` would be true) and `run` would go on to the
  next method.
- UrlGuessing.UrlGuesser.Run: requires `Assumptions` for the same reason as
  StartGuess, and makes the same assumption about a null wordlist.
- UrlGuessing.UrlGuesser.NarrowingLoop: requires `Assumptions` for the same
  reason as StartGuess.
- ParamGroups.Guess: requires `Assumptions`, which its termination needs.
- ParamGroups.GuessRun: requires `Assumptions`, because it calls `Guess`.
- UrlGuessing.MergeWordlists: the order of the merged list with both lists
  present is left open, because it is the `HashSet` iteration order.
- The Skipjack cipher, its key schedule, and `setup` (including the
  `java.util.Random` key). The cipher is a fixed function from blocks to
  blocks, the same after every re-open.
- The parent stream `FileAlgoRandomStream`:
  - Its file I/O. `super.readByte()` is an infinite sequence of bytes (`source`),
    so the end of the file is not modelled.
  - Re-opening the file in file mode restarts that sequence.
  - The fields `countLastRead` and `actualSize` that `openInputStream` sets.
  - Its effect on the fields `count` and `open`, and their initial values.
    Its code is not part of this model. The model assumes that
    `super.readByte()` changes neither field and that they start at 0 and
    false. `SkipjackRandomStream.ReadByteDelivers` (counting in PRNG mode
    only) and the constructor (the stream starts closed) rely on this.
- SkipjackRandomStream.SkipjackRandom.ReadByte: the counter `count` and the
  limit `maxCount` are unbounded integers. A fixed-width Java counter would
  wrap around at its largest value instead of passing a limit set there.
- The `main` method and its console output.
- Java exceptions thrown by the reader (`throws Exception`).
