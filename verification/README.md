# A verified model of the mining pool's core algorithms

This Dafny project models the hard logic of a Zcash mining pool and its CPU miner, and proves what each part
promises over all inputs, runs and interleavings. `dafny verify dfyconfig.toml` checks everything.

| files | what they model |
|---|---|
| `Vardiff`, `VardiffClock`, `VardiffRuns` | the variable-difficulty controller: the tracker class, one call in terms of the clock, and whole runs |
| `VardiffRegion`, `VardiffSettling`, `VardiffRunaway`, `VardiffArrival` | its convergence for a miner of constant hash rate: how often it ramps, when without end, and when it arrives |
| `VardiffBasin`, `VardiffRest`, `VardiffEndless` | how often the difficulty of such a miner changes at all, and when without end |
| `Target` | difficulty to 32-byte target, its text form, and the miner's test of a hash against it |
| `Encoding` | hexadecimal text, little- and big-endian numbers, compactSize |
| `AuthMerkle`, `Coinbase`, `CoinbaseFacts`, `CoinbaseBytes` | the coinbase tag, the authorizing-data root and hashBlockCommitments (ZIP 244), over arbitrary hashes, and byte for byte |
| `Split`, `Metrics`, `MetricsStream` | the streaming reader of the node's metrics page against the whole-body parser |
| `MetricsReread` | the held text that is parsed once more after an early exit |
| `MetricsLines`, `MetricsPage` | the lines as a node writes them, each read back; and pages on which the second parse shows |
| `Codec` | newline-delimited stratum framing (ZIP 301) |
| `Nonce`, `Jobs`, `JobsProgress` | the partition of the nonce space ("Nonce Parts" of ZIP 301), and the miner's jobs as interleaved steps: retirement, and what is done in the end |
| `Limiter` | the login limiter under interleaved handlers |
| `Scanner` | the UTF-8-aware coinbase text scanner (section 4 of RFC 3629) |
| `Tally`, `Grouping` | rows of the network page |
| `Lag` | the template lag window and its percentiles |
| `Common` | options, results, bytes, powers |

Code that changes state step by step is a class or a method proved against a specification function; what the code is
for is then proved about that function. Protocols with several threads are state machines over their atomic steps.

## Main results

- **Ramps settle.** For a miner whose measured rate is always k/difficulty, ramps approach the equilibrium from
  one side, at most as many as doublings are needed (one more after a reversal). After that no run ever ramps again:
  the slow average cannot swing the ratio out of [0.25, 4]. The proof pushes the half-plane `average <= 4` eight times
  through the linear map of a full upward step; eight such sides enclose every trajectory.
- **When the ramps end, exactly.** From any state, the ramps of such a miner are unbounded if and only if its
  equilibrium lies more than a factor of four beyond a limit and the zone of 10 to 50 shares a minute is neither entered
  on the way to that limit nor at it; the condition is read off the tracker before the run. So a miner that changes its
  rate causes a bounded number of ramps again, unless the new rate is such a one.
- **It arrives.** With the equilibrium in reach, as many measurements as doublings are needed (one more after a
  reversal) bring the ratio into the band, unless one of them outside it reads 10 to 50. For a new tracker that
  exclusion can be dropped for exactly the targets from 12.5 to 40 shares a minute and those above 200 times the
  highest difficulty.
- **It comes to rest.** From any state, all retargets together, the small ones inside the band included, are bounded
  for an equilibrium above 0.6 times the minimum and below 1.5 times the maximum: inside the band the moves go down,
  then up, then down, and no further. A second family of half-planes, pushed through the full downward step, shows that
  the last phase never turns up again. In general they are bounded exactly when no limit keeps pushing, a condition
  computed from the state before the run.
- **Commitments bind.** Equal hashBlockCommitments come from equal history root, branch id, scriptSig and padded
  digests, for blocks of any two sizes, unless two of the byte strings that were actually hashed collide. No hash is
  assumed injective.
- **Streaming equals parsing.** For every chunking the loop-exit accumulator is the same line fold of the body. What the
  second parse of the held text reads after an early exit is stated exactly, and so is when it is harmless; two chunks
  show it putting a gauge back and adding a peer count to a request count.
- **Framing conserves frames**, and encoding is inverted for every chunking and every placing of decode calls.
- **Written metrics are read back**: every gauge, counter, label and number, over all values.
- **Jobs retire cleanly** in every interleaving, no nonce is tried twice for a job and none is skipped, and the jobs are
  exactly the accepted notifies: a clean one always takes over.
- **The login limit** is 4 + p failures in 900 s with p overlapping handlers, and that is attained.

## Where the code and its comments disagree

The model follows the code.

- `crates/pool-core/src/difficulty.rs:9-10` describes a dead zone of 0.8x to 1.2x; the code uses 0.6 to 1.5.
- `crates/pool-core/src/difficulty.rs:123-126` equates 10 to 50 shares a minute with ratios 0.5 to 2.5; the bounds are
  absolute, so that is so for a target of 20 only (`VardiffSettling.StableZoneInsideBand`).
- `crates/pool-core/src/difficulty.rs:226` spells 2^243 - 1; the code uses 2^251 - 1.
- A ramp that is pinned at the maximum is recorded and reported as a move down
  (`VardiffSettling.PinnedRampGoesNowhere`).
- `crates/pool-api/src/zebra_metrics.rs:163` speaks of a final partial line, but after an early exit the held text is
  all of the last chunk and the line begun before it; it is parsed again as one line, which can put a gauge back or
  add another metric's number to a counter (`MetricsReread.ScrapeAgreesExactly`, `MetricsPage.PeersGoBack`,
  `MetricsPage.RequestsGrow`).
- `crates/pool-api/src/admin.rs:178-184` promises five guesses in fifteen minutes; overlapping handlers get one more
  each (`Limiter.BoundIsReached`).
- `crates/pool-api/src/network.rs:457-463` identifies our blocks by the tag's hexadecimal text, which also matches
  half a byte out of step (`CoinbaseFacts.RecognisedExactly`).
- `crates/pool-api/src/network.rs:106` speaks of the longest valid sequence; the code accepts only the full length its
  lead byte asks for, which comes to the same (`Scanner.CountKept`).
- `crates/cpu-miner/src/main.rs:334-347` keeps only the low 32 bits of a length (`CompactSize.RoundTripExactly`).

## Model

| member | source | states |
|---|---|---|
| Vardiff.VardiffTracker.constructor | crates/pool-core/src/difficulty.rs:47-66 | a new tracker is the fresh state every run lemma starts from |
| Vardiff.VardiffTracker.RecordShare | crates/pool-core/src/difficulty.rs:69-101 | the fields change, and the retarget is reported, as one Share event of the run model; which shares are measured is VardiffClock.ShareClosesWindow |
| Vardiff.VardiffTracker.ForceRetarget | crates/pool-core/src/difficulty.rs:105-108 | the same for one Force event, which skips the triggers but not the half-second guard |
| Vardiff.VardiffTracker.ComputeRetarget | crates/pool-core/src/difficulty.rs:111-198 | the step-by-step update through the four exits refines the verdict-and-landing model |
| Vardiff.FreshIsValid | crates/pool-core/src/difficulty.rs:47-66 | the invariant holds at construction exactly for initial difficulties in (0, 1e10] |
| Vardiff.ComputeKeepsValid | crates/pool-core/src/difficulty.rs:135-168 | one computation keeps the difficulty in its limits and the average in [0.25, 4], and moves the difficulty by at most a factor of two |
| VardiffClock.ShareClosesWindow | crates/pool-core/src/difficulty.rs:69-101 | a share is measured exactly when half a second has passed since the last retarget and its window is as old as the interval, or at least three seconds old with more than four times the expected shares and no early retarget in twelve; and which trigger is reported |
| VardiffClock.ForceClosesWindow | crates/pool-core/src/difficulty.rs:105-118 | a forced retarget waits for the half second only, and reports the rate limit |
| VardiffClock.FirstShare | crates/pool-core/src/difficulty.rs:47-101 | the same in the parameters of a new tracker |
| VardiffClock.FreshLimits | crates/pool-core/src/difficulty.rs:47-66 | over every run of a new tracker the difficulty stays between min(initial, 1) and 1e10 |
| VardiffClock.RateIsCounted | crates/pool-core/src/difficulty.rs:120-121 | shares per minute, with a hundredth of a second as the shortest window |
| VardiffClock.ZoneOnlyClosesWindow | crates/pool-core/src/difficulty.rs:123-131 | 10 to 50 shares a minute change neither difficulty nor average |
| VardiffClock.MeasuredOutsideZone | crates/pool-core/src/difficulty.rs:133-161 | when any other rate moves the difficulty, and the average it leaves |
| VardiffClock.MoveReachesAim | crates/pool-core/src/difficulty.rs:138-195 | a move reaches its aim (doubled, halved, times 5/4 or 4/5, within the limits), or half way to it after a move the other way |
| VardiffClock.LateShareLowers | crates/pool-core/src/difficulty.rs:96-146 | a lone late share halves the difficulty of a tracker that has not moved before |
| VardiffRuns.RunKeepsLimits | crates/pool-core/src/difficulty.rs:133-198 | over every run the difficulty, also at every retarget in between, stays within the limits fixed at construction and the average in [0.25, 4] |
| VardiffRuns.RetargetsAreSpaced | crates/pool-core/src/difficulty.rs:116-118 | any two retargets of a run are at least 0.5 s per intervening retarget apart, counted from the last one before the run |
| VardiffRuns.EarlyRetargetsAreSpaced | crates/pool-core/src/difficulty.rs:89-94 | early-triggered retargets of a run are at least 12 s apart each |
| VardiffRuns.GrowthPerRetarget | crates/pool-core/src/difficulty.rs:135-168 | n retargets change the difficulty by at most 2^n either way |
| VardiffRuns.GrowthOverTime | crates/pool-core/src/difficulty.rs:111-198 | t seconds after a retarget the difficulty is within 2^floor(t/0.5) of where it was, whatever shares arrived |
| VardiffRuns.SharesAreConserved | crates/pool-core/src/difficulty.rs:69-70 | every share of a run is counted in exactly one window |
| VardiffRuns.MeasurementClosesWindow | crates/pool-core/src/difficulty.rs:120-131 | every measurement that passes the guard starts a new window at its own time; anything else only counts the share |
| VardiffRuns.EarlyMeansFlood | crates/pool-core/src/difficulty.rs:82-94 | the early trigger fires only when the rate that is then measured exceeds four times the target |
| VardiffRuns.EarlyOnlyRaises | crates/pool-core/src/difficulty.rs:92-146 | so an early-triggered retarget is a ramp that raises the difficulty, unless it is already at the maximum |
| VardiffRegion.UpStaysInside | crates/pool-core/src/difficulty.rs:153-167 | raising the difficulty by at most 1.25 keeps (ratio, average) in the region |
| VardiffRegion.DownStaysInside | crates/pool-core/src/difficulty.rs:153-167 | lowering it by at least 0.8 does too |
| VardiffRegion.HoldStaysInside | crates/pool-core/src/difficulty.rs:153-161 | so does an average that moves inside the dead zone |
| VardiffRegion.ResetIsInside | crates/pool-core/src/difficulty.rs:143 | the reset after a ramp lands inside for every ratio in [0.25, 4] |
| VardiffSettling.RampApproaches | crates/pool-core/src/difficulty.rs:140-183 | for a miner whose measured rate is k/difficulty a ramp stays on its side of the equilibrium k/target and moves strictly toward it, except exactly when pinned at a limit |
| VardiffSettling.RampLanding | crates/pool-core/src/difficulty.rs:138-146 | a ramp of such a miner doubles or halves up to the limit, and which one depends on the side it is on |
| VardiffSettling.ConstantRateIsExact | crates/pool-core/src/difficulty.rs:120-121 | a miner that finds k/difficulty shares a minute is measured at exactly that rate when its shares come evenly |
| VardiffSettling.SettledForever | crates/pool-core/src/difficulty.rs:123-198 | once inside the region, no later event of any run of such a miner ramps, and the ratio never leaves [0.25, 4] |
| VardiffSettling.RampsAreBounded | crates/pool-core/src/difficulty.rs:133-198 | a whole run holds at most n ramps, one more after a wrong last move, n doublings being the distance to the band |
| VardiffSettling.FreshTrackerSettles | crates/pool-core/src/difficulty.rs:47-198 | from construction: at most n ramps in any run, for every reachable equilibrium |
| VardiffSettling.PinnedRampGoesNowhere | crates/pool-core/src/difficulty.rs:140-197 | at a limit that bars the equilibrium, every measurement outside 10 to 50 shares a minute is a ramp to the same difficulty, recorded as a move down |
| VardiffSettling.StableZoneFreezes | crates/pool-core/src/difficulty.rs:123-131 | at 10 to 50 shares a minute nothing is ever adjusted, whatever the target |
| VardiffSettling.StableZoneInsideBand | crates/pool-core/src/difficulty.rs:123-131 | that zone lies inside the ratio band [0.25, 4] exactly for targets from 12.5 to 40 shares a minute |
| VardiffRunaway.RampsBoundedExactly | crates/pool-core/src/difficulty.rs:111-198 | from any state, the ramps of such a miner are bounded over all runs if and only if it does not run away: equilibrium above 4 times the maximum and a rate below 10 already or above 50 even there, or the mirror image at the minimum |
| VardiffRunaway.InBandRamps | crates/pool-core/src/difficulty.rs:123-198 | from inside the ratio band [0.25, 4], whatever the average, a run holds at most two ramps |
| VardiffRunaway.RateChange | crates/pool-core/src/difficulty.rs:111-198 | after any run and a change of the miner's rate the ramps that follow are bounded unless the new rate runs away, which none in reach of its equilibrium does |
| VardiffRunaway.RunawayRampsForever | crates/pool-core/src/difficulty.rs:69-198 | for every n, a run of shares alone with exactly n ramps and a clock that never runs backwards for each miner that runs away |
| VardiffRunaway.RunawayRamps | crates/pool-core/src/difficulty.rs:140-197 | every measurement of such a run is a ramp |
| VardiffRunaway.FreshBoundedExactly | crates/pool-core/src/difficulty.rs:47-198 | the same for a new tracker, as a condition on target rate, initial difficulty and hash rate |
| VardiffRunaway.MeasuringRun | crates/pool-core/src/difficulty.rs:69-131 | exact runs of shares alone with any number of measurements exist |
| VardiffArrival.Arrives | crates/pool-core/src/difficulty.rs:111-198 | after n measurements, one more after a wrong last move, a miner n doublings from the band is in it with the average inside the region, if none of them outside the band reads 10 to 50 shares a minute |
| VardiffArrival.FreshTrackerArrives | crates/pool-core/src/difficulty.rs:47-198 | from construction: n measurements bring every reachable equilibrium into the band, under the same exclusion |
| VardiffArrival.ArrivesWithoutExclusion | crates/pool-core/src/difficulty.rs:123-131 | for targets from 12.5 to 40 no run needs that exclusion, from any state |
| VardiffArrival.ArrivesExactly | crates/pool-core/src/difficulty.rs:47-131 | over new trackers it can be dropped for exactly those targets and those above 200 times the highest difficulty; for any other, some miner in reach of its equilibrium never gets into the band |
| VardiffBasin.EntersBasin | crates/pool-core/src/difficulty.rs:153-161 | every average of the dead zone over a ratio below 1.5 is in the second region |
| VardiffBasin.DownStaysInBasin | crates/pool-core/src/difficulty.rs:153-167 | lowering the difficulty by at least 0.8 stays in it |
| VardiffBasin.BasinPushesDown | crates/pool-core/src/difficulty.rs:153-167 | in it the average never pushes up, and pushes down below ratio 1.2 only |
| VardiffRest.PhaseStep | crates/pool-core/src/difficulty.rs:148-198 | inside the band a measurement stays in its phase (down, up, down) and a move uses up some of what the phase has left |
| VardiffRest.BandChanges | crates/pool-core/src/difficulty.rs:123-198 | a whole run from inside the band holds at most three phases' worth of retargets, and one excursion if it is not settled |
| VardiffRest.OutsideChanges | crates/pool-core/src/difficulty.rs:123-198 | from outside: the ramps into the band and two phases |
| VardiffRest.ComesToRest | crates/pool-core/src/difficulty.rs:111-198 | so all retargets together are bounded from any state, for an equilibrium above 0.6 times the minimum and below 1.5 times the maximum |
| VardiffEndless.DeadZoneIsQuiet | crates/pool-core/src/difficulty.rs:156-161 | with ratio in [0.6, 1.5] and average between them nothing ever changes |
| VardiffEndless.EndlessRun | crates/pool-core/src/difficulty.rs:69-198 | for every n, a run of shares alone with at least n retargets, on a clock that never runs backwards, for each miner that a limit keeps pushing |
| VardiffEndless.RetargetsEndExactly | crates/pool-core/src/difficulty.rs:111-198 | from any state, all retargets are bounded over all runs if and only if no limit keeps pushing: the equilibrium at least 1.5 times the maximum, or at most 0.6 times the minimum, with the zone out of the way, once an average on the wrong side has turned |
| VardiffEndless.FreshRetargetsEndExactly | crates/pool-core/src/difficulty.rs:47-198 | the same for a new tracker, as a condition on target rate, initial difficulty and hash rate |
| Target.DifficultyToTargetHex | crates/pool-core/src/difficulty.rs:219-244 | the 64 digits are big-endian min(floor((2^251 - 1)/d), 2^256 - 1), and all ones for d at most zero |
| Target.ParseTarget | crates/cpu-miner/src/main.rs:349-358 | the text's number is kept under left padding; bad digits and more than 32 bytes are refused |
| Target.MeetsTarget | crates/cpu-miner/src/main.rs:322-332 | the byte loop decides little-endian hash at most big-endian target |
| Target.IsShare | crates/cpu-miner/src/main.rs:265-278 | difficulty text, parsing and test together accept exactly the hashes up to the target number |
| Target.EasierTarget | crates/pool-core/src/difficulty.rs:219-229 | a share at some difficulty is a share at every smaller one, also across zero |
| Target.SaturatedTarget | crates/pool-core/src/difficulty.rs:229-237 | every hash is accepted exactly up to the difficulty where the quotient no longer fits |
| Target.TargetIsQuotient | crates/pool-core/src/difficulty.rs:219-237 | the target is the largest n with n times the difficulty at most 2^251 - 1, or 2^256 - 1 |
| Hex.DecodeEncode | crates/pool-core/src/coinbase.rs:34-35 | decoding undoes encoding for every byte string |
| Hex.DecodeSucceeds | crates/pool-core/src/coinbase.rs:144-145 | decoding is refused exactly for odd lengths and non-hexadecimal characters |
| Hex.EncodeDecode | crates/pool-core/src/coinbase.rs:34-35 | encoding undoes decoding for every text of pairs of small-letter digits |
| Hex.DigitsOfByte | crates/pool-core/src/coinbase.rs:178-188 | two digits a byte, the high one first |
| Hex.DecodedByte | crates/pool-core/src/coinbase.rs:34-35 | each byte is 16 times its first digit plus its second |
| Hex.DigitValue | crates/pool-core/src/coinbase.rs:34-35 | a digit's value is its position, in small or capital letters |
| Hex.OnlyDigits | crates/pool-core/src/coinbase.rs:34-35 | and there are no other digits |
| Endian.PlaceValues | crates/cpu-miner/src/main.rs:322-332 | which end of a byte string is the light one, for both orders |
| Endian.ByteAt | crates/cpu-miner/src/main.rs:234-239 | the i-th byte of a little-endian number is its i-th digit to base 256 |
| CompactSize.ReadEncode | crates/pool-core/src/coinbase.rs:263-296 | reading the miner's encoding at any offset in any bytes gives the number modulo 2^32 and the encoded length |
| CompactSize.RoundTripExactly | crates/cpu-miner/src/main.rs:334-347 | the number itself comes back exactly when it is below 2^32 |
| CompactSize.PrefixFree | crates/cpu-miner/src/main.rs:334-347 | an encoding that is a prefix of another is that encoding, of a number equal modulo 2^32 |
| CompactSize.ByteOfIsEncode | crates/pool-core/src/coinbase.rs:299-304 | the one-byte form agrees with the general encoder and exists exactly when that uses one byte |
| CompactSize.EncodedForms | crates/cpu-miner/src/main.rs:334-347 | the one-, three- and five-byte forms, byte by byte, and for which numbers each is used |
| CompactSize.ReadForms | crates/pool-core/src/coinbase.rs:263-296 | what each lead byte reads, and when the data are too short for it |
| AuthMerkle.AuthDataMerkleRoot | crates/pool-core/src/coinbase.rs:235-260 | the padded bottom-up loop terminates with the root of the tree that splits its leaves in the middle |
| AuthMerkle.LevelKeepsRoot | crates/pool-core/src/coinbase.rs:248-257 | one round of pairwise hashing halves the level and keeps the root |
| AuthMerkle.NextPowerIsLeast | crates/pool-core/src/coinbase.rs:242 | the padded size is the least power of two that is large enough |
| AuthMerkle.RootBinds | crates/pool-core/src/coinbase.rs:235-260 | without a collision among the inputs actually hashed, equal roots of equal size mean equal leaves |
| AuthMerkle.FirstLeafFixesDepth | crates/pool-core/src/coinbase.rs:235-260 | equal roots belong to trees of one depth when the first leaf is a hash with another personalization than the nodes |
| AuthMerkle.SamePadding | crates/pool-core/src/coinbase.rs:243-245 | lists with one padded size pad to the same leaves exactly when they differ by trailing zero leaves |
| AuthMerkle.TrailingZeroLeaf | crates/pool-core/src/coinbase.rs:240-245 | so a trailing zero leaf is not recorded in the root |
| CoinbaseBytes.RootBytes | crates/pool-core/src/coinbase.rs:235-260 | a single leaf is the root, any other the hash, under the sixteen bytes of ZcashAuthDatHash, of left half then right half |
| CoinbaseBytes.PaddedBytes | crates/pool-core/src/coinbase.rs:240-245 | only zero bytes follow the leaves |
| CoinbaseBytes.TwoLeafRoot | crates/pool-core/src/coinbase.rs:235-260 | the roots of one and two leaves written out |
| Coinbase.BlockCommitmentsFromAuth | crates/pool-core/src/coinbase.rs:496-529 | success, value and first error are those of the commitment specification, whose bytes CoinbaseBytes.CommitmentBytes spells out |
| Coinbase.V5Commitments | crates/pool-core/src/coinbase.rs:132-181 | the inline version 5 computation meets the same specification, so the two agree on all inputs; its bytes are spelled out in CoinbaseBytes.V5Commitment |
| CoinbaseBytes.CommitmentBytes | crates/pool-core/src/coinbase.rs:496-529 | a reported commitment is, read backwards, the hash under ZcashBlockCommit of 96 bytes: the history text backwards, the root over the coinbase digest and the digest texts backwards, and zeros |
| CoinbaseBytes.AuthBytes | crates/pool-core/src/coinbase.rs:201-227 | the coinbase digest is the hash under ZTxAuthHash_ and the branch id of the script, Sapling and Orchard digests in this order |
| CoinbaseBytes.FirstBadText | crates/pool-core/src/coinbase.rs:143-167 | the first text that is not 64 hexadecimal characters decides the error, the history text coming last |
| CoinbaseFacts.AuthBinds | crates/pool-core/src/coinbase.rs:201-227 | the coinbase digest fixes branch id and scriptSig, without a collision among the inputs hashed |
| Coinbase.LocateScriptSig | crates/pool-core/src/coinbase.rs:65-95 | the offsets found cut the bytes into the parsed fields, or the error is the parser's |
| Coinbase.InjectCoinbaseTag | crates/pool-core/src/coinbase.rs:28-193 | copying bytes around offsets refines the field-level rewrite, with every error in the source's order; what is returned is stated for version 6 in CoinbaseBytes.V6Injection, for 4 and 5 in CoinbaseBytes.InjectedBytes |
| CoinbaseBytes.V6Injection | crates/pool-core/src/coinbase.rs:46-48 | for bytes 06 00 00 80 the library's error comes first, then those of the texts; otherwise the library's bytes are returned with no txid and the commitment of the library's digest |
| CoinbaseBytes.V6Commitment | crates/pool-core/src/coinbase.rs:477-491 | that commitment byte for byte, its first leaf the library's digest |
| CoinbaseBytes.ParsedBytes | crates/pool-core/src/coinbase.rs:55-95 | the parsed fields in the order they stand in the bytes, behind 20 bytes of header for version 5 and 8 for version 4 |
| CoinbaseBytes.InjectedBytes | crates/pool-core/src/coinbase.rs:117-130 | an accepted tag changes the length byte and extends the scriptSig, nothing else; version 4 reports the reversed hash of the new bytes |
| CoinbaseBytes.V5Commitment | crates/pool-core/src/coinbase.rs:132-181 | version 5 reports a commitment whose first leaf hashes bytes 8 to 12 of the coinbase and the new scriptSig behind its length |
| CoinbaseBytes.RefusedVersion | crates/pool-core/src/coinbase.rs:34-64 | bad hexadecimal, missing and unknown versions |
| CoinbaseBytes.RefusedParse | crates/pool-core/src/coinbase.rs:66-95 | where truncated or foreign bytes are refused, by offset |
| CoinbaseBytes.RefusedLength | crates/pool-core/src/coinbase.rs:108-115 | a new tag is refused exactly when it takes the scriptSig beyond 100 bytes |
| CoinbaseFacts.ParseIsInverse | crates/pool-core/src/coinbase.rs:65-95 | parsing succeeds with some fields exactly when they are well formed and serialize to the input |
| CoinbaseFacts.InjectionReparses | crates/pool-core/src/coinbase.rs:97-130 | an accepted version 4 or 5 result re-parses to the same header, count, prevout and trailing bytes, with the tag in a scriptSig that is the old one or old ++ tag within 100 bytes |
| CoinbaseFacts.ReportsReturnedTransaction | crates/pool-core/src/coinbase.rs:132-192 | the reported txid or commitment is the one of the returned bytes and of their re-parsed fields |
| CoinbaseFacts.InjectionIsIdempotent | crates/pool-core/src/coinbase.rs:97-106 | injecting again returns the transaction unchanged, with neither txid nor commitment |
| CoinbaseFacts.CommitmentsAccepted | crates/pool-core/src/coinbase.rs:143-167 | a commitment is computed exactly when all digests are 64 hexadecimal characters; its errors do not depend on the coinbase |
| CoinbaseFacts.AcceptedExactly | crates/pool-core/src/coinbase.rs:34-115 | which version 4 and 5 coinbases are accepted, in terms of their fields |
| CoinbaseFacts.TagIsRecognised | crates/pool-api/src/network.rs:523-527 | every scriptSig that carries the tag passes the hexadecimal own-block test |
| CoinbaseFacts.InjectionIsRecognised | crates/pool-core/src/coinbase.rs:97-130 | every accepted version 4 or 5 injection passes that test on the returned transaction |
| CoinbaseFacts.RecognisedExactly | crates/pool-api/src/network.rs:523-527 | the test also passes exactly when the tag's digits occur half a byte out of step |
| CoinbaseFacts.RecognisedOutOfStep | crates/pool-api/src/network.rs:459-463 | for every tag, a scriptSig one byte longer that lacks the tag and passes the test |
| CoinbaseFacts.CommitmentBinds | crates/pool-core/src/coinbase.rs:169-175 | without a collision among the inputs hashed, equal commitments mean equal history root, branch id, scriptSig, padded digests and padded number of transactions, for blocks of any two sizes |
| CoinbaseFacts.ReportedCommitmentBinds | crates/pool-core/src/coinbase.rs:132-192 | so two injections that report one hashBlockCommitments returned transactions with one scriptSig and branch id, for one history root |
| Metrics.ZebraMetrics.ParseLineInto | crates/pool-api/src/zebra_metrics.rs:223-288 | the early returns around the height test refine the line model, whose written lines MetricsLines reads one by one |
| MetricsStream.ReadLoop | crates/pool-api/src/zebra_metrics.rs:116-162 | for every chunking the accumulator at loop exit is the fold of the body's lines up to the first that fills all targets; the held text is the unfinished line, or on early exit all that chunk's text |
| MetricsStream.FetchZebraMetrics | crates/pool-api/src/zebra_metrics.rs:116-166 | without early exit the scrape is the whole-body parser; with it, the held text has been parsed once more as one line |
| MetricsStream.ParseZebraMetrics | crates/pool-api/src/zebra_metrics.rs:208-214 | the line loop is the fold over the body's lines |
| MetricsStream.CompleteLinesOfConcat | crates/pool-api/src/zebra_metrics.rs:142-161 | text that arrives later only extends the unfinished last line |
| MetricsStream.CutAfterLastNewline | crates/pool-api/src/zebra_metrics.rs:143-160 | cutting after the last newline loses no line and leaves the partial one |
| MetricsStream.FilledStays | crates/pool-api/src/zebra_metrics.rs:184-195 | a filled target is never unfilled by later lines |
| MetricsStream.FirstHeightWins | crates/pool-api/src/zebra_metrics.rs:230-242 | the verified height is that of the first line with either name |
| MetricsLines.EntriesAddUp | crates/pool-api/src/zebra_metrics.rs:266-279 | over any list of written request and error lines with any labels, each counter is the sum of the numbers labelled getblocktemplate, and nothing else changes |
| MetricsLines.RequestLineSays | crates/pool-api/src/zebra_metrics.rs:268-273 | a written request line adds its number if its method is getblocktemplate and says nothing otherwise |
| MetricsLines.ErrorLineSays | crates/pool-api/src/zebra_metrics.rs:274-279 | the same for error lines |
| MetricsLines.CountersMerge | crates/pool-api/src/zebra_metrics.rs:271-286 | what counter and version readings do to the snapshot |
| MetricsLines.ZebradLineSays | crates/pool-api/src/zebra_metrics.rs:280-287 | a zebrad build line gives the version it is labelled with |
| MetricsLines.ZakuraLineSays | crates/pool-api/src/zebra_metrics.rs:280-287 | and so does a zakura build line |
| MetricsLines.OtherFamiliesSayNothing | crates/pool-api/src/zebra_metrics.rs:268-288 | no other labelled line says anything |
| MetricsLines.HeightLines | crates/pool-api/src/zebra_metrics.rs:233-242 | either height name, spelled out, gives the height once |
| MetricsLines.TipLine | crates/pool-api/src/zebra_metrics.rs:243-244 | the tip gauge, spelled out, sets its field and nothing else |
| MetricsLines.DistanceLine | crates/pool-api/src/zebra_metrics.rs:245-246 | the distance gauge |
| MetricsLines.ActiveLine | crates/pool-api/src/zebra_metrics.rs:247-248 | the active requests |
| MetricsLines.BlockTotalLine | crates/pool-api/src/zebra_metrics.rs:249-252 | the block total |
| MetricsLines.GossipLine | crates/pool-api/src/zebra_metrics.rs:253-254 | the gossip queue |
| MetricsLines.PeerLine | crates/pool-api/src/zebra_metrics.rs:255-256 | the peers |
| MetricsLines.MempoolSizeLine | crates/pool-api/src/zebra_metrics.rs:257-258 | the mempool transactions |
| MetricsLines.MempoolQueueLine | crates/pool-api/src/zebra_metrics.rs:259-262 | and their newer name |
| MetricsLines.MempoolCostLine | crates/pool-api/src/zebra_metrics.rs:263-265 | the mempool bytes |
| MetricsLines.OtherNamesSayNothing | crates/pool-api/src/zebra_metrics.rs:243-265 | no other plain name says anything |
| MetricsLines.DecimalComesBack | crates/pool-api/src/zebra_metrics.rs:295 | a decimal number is read back exactly when it is below 2^64 |
| MetricsLines.PlusComesBack | crates/pool-api/src/zebra_metrics.rs:295 | a plus sign may stand before it |
| MetricsLines.OnlyNumbersParse | crates/pool-api/src/zebra_metrics.rs:295 | and nothing but digits behind that |
| MetricsLines.NumberAmongBlanks | crates/pool-api/src/zebra_metrics.rs:291-296 | any blanks may stand before the number, and any text behind the next one |
| MetricsLines.NameNeedsBlank | crates/pool-api/src/zebra_metrics.rs:291-294 | a name followed by anything but a space is not that gauge |
| MetricsLines.LabelsComeBack | crates/pool-api/src/zebra_metrics.rs:312-321 | a list of written labels reads as the first value of the key |
| MetricsLines.NoBracesNoLabel | crates/pool-api/src/zebra_metrics.rs:307-311 | a line without its two braces in order has no labels |
| MetricsStream.TargetsExactly | crates/pool-api/src/zebra_metrics.rs:184-195 | the ten fields that are waited for, and the two that are not |
| MetricsStream.CommentLine | crates/pool-api/src/zebra_metrics.rs:224-226 | blank lines and comments change nothing |
| MetricsPage.CarriageReturn | crates/pool-api/src/zebra_metrics.rs:148 | a carriage return before the newline is no part of the line |
| MetricsStream.LastPeersWins | crates/pool-api/src/zebra_metrics.rs:255-256 | a gauge holds the value of the last line with its name, shown for the peer count |
| MetricsReread.HeldIsRead | crates/pool-api/src/zebra_metrics.rs:163-166 | text held over several lines is read as: a gauge's number from the first line, or from the text behind it when its value is blank; a label from the first line, or up to the next closing brace; a counter's number after the last space of the unfinished last line |
| MetricsReread.ScrapeAgreesExactly | crates/pool-api/src/zebra_metrics.rs:147-166 | after an early exit the second parse changes nothing if and only if the held text's first line is a comment, or the gauge or version so read is the one held already, or the counter so read is zero, or nothing is read |
| MetricsReread.GaugeGoesBack | crates/pool-api/src/zebra_metrics.rs:243-265 | a gauge on the first held line is set to that line's value again, whatever the later lines set it to |
| MetricsReread.CounterAddsLastNumber | crates/pool-api/src/zebra_metrics.rs:268-303 | a request counter on the first held line adds the last number of the unfinished last line, whatever metric that belongs to |
| MetricsReread.NothingUnfinished | crates/pool-api/src/zebra_metrics.rs:298-302 | and nothing when the chunk ended with its line |
| MetricsLines.LabelComesBack | crates/pool-api/src/zebra_metrics.rs:306-322 | every label of a written line is read as it was written |
| MetricsPage.PeersGoBack | crates/pool-api/src/zebra_metrics.rs:147-166 | received in one chunk, a page of eleven lines that says 7 and then 8 peers is reported with 7; the loop and the plain parser have 8 |
| MetricsPage.RequestsGrow | crates/pool-api/src/zebra_metrics.rs:147-166 | received in one chunk, a page that says 5 and then 1 requests before an unfinished line about 9 peers is reported with 15; the loop and the plain parser have 6 |
| MetricsPage.CounterAddsPeers | crates/pool-api/src/zebra_metrics.rs:268-303 | a held request count of 5 before a peer count of 9 adds 9, and nothing when the peer line is complete |
| Codec.DecodeBuffer | crates/stratum/src/codec.rs:27-41 | scanning and splitting the mutable buffer refines the framing function |
| Codec.Encode | crates/stratum/src/codec.rs:47-51 | appends the item as one encoded line |
| Codec.RunConserves | crates/stratum/src/codec.rs:27-41 | for every chunking and placing of decode calls up to an error: messages handed out, then the nonblank complete lines buffered, are those received, in order |
| Codec.LinesOfConcat | crates/stratum/src/codec.rs:27-41 | bytes that arrive later never change a line that is complete |
| Codec.EncodedItemsComeBack | crates/stratum/src/codec.rs:27-51 | encoded nonempty newline-free items come back in order, the rest still buffered whole |
| Codec.NeverFails | crates/stratum/src/codec.rs:34-40 | items the reader accepts and no longer than 64 KiB never cause an error at any point of their arrival |
| Codec.RoundTrip | crates/stratum/src/codec.rs:27-51 | encoding and decoding are inverse on such items without assuming that no error occurs |
| Codec.BlankLineDelays | crates/stratum/src/codec.rs:31-33 | a call reports nothing although a nonblank line is complete exactly when the buffer starts with a blank line, and then no line is lost |
| Codec.DrainsInOrder | crates/stratum/src/codec.rs:27-41 | one call per buffered newline hands out every buffered line and leaves the partial one |
| Codec.UnfinishedLine | crates/stratum/src/codec.rs:36-41 | without a newline the call waits, or fails past 65536 bytes, and takes nothing out |
| Codec.CompleteLine | crates/stratum/src/codec.rs:27-35 | a complete line of any length is taken out and answered with what it reads as, a blank one with nothing |
| Codec.EncodedLine | crates/stratum/src/codec.rs:47-51 | an encoded item is its bytes and one newline |
| Nonce.NonceAllocator.constructor | crates/stratum/src/session.rs:13-19 | starts at the first allocation |
| Nonce.NonceAllocator.Allocate | crates/stratum/src/session.rs:22-33 | the n-th call hands out the prefix of the n-th allocation as hexadecimal text; the counter is bumped with 32-bit wrap-around |
| Nonce.PrefixesEqual | crates/stratum/src/session.rs:22-33 | two allocations give one prefix exactly when they are congruent modulo 256^min(size, 4), wrap-around included |
| Nonce.PrefixRepeats | crates/stratum/src/session.rs:22-33 | so the prefix repeats after that many allocations |
| Nonce.PrefixBytes | crates/stratum/src/session.rs:22-33 | the bytes of the n-th prefix: n + 1 in four little-endian bytes, cut or followed by zeros |
| Nonce.FillNonce | crates/cpu-miner/src/main.rs:234-239 | the two copy loops write prefix, low counter bytes and zeros |
| Nonce.NonceBytes | crates/cpu-miner/src/main.rs:234-239 | each of the 32 bytes: the prefix, up to eight counter bytes lowest first, zeros |
| Nonce.NoncesEqual | crates/cpu-miner/src/main.rs:234-239 | full nonces agree exactly when prefixes agree and counters agree modulo the bytes used |
| Nonce.ThreadsPartition | crates/cpu-miner/src/main.rs:228-303 | the four threads take every counter exactly once |
| Nonce.TriedNoncesDistinct | crates/cpu-miner/src/main.rs:213-303 | (session, thread, iteration) to nonce is injective within the stated block of sessions and counters |
| Jobs.RunKeepsInv | crates/cpu-miner/src/main.rs:138-303 | numbering, staffing, recorded tries and honest submissions survive every interleaving |
| Jobs.OneLiveJob | crates/cpu-miner/src/main.rs:138-185 | generations are pairwise distinct, only the newest job can pass the check, none while its successor is being set up; that the newest is the right one is JobsProgress.JobsAreAccepted |
| Jobs.BumpRetiresAll | crates/cpu-miner/src/main.rs:144-147 | a clean notify's bump retires every job there is; JobsProgress.CleanNotifyTakesOver shows that it comes |
| Jobs.NoNonceTwice | crates/cpu-miner/src/main.rs:227-303 | for one job no nonce is tried twice in any interleaving |
| Jobs.SubmissionsAreHonest | crates/cpu-miner/src/main.rs:267-298 | every submission names its own job's id and header and a counter tried for it by that thread |
| Jobs.RetiredWindsDown | crates/cpu-miner/src/main.rs:229-232 | in every continuation each thread of a retired job at most finishes the iteration it is in |
| Jobs.RetiredSubmitsOnlyUnderWay | crates/cpu-miner/src/main.rs:265-300 | whatever a retired job still tries or submits belongs to iterations already under way |
| JobsProgress.JobsAreAccepted | crates/cpu-miner/src/main.rs:115-182 | in every interleaving the jobs are, in order and with their ids and headers, the accepted notifies: the first and every clean one that finds the loop waiting |
| JobsProgress.CleanNotifyTakesOver | crates/cpu-miner/src/main.rs:138-182 | after a clean notify three steps of the loop, whatever else happens in between, leave one more job, the only live one, with all older ones retired |
| JobsProgress.FirstNotifyStarts | crates/cpu-miner/src/main.rs:138-182 | the first notify needs two |
| JobsProgress.IgnoredNotify | crates/cpu-miner/src/main.rs:138-142 | a notify that is not clean changes nothing while mining |
| JobsProgress.BadHeaderExits | crates/cpu-miner/src/main.rs:153-159 | a bad header ends the process with every job retired |
| JobsProgress.WorkerTurns | crates/cpu-miner/src/main.rs:228-303 | a worker that passes the check tries its counter, submits each solution chosen under its own job's id and header, and goes on four counters further |
| JobsProgress.TriedExactly | crates/cpu-miner/src/main.rs:227-303 | in every interleaving a worker has tried exactly the counters it is past: its thread number, plus four, and so on, without a gap |
| Limiter.LoginLimiter.Locked | crates/pool-api/src/admin.rs:194-204 | pops the front while it is expired and compares what is left with the cap |
| Limiter.LoginLimiter.RecordFailure | crates/pool-api/src/admin.rs:206-208 | appends the time |
| Limiter.DropsExactlyExpired | crates/pool-api/src/admin.rs:194-203 | on a sorted queue front-popping removes exactly the expired entries |
| Limiter.FailuresPerSpan | crates/pool-api/src/admin.rs:566-576 | in every interleaving with at most p handlers past the check, any 900 s span holds at most 4 + p recorded failures |
| Limiter.QueueIsSorted | crates/pool-api/src/admin.rs:194-208 | the queue is sorted at every moment |
| Limiter.RefusedExactly | crates/pool-api/src/admin.rs:194-204 | in every interleaving a handler is refused exactly when five recorded failures are no more than 900 s old |
| Limiter.FailureIsRecorded | crates/pool-api/src/admin.rs:206-208 | a wrong password goes on record at its time, a right one does not |
| Limiter.BoundIsReached | crates/pool-api/src/admin.rs:466-473 | the bound is attained for every p, so five in fifteen minutes is exact only without overlap |
| Scanner.HexToAsciiLossy | crates/pool-api/src/network.rs:93-125 | the scanner loop terminates with the byte-by-byte rendering; bad hexadecimal gives the empty text |
| Scanner.CountKept | crates/pool-api/src/network.rs:102-123 | testing the candidate slice as a whole text is testing for one well-formed character that is no control |
| Scanner.CharComesBack | crates/pool-api/src/network.rs:102-123 | the bytes of each character are recognised as one character of their length, and as a control exactly for U+0000 to U+001F and U+007F to U+009F |
| Scanner.CharOf | crates/pool-api/src/network.rs:102-123 | and only such bytes are |
| Scanner.CleanExactly | crates/pool-api/src/network.rs:93-125 | the clean texts are the sequences of characters that are no controls |
| Scanner.RenderChar | crates/pool-api/src/network.rs:102-123 | a character that is no control stands as it is, whatever follows |
| Scanner.RenderOther | crates/pool-api/src/network.rs:121-123 | where none starts, one full stop is shown and the next byte is looked at |
| Scanner.RenderInPlace | crates/pool-api/src/network.rs:93-125 | output and input have the same length, every byte is kept or shown as a full stop, printable ASCII is kept |
| Scanner.PrintableRunAppears | crates/pool-api/src/network.rs:94-96 | every run of printable ASCII appears unchanged, contiguous and at its own position |
| Scanner.OutputIsValid | crates/pool-api/src/network.rs:93-125 | the output is valid UTF-8 of the input's length, for every input |
| Scanner.OutputIsClean | crates/pool-api/src/network.rs:93-125 | and holds no control character |
| Scanner.UnchangedExactly | crates/pool-api/src/network.rs:93-125 | the scanner is the identity exactly on such texts, and idempotent |
| Lag.TemplateLagTracker.Record | crates/pool-core/src/lag.rs:76-88 | after any history the window is its last min(total, 200) samples in order and the total its length |
| Lag.WindowOf | crates/pool-core/src/lag.rs:76-88 | the window of a history is all of it or its last two hundred samples |
| Lag.OfKindConcat | crates/pool-core/src/lag.rs:96-110 | samples are told apart by kind and kept in order |
| Lag.OfKindOne | crates/pool-core/src/lag.rs:96-110 | each one under its own kind |
| Lag.TemplateLagTracker.Snapshot | crates/pool-core/src/lag.rs:90-134 | window size, last height, and per kind the last sample and both percentiles of the window |
| Lag.Percentile | crates/pool-core/src/lag.rs:139-147 | sorts the slice in place and returns the element at the rank, or nothing for an empty one |
| Lag.RankIsNearest | crates/pool-core/src/lag.rs:139-147 | the rank is the nearest to the fraction of the way up, the higher of two, and the fraction is cut to [0, 1] |
| Lag.RanksInUse | crates/pool-core/src/lag.rs:128-147 | the ranks of medians, and of the other figure for 1, 20 and 200 samples |
| Lag.StatsInUse | crates/pool-core/src/lag.rs:120-134 | last sample, half and nineteen twentieths, each with the counts on both sides |
| Lag.NothingToShow | crates/pool-core/src/lag.rs:120-134 | and nothing without samples |
| Lag.SortAgain | crates/pool-core/src/lag.rs:128-133 | sorting for one percentile does not disturb the next one taken from the buffer |
| Lag.PercentileIsRanked | crates/pool-core/src/lag.rs:139-147 | a percentile is one of the samples; more samples than its rank are at most it, and at least as many as the others are at least it |
| Lag.PercentilesAreOrdered | crates/pool-core/src/lag.rs:128-133 | p50 is at most p95 |
| Lag.SnapshotsAreConsistent | crates/pool-core/src/lag.rs:77-123 | in every interleaving a snapshot reports a total no smaller than its window |
| Lag.UndisturbedSteps | crates/pool-core/src/lag.rs:77-123 | what a whole recording and a whole snapshot do when nothing comes between |
| Lag.RecordingExcludes | crates/pool-core/src/lag.rs:77-123 | a recording in progress keeps others out of the window, but not from the total |
| Grouping.PoolsOnBothNodes | crates/pool-api/src/network.rs:318-326 | the pools with a block of either mark, both directions |
| Grouping.Relabel | crates/pool-api/src/network.rs:560-572 | the in-place loop relabels each block of such a pool by its own marks and leaves all others |
| Grouping.RenamedExactly | crates/pool-api/src/network.rs:305-313 | a block's row key changes exactly when its pool straddles both nodes and it carries a mark |
| Grouping.RelabelledName | crates/pool-api/src/network.rs:560-572 | the new name after the block's own mark, Zakura first, and nothing else changed |
| Grouping.NodeLabels | crates/pool-api/src/network.rs:305-313 | the two labels spelled out |
| Grouping.RowOfBlock | crates/pool-api/src/network.rs:288-296 | the row of a block: pool, address, or tag of a shielded block |
| Grouping.RefinesExactly | crates/pool-api/src/network.rs:560-572 | the new rows refine the old ones exactly when no label made is already the key of a block left alone |
| Grouping.SplitCanMerge | crates/pool-api/src/network.rs:305-313 | a window in which they do not |
| Grouping.BuildDistribution | crates/pool-api/src/network.rs:574-593 | one row for exactly the keys that occur, each the sum of its blocks, all rows together the totals |
| Grouping.TotalsCountBlocks | crates/pool-api/src/network.rs:637-664 | the totals are the number of blocks, of zebrad blocks and of zakura blocks |
| Grouping.RowOfKey | crates/pool-api/src/network.rs:574-593 | each row counts the blocks with its key, and those of them with either mark |
| Grouping.RelabelKeepsTotals | crates/pool-api/src/network.rs:560-572 | relabelling changes no total |
| Tally.TakeOut | crates/pool-api/src/network.rs:595-597 | the sum over rows does not depend on the order the map is walked in |

## Left out

- Vardiff.VardiffTracker.RecordShare: one clock reading serves the whole call, where the code reads the clock at each use; the text of the reported reason is reduced to its trigger, phase and reversal.
- Vardiff.VardiffTracker.ComputeRetarget: exact reals instead of 64-bit floats, and a share count without 32-bit overflow.
- VardiffSettling.FreshTrackerSettles: the miner's measured rate is exactly k/difficulty; shares of the previous difficulty still under way and random spacing are not modelled.
- Target.DifficultyToTargetHex: exact reals; float rounding of the quotient and of the digits is not modelled, nor is NaN.
- Coinbase.InjectCoinbaseTag: the version 6 rewrite and its auth digest come from an external library and are one parameter; the tag is not empty, since the search for an empty one is not defined; error texts are constructors, and lengths are unbounded, so a nine-byte compactSize cannot overflow.
- CoinbaseFacts.InjectionIsIdempotent: versions 4 and 5 only; version 6 has no test for an existing tag.
- MetricsStream.FetchZebraMetrics: ASCII chunks (the code decodes each chunk on its own, so a character cut in two would be replaced); the byte cap, read errors, timing and the HTTP request are left out, and counters do not overflow.
- MetricsLines.EntriesAddUp: names, keys and values of labels are printable characters without comma, equals sign, quotation mark or brace, as nodes write them.
- MetricsReread.CounterAddsLastNumber: stated for the request counter; `MetricsReread.HeldIsRead` covers the error counter too.
- VardiffRunaway.RampsBoundedExactly: the runs without end need a positive retarget interval or a window that opened at the last retarget, as every new tracker has; with interval zero every later share is a measurement of its own. `VardiffEndless.RetargetsEndExactly` needs the positive interval.
- VardiffArrival.Arrives: a state inside the band with its average outside the region; it can be held there by the dead zone for any number of measurements before the average takes it out again.
- Codec.DecodeBuffer: reading one line as JSON is a parameter.
- Nonce.FillNonce: the miner's counter does not overflow 64 bits.
- Jobs.OneLiveJob: atomic accesses are sequentially consistent; the relaxed load may lag behind on real hardware. Solving and testing solutions is a free choice of each step, set_target messages and short parameter lists are not modelled, and the generation does not overflow.
- Limiter.FailuresPerSpan: password derivation and comparison only decide between the steps Fail and Succeed.
- Lag.TemplateLagTracker.Snapshot: the age of the last sample; the library sort is an insertion sort copied back into the slice.
- Grouping.BuildDistribution: transaction versions, percentages, representative addresses, the order of rows, the labels and the tag search of `coinbase_tag`, which is a field of the block.
- The name tables and brand rules of `identify_pool`, and `coinbase_domain`.
- HTTP, RPC, database, sockets, HTML pages, configuration and logging.
- Hash functions and the Equihash solver.
- The statistics history (a simpler copy of the lag window), block submission retries and session ids.
