# Verification of the Unauthority (LOS) core

This Dafny project models the parts of the LOS blockchain whose guarantees only show over
whole runs or across several functions, and proves those guarantees. `dafny verify
dfyconfig.toml` checks everything.

| files | what they model |
|---|---|
| `Ledger`, `LedgerConvergence`, `LedgerChains`, `LedgerConservation`, `LedgerAnswers` | the block-lattice ledger: `Ledger::process_block`, order independence, account chains, conservation of value |
| `Lanes`, `Keccak`, `Fips202`, `Fips202Code`, `Cshake`, `Fips202Answers` | the Keccak sponge of FIPS 202 and the cSHAKE prefix of SP 800-185: the incremental byte-wise code against the standard's one-shot sponge |
| `Isqrt`, `Rewards`, `RewardPool`, `RewardPoolCode`, `RewardAnswers`, `Voting`, `VotingAnswers` | Newton's integer square root, the halving emission schedule, epoch payouts, quadratic voting |
| `DexMath`, `Dex`, `DexRuns`, `DexValue`, `DexCode`, `DexAnswers` | the constant-product exchange on numeric records |
| `Decimal`, `Text`, `Storage`, `DexEntries`, `DexStore`, `DexContract`, `DexHosted`, `DexTexts`, `HostedAnswers` | the same exchange over a string-keyed store whose host cuts long keys, as a data refinement, and what the virtual machine keeps of it from call to call |
| `Usp01`, `Usp01Contract`, `Usp01Answers` | the USP-01 token over that store |
| `RateLimiter`, `RateLimiterAnswers`, `Mempool`, `MempoolCode`, `MempoolAnswers`, `Oracle`, `OracleAnswers`, `Slashing`, `SlashingCode`, `SlashingAnswers` | node-side state: token bucket, transaction pool with three indexes, price median, slashing with quorum |
| `Words`, `MapSums` | machine words, sums over maps |

Each stateful object of the program is a class whose methods change its fields in place and
are proved against functions on values; the laws are then lemmas about those functions, over
every state or every run. Where a class has a file of its own, that is named `...Code` or
`...Contract`. The modules named `...Answers` say of every operation, without naming the functions
it is specified by, when it goes through and what it then changes: the guards with their numbers,
quotients by the products they lie between, and what stays as it was.

Conventions. A string is its UTF-8 bytes. Hashes, signatures, proof-of-work digests, address
derivation and the Keccak permutation are function-valued parameters about which nothing is
known, except that a block hash is never the genesis head "0". Clock readings are arguments.
Rust integers that the code saturates, checks or may wrap are written out (`SatAdd`, `MulDiv`,
`WrapAdd`); wrapping is that of a release build.

Where code and comments disagree the model follows the code. The governance threshold is
documented as more than 50 % but needs at least 50.01 % (`Voting.ConsensusIsMajority`). The
`n / 2 + 1` square root is documented as the floor root but gives 2 for 2
(`Isqrt.IsqrtHalf`). cSHAKE with two empty strings is not turned into SHAKE as section 3.3
of SP 800-185 asks (`Cshake.StandardExactly`). The contract deletes an LP entry that is used
up, but the virtual machine keeps only the entries a call wrote, so a share taken out whole
is on record again afterwards (`DexHosted.ShareComesBack`). The host reads no more than
1,024 bytes of a key, which the contracts do not check, so pools and balances of long names
fall on one another (`Storage.OwnEntryExactly`, `DexHosted.HostedStoreDecodesExactly`,
`Usp01.OwnBalanceExactly`). A mempool submission that is refused as malformed can already
have evicted an entry (`MempoolModel.RefusalEvicts`). Adding liquidity rounds the amounts
taken down, so it can lower the value of an LP token
(`DexValue.AddKeepsValueExactlyWhenDivisible`). Buckets of the rate limiter are forgotten
after ten idle minutes even when that does not fill them
(`RateLimiter.BoundExactlyWhenIdleFills`). An uncapped wrapped token whose supply saturates
no longer equals its balances (`Usp01.InvThroughoutExactly`). The downtime slash is one
percent of a stake only while a hundred times that stake fits u128
(`SlashingModel.DowntimeSlashIsOnePercent`).

## Model

| member | source | states |
|---|---|---|
| `LedgerModel.VerifyPow` | crates/los-core/src/lib.rs:226-245 | the byte loop accepts a digest exactly when its first sixteen bits are zero |
| `LedgerModel.Ledger.ProcessBlock` | crates/los-core/src/lib.rs:324-670 | checks in the order of the code, then the effect of the block type; which blocks pass and what they leave is `LedgerAnswers.AppliedExactly` and `AppliedLeaves` |
| `LedgerModel.Ledger.Execute` | crates/los-core/src/lib.rs:426-655 | each of the seven block types: its error, or the new balance and the new supply, burn and fee pots |
| `LedgerModel.Ledger.ClaimAccumulatedFees` | crates/los-core/src/lib.rs:676-680 | returns the fee pot and empties it, touching nothing else |
| `LedgerAnswers.AppliedExactly` | crates/los-core/src/lib.rs:324-655 | a block is applied if and only if: sixteen zero bits and a good signature; for Send, Change, ContractDeploy and ContractCall a key whose address is the account, for a Slash one of a registered validator with 1,000 LOS; not stored yet, on the account's head, no earlier than it and not ahead of the clock by more than the drift; and the fee, amount, link and cap guards of its type |
| `LedgerAnswers.DuplicateExactly` | crates/los-core/src/lib.rs:331-376 | a block is answered as a duplicate if and only if it is sealed, by its owner where that is asked, and stored already; nothing that is not applied changes the ledger |
| `LedgerAnswers.AppliedLeaves` | crates/los-core/src/lib.rs:379-655 | what an applied block leaves, field by field: the balance, head, count and clock of its account, the stores, and each pot |
| `LedgerAnswers.PriceIsFourthPart` | crates/los-core/src/lib.rs:573-600 | in a Mint's link the fourth part between colons is the price, whatever follows |
| `LedgerAnswers.NoFourthPart` | crates/los-core/src/lib.rs:573-600 | a link of fewer parts names no price |
| `LedgerAnswers.StepDebits` | crates/los-core/src/lib.rs:340-655 | a step lowers a balance only as a block of that account whose key is its owner's, or as a Slash against it by a registered validator with 1,000 LOS |
| `LedgerAnswers.OnlyOwnerSpends` | crates/los-core/src/lib.rs:324-655 | over every run, a balance that went down did so by such a block |
| `LedgerConvergence.EffectsCommute` | crates/los-core/src/lib.rs:379-655 | two blocks of different accounts give the same ledger in either order |
| `LedgerConvergence.NextBlockComesFirst` | crates/los-core/src/lib.rs:379-395 | in any valid order the block that extends an account's head precedes all later blocks of that account |
| `LedgerConvergence.OrdersAgree` | crates/los-core/src/lib.rs:324-670 | any two valid orders of the same blocks end in the same ledger |
| `LedgerConvergence.Convergence` | crates/los-core/src/lib.rs:324-670 | two nodes with the same start that applied the same set of blocks, in whatever order, with any clocks, duplicates and rejections, hold the same ledger; with fee claims, the same but for the fee pot |
| `LedgerConvergence.GenesisConverges` | crates/los-core/src/lib.rs:324-670 | the same from a genesis ledger without assumptions on the state |
| `LedgerChains.RunKeepsChains` | crates/los-core/src/lib.rs:379-424 | the chain invariant survives every run of blocks and fee claims |
| `LedgerChains.AccountChain` | crates/los-core/src/lib.rs:379-424 | in every reachable ledger, following `previous` from a head visits exactly `block_count` distinct blocks of that account, timestamps non-decreasing from old to new, down to "0" |
| `LedgerChains.ChainsPartitionTheStore` | crates/los-core/src/lib.rs:379-424 | every stored block is on the chain of its own account and on no other |
| `LedgerChains.NoFork` | crates/los-core/src/lib.rs:379-395 | two blocks of one account never share a predecessor |
| `LedgerConservation.AcceptedIsExact` | crates/los-core/src/lib.rs:426-655 | while the total fits a u128, an accepted block saturates no addition and truncates no subtraction |
| `LedgerConservation.RunConserves` | crates/los-core/src/lib.rs:324-680 | the total over balances, unminted supply, Sends in flight, fees, contract funds and slashed stake is the same after every run |
| `LedgerConservation.Conservation` | crates/los-core/src/lib.rs:324-680 | that total, spelled out, from a funded genesis ledger |
| `LedgerConservation.NothingSaturates` | crates/los-core/src/lib.rs:426-655 | in every reachable ledger an accepted block changes amounts by exactly what it says |
| `LedgerConservation.EachSendCreditedOnce` | crates/los-core/src/lib.rs:495-537 | every Receive credits the amount of a Send to its recipient, and no two Receives name the same Send |
| `Lanes.StoreLoad` | pqcrypto-internals-seeded/cfiles/fips202.c:27-48 | storing a loaded word gives the eight bytes back |
| `Lanes.LoadStore` | pqcrypto-internals-seeded/cfiles/fips202.c:27-48 | loading the stored bytes of a word gives the word back |
| `Lanes.WordOfShifted` | pqcrypto-internals-seeded/cfiles/fips202.c:440-462 | a byte put into one place of a lane is the byte shifted by eight bits a place |
| `Lanes.WordBijective` | pqcrypto-internals-seeded/cfiles/fips202.c:27-48 | eight bytes and a 64-bit word determine each other |
| `Lanes.WordOfXor` | pqcrypto-internals-seeded/cfiles/fips202.c:349-462 | XOR of words is XOR of their bytes |
| `Fips202.AbsorbConcat` | pqcrypto-internals-seeded/cfiles/fips202.c:440-462 | absorbing a concatenation is absorbing its parts |
| `Fips202.SqueezeConcat` | pqcrypto-internals-seeded/cfiles/fips202.c:498-523 | squeezing m + n bytes is squeezing m and then n |
| `Fips202.FinalizeIsLastBlock` | pqcrypto-internals-seeded/cfiles/fips202.c:477-483 | finalizing XORs in the padded last block if and only if the domain byte is below 128 or does not land on the last byte |
| `Fips202.AbsorbThenFinalize` | pqcrypto-internals-seeded/cfiles/fips202.c:440-483 | bytewise absorbing and finalizing is absorbing by FIPS 202 sections 4 and 5.1, under the same condition and only then |
| `Fips202.SqueezeBlocks` | pqcrypto-internals-seeded/cfiles/fips202.c:498-523 | squeezing whole blocks bytewise gives the output blocks of section 4 |
| `Fips202.SpongeChunks` | pqcrypto-internals-seeded/cfiles/fips202.c:349-523 | for every split of input and output the incremental functions give the bytes of the one-shot sponge |
| `Fips202Code.KeccakAbsorb` | pqcrypto-internals-seeded/cfiles/fips202.c:349-380 | the lane-wise one-shot absorb leaves the state of section 4 for message, rate and domain byte |
| `Fips202Code.KeccakSqueezeBlocks` | pqcrypto-internals-seeded/cfiles/fips202.c:395-405 | writes the output blocks of section 4 and permutes once a block |
| `Fips202Code.IncContext.constructor` | pqcrypto-internals-seeded/cfiles/fips202.c:417-424 | a new context is the zero state with nothing pending |
| `Fips202Code.IncContext.Absorb` | pqcrypto-internals-seeded/cfiles/fips202.c:440-462 | the block loop on lanes is the bytewise absorb, with fewer than `r` bytes pending |
| `Fips202Code.IncContext.Finalize` | pqcrypto-internals-seeded/cfiles/fips202.c:477-483 | domain byte and final bit are XORed where they belong and the pending count is reset |
| `Fips202Code.IncContext.Squeeze` | pqcrypto-internals-seeded/cfiles/fips202.c:498-523 | the three-part squeeze is the bytewise squeeze, in state and output |
| `Fips202Code.Shake` | pqcrypto-internals-seeded/cfiles/fips202.c:664-714 | one-shot SHAKE output of any length is a prefix of the sponge output |
| `Fips202Code.Sha3Finish` | pqcrypto-internals-seeded/cfiles/fips202.c:732-767 | the digest is a prefix of the first output block after finalizing |
| `Fips202Answers.PaddedIsStandard` | pqcrypto-internals-seeded/cfiles/fips202.c:349-483 | for a domain byte that holds a suffix of up to six bits, the padded bytes are, bit for bit, the message, the suffix and pad10*1 of section 5.1 |
| `Fips202Answers.Suffixes` | pqcrypto-internals-seeded/cfiles/fips202.c:528-767 | SHA-3 appends the bits 01, SHAKE 1111 and cSHAKE 00 |
| `Fips202Answers.SuffixByteIsUnique` | pqcrypto-internals-seeded/cfiles/fips202.c:477-483 | and no other byte holds those bits |
| `Fips202Answers.Sha3IsStandard` | pqcrypto-internals-seeded/cfiles/fips202.c:732-767 | the incremental SHA-3 is the sponge on message, 01 and pad10*1 |
| `Fips202Answers.ShakeIsStandard` | pqcrypto-internals-seeded/cfiles/fips202.c:664-714 | one-shot SHAKE is the sponge on message, 1111 and pad10*1 |
| `Cshake.ByteLengthMinimal` | pqcrypto-internals-seeded/cfiles/sp800-185.c:6-14 | the counted length is the least number of bytes that hold the value |
| `Cshake.SizeTFits` | pqcrypto-internals-seeded/cfiles/sp800-185.c:9-11 | eight bytes always suffice, so the loop bound never cuts a value |
| `Cshake.LeftEncodeDecodes` | pqcrypto-internals-seeded/cfiles/sp800-185.c:6-20 | an encoded length can be read back from the front of any string |
| `Cshake.EncodeStringDecodes` | pqcrypto-internals-seeded/cfiles/sp800-185.c:29-33 | so can an encoded string, with its length in bits |
| `Cshake.PrefixInjective` | pqcrypto-internals-seeded/cfiles/sp800-185.c:22-40 | different names or customizations give different prefixes, whatever input follows |
| `Cshake.ZeroFill` | pqcrypto-internals-seeded/cfiles/sp800-185.c:35-39 | jumping to the last byte of the block and absorbing one zero is filling the block with zeros |
| `Cshake.AbsorbBytepad` | pqcrypto-internals-seeded/cfiles/sp800-185.c:22-40 | absorbing bytepad is absorbing the encoded strings and then permuting if a block is open |
| `Cshake.LeftEncodeInto` | pqcrypto-internals-seeded/cfiles/sp800-185.c:6-20 | the loops write exactly `left_encode` of the value and return its length |
| `Cshake.CshakeInit` | pqcrypto-internals-seeded/cfiles/sp800-185.c:22-40 | leaves the sponge as if bytepad(encode_string(N) || encode_string(S), rate) had been absorbed |
| `Cshake.CshakeHash` | pqcrypto-internals-seeded/cfiles/sp800-185.c:120-157 | one-shot cSHAKE is the sponge on the padded prefix followed by the input, two empty strings included |
| `Cshake.StandardExactly` | pqcrypto-internals-seeded/cfiles/sp800-185.c:120-157 | that is the cSHAKE of section 3.3 of SP 800-185, for all inputs, lengths and permutations, if and only if name and customization are not both empty |
| `Cshake.EmptyStringsDiffer` | pqcrypto-internals-seeded/cfiles/sp800-185.c:120-157 | with both empty the first output byte can differ from SHAKE's |
| `Fips202Answers.CshakeIsStandard` | pqcrypto-internals-seeded/cfiles/sp800-185.c:42-60 | what cSHAKE finalizes is the sponge on prefix and input, 00 and pad10*1 |
| `Fips202Answers.LeftEncodeIs` | pqcrypto-internals-seeded/cfiles/sp800-185.c:6-20 | the encoding is the number of bytes and then the number in as few bytes as hold it, the highest first |
| `Fips202Answers.PrefixIs` | pqcrypto-internals-seeded/cfiles/sp800-185.c:22-40 | the prefix is the encoded rate, both strings after their encoded lengths in bits, and fewer zeros than a block up to a whole number of blocks |
| `Isqrt.StepAboveRoot` | crates/los-core/src/validator_rewards.rs:456-467 | Newton's step never undershoots the root |
| `Isqrt.NoDescent` | crates/los-core/src/validator_rewards.rs:456-467 | when the step does not go down, the root is reached |
| `Isqrt.StepFits` | crates/los-core/src/validator_rewards.rs:456-467 | `x + n / x` stays within u128 in every round, for either start |
| `Isqrt.IsqrtCeil` | crates/los-core/src/validator_rewards.rs:456-467 | started at ceil(n / 2) the loop ends with the exact integer root of every u128 |
| `Isqrt.RootMonotone` | crates/los-core/src/validator_rewards.rs:456-467 | the root is monotone |
| `Isqrt.RootSubadditive` | crates/los-core/src/validator_rewards.rs:456-467 | the root is subadditive |
| `Rewards.PotentialDrops` | crates/los-core/src/validator_rewards.rs:208-214 | an epoch's rate is covered by the drop of a potential, with one CIL to spare at the fifteenth halving |
| `Rewards.EmissionPotential` | crates/los-core/src/validator_rewards.rs:208-214 | what the schedule has emitted plus that potential never exceeds 480,000 LOS |
| `Rewards.EmittedBelowLimit` | crates/los-core/src/validator_rewards.rs:208-214 | the whole halving schedule stays strictly below 480,000 LOS |
| `RewardPool.ShareNeverOverflows` | crates/los-core/src/validator_rewards.rs:329-336 | `checked_mul` never fails, for any u128 stake |
| `RewardPool.SharesNearBudget` | crates/los-core/src/validator_rewards.rs:325-342 | floored shares add up to at most the budget and to more than the budget less one CIL a validator |
| `RewardPool.RewardSplit` | crates/los-core/src/validator_rewards.rs:294-357 | the same for the payouts of an epoch with n eligible validators |
| `RewardPool.LargerStakeEarnsNoLess` | crates/los-core/src/validator_rewards.rs:294-357 | among eligible validators a larger stake never earns less |
| `RewardPool.RunKeepsInv` | crates/los-core/src/validator_rewards.rs:164-405 | pool conservation, halving count and the bound on cumulative rewards survive every run |
| `RewardPool.EmissionBound` | crates/los-core/src/validator_rewards.rs:208-371 | over every run: distributed below 480,000 LOS, the cap by the remaining pool never bites, remaining plus distributed is the initial pool, halvings are epoch / 48, registered validators hold at most what was distributed |
| `RewardPoolCode.ValidatorRewardPool.constructor` | crates/los-core/src/validator_rewards.rs:137-148 | a new pool |
| `RewardPoolCode.ValidatorRewardPool.RegisterValidator` | crates/los-core/src/validator_rewards.rs:164-177 | registers, or refreshes stake and genesis flag of a known validator |
| `RewardPoolCode.ValidatorRewardPool.UnregisterValidator` | crates/los-core/src/validator_rewards.rs:394-397 | removes a validator and says whether it was there |
| `RewardPoolCode.ValidatorRewardPool.UpdateStake` | crates/los-core/src/validator_rewards.rs:400-404 | changes the stake of a known validator only |
| `RewardPoolCode.ValidatorRewardPool.RecordHeartbeat` | crates/los-core/src/validator_rewards.rs:180-184 | counts one heartbeat of a known validator |
| `RewardPoolCode.ValidatorRewardPool.SetExpectedHeartbeats` | crates/los-core/src/validator_rewards.rs:262-288 | sets the expected counts, prorated for those with heartbeats |
| `RewardPoolCode.ValidatorRewardPool.CatchUpEpochs` | crates/los-core/src/validator_rewards.rs:230-252 | skips all fully elapsed epochs but the last, and resets the counters |
| `RewardPoolCode.ValidatorRewardPool.AdvanceEpoch` | crates/los-core/src/validator_rewards.rs:360-371 | moves to the next epoch, keeping the last uptime |
| `RewardPoolCode.ValidatorRewardPool.CollectEligible` | crates/los-core/src/validator_rewards.rs:304-311 | the eligible validators with their positive weights, no others; who that is, is `RewardAnswers.PaidWhen` |
| `RewardPoolCode.ValidatorRewardPool.ComputeRewards` | crates/los-core/src/validator_rewards.rs:325-342 | lists exactly the positive shares, each validator once, with their sum |
| `RewardPoolCode.ValidatorRewardPool.Credit` | crates/los-core/src/validator_rewards.rs:348-353 | adds each payout to its validator's total and to no other |
| `RewardPoolCode.ValidatorRewardPool.DistributeEpochRewards` | crates/los-core/src/validator_rewards.rs:294-357 | pays, advances the epoch and returns the payouts, which are those of `RewardAnswers.PaidExactly` |
| `RewardAnswers.RateHalves` | crates/los-core/src/validator_rewards.rs:208-214 | 5,000 LOS an epoch for the first 48 epochs, then half of it, rounded down, every 48 epochs |
| `RewardAnswers.WeightsExist` | crates/los-core/src/validator_rewards.rs:101-108 | every pool has the weights the next two laws speak of: for those who earn the integer root of the stake in whole LOS, and nobody else |
| `RewardAnswers.PaidExactly` | crates/los-core/src/validator_rewards.rs:294-342 | those who are past their first epoch, sent at least 95 % of the heartbeats expected and hold 1,000 LOS share the halved rate, or what is left of the pool, in proportion to those roots, rounded down |
| `RewardAnswers.PaidWhen` | crates/los-core/src/validator_rewards.rs:294-342 | so an address is paid if and only if it is registered, earns, and its part of the budget is a whole CIL |
| `RewardAnswers.DistributeLeaves` | crates/los-core/src/validator_rewards.rs:348-371 | the pool pays exactly what is paid out, everyone's total grows by it, and the next epoch starts with all counts at zero |
| `RewardAnswers.AdvanceLeaves` | crates/los-core/src/validator_rewards.rs:360-371 | moving on without paying changes the epoch, its start and the counts, and no amount |
| `RewardAnswers.CatchUpLeaves` | crates/los-core/src/validator_rewards.rs:230-252 | of several epochs fully elapsed all but one are skipped, unpaid |
| `RewardAnswers.ExpectedLeaves` | crates/los-core/src/validator_rewards.rs:262-288 | whoever sent something and was expected nothing is expected what it sent, at most the full count; everyone else the full count |
| `RewardAnswers.RegisterLeaves` | crates/los-core/src/validator_rewards.rs:164-177 | registering adds a validator that joins now, or refreshes stake and genesis flag of one there is |
| `RewardAnswers.OthersLeave` | crates/los-core/src/validator_rewards.rs:180-404 | the other calls change one field of one validator, or take it out |
| `Voting.CalculateVotingPower` | crates/los-consensus/src/voting.rs:77-84 | zero below the minimum, else the exact root of the stake capped at the supply |
| `Voting.PowerMonotone` | crates/los-consensus/src/voting.rs:77-84 | more stake never has less power |
| `Voting.SplittingNeverLosesPower` | crates/los-consensus/src/voting.rs:77-84 | one stake never has more power than its parts together, when each part meets the minimum |
| `Voting.PartsBelowMinimumLosePower` | crates/los-consensus/src/voting.rs:77-84 | without that minimum the law fails: two parts one short of it have power apart 0 and together more |
| `Voting.SplittingLawExactly` | crates/los-consensus/src/voting.rs:77-84 | the law holds for all parts of at least a given size if and only if that size is no less than the minimum stake |
| `Voting.VotingSystem.RegisterValidator` | crates/los-consensus/src/voting.rs:155-181 | refuses a stake above the supply, else stores the vote with its power |
| `Voting.VotingSystem.UpdateStake` | crates/los-consensus/src/voting.rs:184-198 | replaces stake and power of a known validator only |
| `Voting.VotingSystem.UpdateVotePreference` | crates/los-consensus/src/voting.rs:201-213 | replaces the preference of a known validator only |
| `Voting.VotingSystem.CalculateProposalConsensus` | crates/los-consensus/src/voting.rs:284-309 | the active power for the proposal, its share in basis points, at most 10,000, and whether that is above 5,000 |
| `Voting.SumsFit` | crates/los-consensus/src/voting.rs:284-303 | the sums, and the product with 10,000, fit a u128 |
| `Voting.ConsensusIsMajority` | crates/los-consensus/src/voting.rs:284-309 | consensus implies more than half of the power; a majority reaches it if and only if it is at least 50.01 % |
| `Voting.NarrowMajorityFails` | crates/los-consensus/src/voting.rs:284-309 | a system in which more than half of the power does not reach consensus |
| `Voting.AtMostOneWinner` | crates/los-consensus/src/voting.rs:284-309 | two proposals never both reach consensus |
| `VotingAnswers.PowerExactly` | crates/los-consensus/src/voting.rs:77-84 | 0 below 1,000 LOS, else the integer root of the stake, or of the whole supply if that is less, in numbers |
| `VotingAnswers.OneVote` | crates/los-consensus/src/voting.rs:284-303 | one more active validator adds its power to the total, and to the votes for what it prefers and no other |
| `VotingAnswers.ShareExactly` | crates/los-consensus/src/voting.rs:300-303 | the share is the quotient in basis points, rounded down, 0 of nothing |
| `VotingAnswers.ReachedExactly` | crates/los-consensus/src/voting.rs:284-309 | a proposal goes through if and only if some power is active and at least 50.01 % of it is for it |
| `Isqrt.IsqrtHalf` | examples/contracts/dex_amm.rs:200-212 | started at n / 2 + 1 the loop gives the exact root for every u128 but 2 |
| `DexMath.SaturatedRatio` | examples/contracts/dex_amm.rs:239-244 | when the denominator saturates the scaled ratio is zero |
| `DexMath.OutputNotAboveExact` | examples/contracts/dex_amm.rs:225-244 | neither path of `compute_output` pays more than the exact quotient |
| `DexMath.FallbackLoss` | examples/contracts/dex_amm.rs:225-244 | and it pays at most one unit and one part in 10^12 of the reserve less |
| `DexMath.FeeAtMostAmount` | examples/contracts/dex_amm.rs:248-251 | with a rate of at most 10,000 the fee does not exceed the amount, so the subtraction never underflows |
| `DexRuns.PoolIdSymmetric` | examples/contracts/dex_amm.rs:273-280 | the order of the two tokens does not matter |
| `DexRuns.PoolIdUniqueExactly` | examples/contracts/dex_amm.rs:273-280 | no other pair of distinct tokens has the identifier of a pair if and only if its sorted names, joined, split at no other colon into two names in ascending order |
| `DexRuns.PlainNamesOwnTheirId` | examples/contracts/dex_amm.rs:273-280 | so two names without colons share their identifier with no other pair |
| `DexRuns.PoolIdInjective` | examples/contracts/dex_amm.rs:273-280 | when no name of two pairs has a colon, equal identifiers mean the same pair |
| `DexRuns.PoolIdCollides` | examples/contracts/dex_amm.rs:273-280 | two different pairs that share an identifier, and a name with a colon whose pair shares its own with none |
| `DexRuns.RemoveTrapsOnlyOnProducts` | examples/contracts/dex_amm.rs:622-646 | a removal overflows only in its products, never in a subtraction |
| `DexRuns.CallKeepsInv` | examples/contracts/dex_amm.rs:402-816 | every call, one that overflows u128 being an abort, keeps: LP shares plus 1,000 are the total, reserves positive, fee at most 1,000, pools counted |
| `DexRuns.RunKeepsInv` | examples/contracts/dex_amm.rs:402-816 | and so does every run in which no u128 wraps |
| `DexRuns.ReachableInv` | examples/contracts/dex_amm.rs:402-816 | so it holds in every state reachable from the empty exchange without u128 wrap-around |
| `DexRuns.OnePoolPerPair` | examples/contracts/dex_amm.rs:273-280 | two pools of such a state never trade the same pair |
| `DexValue.SwapKeepsProduct` | examples/contracts/dex_amm.rs:679-816 | a successful swap, by either formula, leaves the product of the reserves no smaller |
| `DexValue.TradesNeverProfit` | examples/contracts/dex_amm.rs:679-816 | after any sequence of swaps, if one reserve is back or lower, the other is not lower |
| `DexValue.ThereAndBack` | examples/contracts/dex_amm.rs:679-816 | swapping there and back returns at most what was put in |
| `DexValue.AddTakesAtMostOffered` | examples/contracts/dex_amm.rs:503-587 | adding liquidity takes at most what was offered of each token and mints at least the minimum |
| `DexValue.AddThenRemoveIsExact` | examples/contracts/dex_amm.rs:503-677 | removing the LP tokens just minted returns exactly what was taken and restores the pool |
| `DexValue.AddKeepsValueExactlyWhenDivisible` | examples/contracts/dex_amm.rs:539-569 | adding keeps the reserve per LP token if and only if the total divides the product of reserve and LP tokens to mint, as computed from the offer |
| `DexValue.AddingCanDilute` | examples/contracts/dex_amm.rs:539-569 | a new pool and an offer of 1 and 2 after which each LP token is worth less of the second token |
| `DexValue.RemoveKeepsValue` | examples/contracts/dex_amm.rs:622-650 | removing never lowers the reserve per LP token |
| `DexValue.QuoteNeverUnderflows` | examples/contracts/dex_amm.rs:846-861 | the execution price never exceeds the spot price |
| `DexCode.DexState.CreatePool` | examples/contracts/dex_amm.rs:402-501 | the state and answer of the call, with the exact root although the loop is wrong at 2 |
| `DexCode.DexState.AddLiquidity` | examples/contracts/dex_amm.rs:503-587 | the state and answer of the call, step by step on the pool record |
| `DexCode.DexState.RemoveLiquidity` | examples/contracts/dex_amm.rs:589-677 | the same for removal, an empty share being dropped |
| `DexCode.DexState.Swap` | examples/contracts/dex_amm.rs:679-816 | the same for swaps in either direction; guards, fee and output are those of `DexAnswers.SwapCallExactly` |
| `DexCode.DexState.Quote` | examples/contracts/dex_amm.rs:818-877 | output, fee, spot price and the floored impact in basis points, with the fee and output of `DexAnswers.QuoteIs`; aborts exactly when one of their products overflows |
| `DexAnswers.SwapCallExactly` | examples/contracts/dex_amm.rs:679-816 | a swap is done with a given output and fee if and only if its pool trades the token, the deadline is kept, fee = floor(in * bps / 10,000), the output is the floor of the constant-product quotient (or of its fallback where the product does not fit), at least the minimum and less than the reserve; then one reserve grows by the input, the other shrinks by the output, and nothing else changes |
| `DexAnswers.SwapDoneExactly` | examples/contracts/dex_amm.rs:679-816 | the same for the pool alone |
| `DexAnswers.SwapMoves` | examples/contracts/dex_amm.rs:760-800 | what a done swap moves, and its impact in basis points |
| `DexAnswers.SwapTrapsOnOverflow` | examples/contracts/dex_amm.rs:679-816 | a swap aborts only where a product or sum does not fit u128 or the rate is above 10,000 |
| `DexAnswers.QuoteIs` | examples/contracts/dex_amm.rs:818-877 | a quote has the fee and output of the swap, and prices of twelve decimals |
| `DexAnswers.CreateCallExactly` | examples/contracts/dex_amm.rs:402-501 | a pool is created if and only if the tokens differ and have none, both amounts are positive, the root of their product is above 1,000 and the fee at most 1,000 (30 if not given); its record, all but 1,000 LP tokens being the creator's |
| `DexAnswers.AddCallExactly` | examples/contracts/dex_amm.rs:503-587 | an offer goes through for given amounts if and only if the LP tokens are the floor in proportion to the scarcer side, at least the minimum, the amounts used the floors in proportion to them, and everything fits u128; then reserves, supply and share grow by them |
| `DexAnswers.RemoveCallExactly` | examples/contracts/dex_amm.rs:589-677 | a removal pays given amounts if and only if the share covers it and they are the floors in proportion, at least the minima; then reserves, supply and share shrink by them |
| `DexAnswers.AfterIs` | examples/contracts/dex_amm.rs:402-816 | a done call replaces its pool, a creation counts it, nothing else changes; any other call changes nothing |
| `Decimal.Parse` | crates/los-contracts/src/lib.rs:48-85 | a digit string up to the limit parses to its number, anything else to 0 |
| `Decimal.Print` | crates/los-contracts/src/lib.rs:88-102 | the 40-byte buffer receives exactly the decimal digits and is never overrun |
| `Decimal.ParsePrinted` | crates/los-contracts/src/lib.rs:48-102 | parsing what was printed gives the number back, for every value |
| `Decimal.PrintParsed` | crates/los-contracts/src/lib.rs:48-102 | printing what was parsed gives the string back if and only if it has no superfluous zero |
| `Decimal.DigitsInjective` | crates/los-contracts/src/lib.rs:88-102 | different numbers print differently |
| `Decimal.NumberConcat` | crates/los-contracts/src/lib.rs:48-66 | positional notation: what stands in front counts ten times as much for every digit behind it |
| `Decimal.ParsedCharacter` | crates/los-contracts/src/lib.rs:48-66 | one digit counts what it stands for, and a string with anything else in it counts nothing |
| `Storage.RenderInjective` | crates/los-contracts/src/dex_amm.rs:341-358 | keys for different fields, pools, holders and list places are different strings, when addresses hold no colon |
| `Storage.NumberRoundTrip` | crates/los-contracts/src/dex_amm.rs:233-247 | a number read back is the number written, where the host keeps an entry under the key at all |
| `Storage.KeyValueStore.SetStr` | crates/los-contracts/src/dex_amm.rs:341-349 | puts the string under the key as the host cuts it, which may be nowhere, and touches no other entry |
| `Storage.KeyValueStore.SetNum` | crates/los-contracts/src/dex_amm.rs:241-247 | the same for a number, printed |
| `Storage.KeyValueStore.GetNum` | crates/los-contracts/src/dex_amm.rs:233-239 | reads the entry under the cut key and parses it, 0 if there is none or it is no such number |
| `DexStore.AnswersAgree` | crates/los-contracts/src/dex_amm.rs:286-722 | on entries that stand for a numeric state, an exported call answers as the numeric exchange does, if tokens are named and an initial product fits |
| `DexStore.WrittenIsRead` | crates/los-contracts/src/dex_amm.rs:341-359 | what a call writes reads back as the pool and share it meant to write, other pools, shares and the list as before, if there is room for its keys |
| `DexStore.CallRefines` | crates/los-contracts/src/dex_amm.rs:286-722 | when a call with room for its keys ends, and before the virtual machine takes its changes over, the entries stand for the numeric state after the same call |
| `DexStore.OversizedPoolIsRefused` | crates/los-contracts/src/dex_amm.rs:328-332 | an initial product beyond u128 is refused here, where the numeric form saturates it |
| `DexStore.AnswersAgreeExactly` | crates/los-contracts/src/dex_amm.rs:286-722 | the answers agree if and only if the call is not a creation refused here only for an empty name or an oversized product |
| `DexStore.OutgrowsIs` | crates/los-contracts/src/dex_amm.rs:310-482 | a call leaves a pool or a share under a key without room if and only if guards say so that a caller can read beforehand |
| `DexContract.DexContract.Init` | crates/los-contracts/src/dex_amm.rs:270-283 | once only, puts the three settings over the entries there are |
| `DexContract.DexContract.CreatePool` | crates/los-contracts/src/dex_amm.rs:286-384 | decodes the arguments, then answers and writes as specified |
| `DexContract.DexContract.CreateFrom` | crates/los-contracts/src/dex_amm.rs:312-359 | checks, computes the LP tokens and writes the pool's entries and its place in the list |
| `DexContract.DexContract.AddLiquidity` | crates/los-contracts/src/dex_amm.rs:389-482 | decodes, computes and writes reserves, supply and share |
| `DexContract.DexContract.RemoveLiquidity` | crates/los-contracts/src/dex_amm.rs:485-585 | decodes, computes and writes, deleting an empty share from the entries of the call |
| `DexContract.DexContract.Swap` | crates/los-contracts/src/dex_amm.rs:588-722 | decodes, prices and writes reserves and trade time, as `HostedAnswers.SwapAnsweredExactly` pins it down |
| `DexContract.DexContract.ListPools` | crates/los-contracts/src/dex_amm.rs:892-928 | reports every pool, each once |
| `HostedAnswers.SwapAnsweredExactly` | crates/los-contracts/src/dex_amm.rs:588-722 | a swap written down for the deployed exchange is accepted with a given output and fee if and only if deadline, pool and the floors of fee and output allow it, and the kept store then stands for the new reserves |
| `HostedAnswers.AddAnsweredExactly` | crates/los-contracts/src/dex_amm.rs:389-482 | an offer written down is accepted for given LP tokens and amounts if and only if the stored pool's numbers allow it |
| `HostedAnswers.RemoveAnsweredExactly` | crates/los-contracts/src/dex_amm.rs:485-585 | a removal written down pays given amounts if and only if the stored pool's numbers and the caller's share allow it |
| `HostedAnswers.CreateAnsweredExactly` | crates/los-contracts/src/dex_amm.rs:286-384 | a pool written down is made if and only if the tokens differ and have none, the fee is at most 1,000, the amounts are positive, their product fits u128 and its root is above 1,000 |
| `DexTexts.WrittenIsDecoded` | crates/los-contracts/src/dex_amm.rs:286-640 | a call written down as names and decimal numbers in the order of the arguments is decoded to that call, an absent fee included |
| `DexTexts.UndecodedExactly` | crates/los-contracts/src/dex_amm.rs:286-640 | nothing is decoded if and only if an argument is missing or a name is empty |
| `DexTexts.PoolText` | crates/los-contracts/src/dex_amm.rs:341-358 | the text each field of a pool is kept under |
| `Decimal.PrintReversed` | crates/los-contracts/src/usp01_token.rs:87-100 | pushing digits and reversing prints the same string |
| `Usp01.CallKeepsInv` | crates/los-contracts/src/usp01_token.rs:305-846 | a call keeps the sum of balances equal to the supply, within the cap, if and only if it is neither a mint that takes an uncapped supply beyond u128 nor a credit to a name whose key is cut inside a character |
| `Usp01.OvermintingBreaksSupply` | crates/los-contracts/src/usp01_token.rs:699-778 | a newly deployed token and one such mint, after which the balances exceed the supply |
| `Usp01.CutNameLosesCredit` | crates/los-contracts/src/usp01_token.rs:305-367 | a transfer to a name of 1,021 bytes that ends inside a character debits the sender and credits nobody |
| `Usp01.InvThroughoutExactly` | crates/los-contracts/src/usp01_token.rs:305-846 | over a run the balances equal the supply after every call if and only if no call is one of those |
| `Usp01.NothingIsDeleted` | crates/los-contracts/src/usp01_token.rs:305-846 | no call deletes an entry, so what the virtual machine keeps of a call is all that it left |
| `Usp01.FailureChangesNothing` | crates/los-contracts/src/usp01_token.rs:305-846 | a failing call leaves the store as it was: the overflow exits after a debit are never taken |
| `Usp01.SuccessBalanced` | crates/los-contracts/src/usp01_token.rs:305-846 | balances and supply change by exactly the amounts burnt, minted or lost; burns never stop at zero |
| `Usp01.TransferMoves` | crates/los-contracts/src/usp01_token.rs:305-517 | a transfer takes the amount from one balance and adds it to the other, seen from every name, those that share a cut key included |
| `Usp01.TransferMovesOnly` | crates/los-contracts/src/usp01_token.rs:305-517 | between names of at most 1,019 bytes it touches no third balance |
| `Usp01.OwnBalanceExactly` | crates/los-contracts/src/usp01_token.rs:305-367 | a name has its balance to itself if and only if it has at most 1,019 bytes |
| `Usp01.RunKeepsInv` | crates/los-contracts/src/usp01_token.rs:305-846 | over every run the balances add up to the supply, if it is capped or the mints fit u128, and no credit goes to a name cut inside a character |
| `Usp01.SupplyIsSumOfBalances` | crates/los-contracts/src/usp01_token.rs:197-846 | the same from deployment on |
| `Usp01.SpendingIsWithinAllowance` | crates/los-contracts/src/usp01_token.rs:378-517 | between approvals, what is spent under an allowance is exactly what it shrinks by, pairs that share a cut key counting as one |
| `Usp01.PairsDiffer` | crates/los-contracts/src/usp01_token.rs:108-110 | without colons in owner addresses, different pairs have different texts |
| `Usp01.AllowanceOwnedExactly` | crates/los-contracts/src/usp01_token.rs:108-110 | an allowance belongs to no other pair if and only if neither address has a colon and both together have at most 1,016 bytes |
| `Usp01.DeploymentEstablishesInv` | crates/los-contracts/src/usp01_token.rs:197-293 | a new token gives its whole supply to its creator, and is in order if and only if the creator's key is not cut inside a character |
| `Usp01Contract.Usp01Contract.Init` | crates/los-contracts/src/usp01_token.rs:197-293 | succeeds exactly on acceptable settings, once, and writes them |
| `Usp01Contract.Usp01Contract.Transfer` | crates/los-contracts/src/usp01_token.rs:305-367 | answer and entries as specified, debit before credit |
| `Usp01Contract.Usp01Contract.Approve` | crates/los-contracts/src/usp01_token.rs:378-418 | sets the allowance of the pair |
| `Usp01Contract.Usp01Contract.TransferFrom` | crates/los-contracts/src/usp01_token.rs:431-517 | moves under an allowance and reduces it |
| `Usp01Contract.Usp01Contract.Burn` | crates/los-contracts/src/usp01_token.rs:523-575 | debits and lowers the supply |
| `Usp01Contract.Usp01Contract.WrapMint` | crates/los-contracts/src/usp01_token.rs:699-778 | only the bridge operator mints, within the cap |
| `Usp01Contract.Usp01Contract.WrapBurn` | crates/los-contracts/src/usp01_token.rs:785-846 | burns wrapped tokens |
| `Usp01Answers.SucceedsExactly` | crates/los-contracts/src/usp01_token.rs:305-846 | each call succeeds if and only if the guards on the entries `usp01:init`, `usp01:is_wrapped`, `usp01:bridge_operator`, `usp01:max_supply`, `usp01:total_supply`, `bal:` and `allow:` hold, with their numbers |
| `Usp01Answers.BalancesExactly` | crates/los-contracts/src/usp01_token.rs:305-846 | a call that succeeds raises the balance it credits and lowers the one it debits by the amount, as read by every name, and no other |
| `Usp01Answers.AllowancesExactly` | crates/los-contracts/src/usp01_token.rs:378-517 | an approval sets its pair's allowance, a spending lowers it by the amount, and every other call and pair leaves it |
| `Usp01Answers.SettingsExactly` | crates/los-contracts/src/usp01_token.rs:305-846 | no setting changes but the total supply, which a burn lowers and a mint raises, stopping at 0 and at the largest u128 |
| `Usp01Answers.DeployedSettings` | crates/los-contracts/src/usp01_token.rs:252-290 | what each setting of a new token reads as, under its own text |
| `Usp01Answers.DeployedBalances` | crates/los-contracts/src/usp01_token.rs:252-290 | the creator has the whole supply and nobody else's balance is touched |
| `RateLimiter.PaidFor` | crates/los-node/src/rate_limiter.rs:63-94 | without cleanup, admissions are paid for by the tokens at hand and those refilled |
| `RateLimiter.SameAnswer` | crates/los-node/src/rate_limiter.rs:63-124 | a bucket idle for ten minutes and a missing one answer alike, when ten minutes fill a bucket |
| `RateLimiter.SweepingIsUnobservable` | crates/los-node/src/rate_limiter.rs:63-124 | then cleanup changes no answer in any run |
| `RateLimiter.RefillFits` | crates/los-node/src/rate_limiter.rs:72-80 | a bucket that survives cleanup is younger than fifteen minutes, so the refill arithmetic stays within u64 |
| `RateLimiter.RunKeepsInv` | crates/los-node/src/rate_limiter.rs:63-124 | no bucket is ever over capacity, in the future, or older than that |
| `RateLimiter.AdmissionBound` | crates/los-node/src/rate_limiter.rs:63-124 | between any two calls from one address, 1,000 times the admitted requests is at most the burst plus rate times elapsed milliseconds |
| `RateLimiter.TwoBurstsExceed` | crates/los-node/src/rate_limiter.rs:63-124 | a run that breaks the bound when ten idle minutes do not fill a bucket |
| `RateLimiter.BoundExactlyWhenIdleFills` | crates/los-node/src/rate_limiter.rs:63-124 | so the bound holds for all runs if and only if rate times 600,000 is at least the burst |
| `RateLimiter.DefaultIdleFills` | crates/los-node/src/rate_limiter.rs:49-59 | which it always is without an explicit burst size |
| `RateLimiter.RateLimiter.constructor` | crates/los-node/src/rate_limiter.rs:49-59 | an empty limiter with the configured burst and rate |
| `RateLimiter.RateLimiter.CleanupIfNeeded` | crates/los-node/src/rate_limiter.rs:109-124 | drops buckets idle for ten minutes, at most every five |
| `RateLimiter.RateLimiter.CheckRateLimit` | crates/los-node/src/rate_limiter.rs:63-94 | refills, admits or denies, and updates the bucket, in u64; the answer is that of `RateLimiterAnswers.CallExactly` |
| `RateLimiterAnswers.CallExactly` | crates/los-node/src/rate_limiter.rs:63-94 | a request is admitted if and only if the tokens at hand, the refill of rate millitokens a whole millisecond included and the burst as cap, are at least 1,000, which it takes; no other address is touched |
| `RateLimiterAnswers.TokensAccountedFor` | crates/los-node/src/rate_limiter.rs:63-94 | over runs, while the cap is not hit, tokens at the end plus 1,000 times the admissions equal tokens at the start plus rate times the summed gaps |
| `RateLimiterAnswers.WithinRateNeverDenied` | crates/los-node/src/rate_limiter.rs:63-124 | an address whose calls are at least g milliseconds apart, with g times the rate at least 1,000, is never denied, whatever others do |
| `RateLimiterAnswers.ConfiguredIs` | crates/los-node/src/rate_limiter.rs:49-59 | the burst in millitokens is the one given, or else twice the rate in u32 |
| `MempoolModel.RunKeepsInv` | crates/los-node/src/mempool.rs:63-216 | over every run no transaction is held twice, at most 10,000 are held, and received is accepted plus rejected |
| `MempoolModel.RefusalKeepsContents` | crates/los-node/src/mempool.rs:63-103 | a call is refused if and only if it is a duplicate, does not outbid a full pool, or is malformed; then the contents stay unless it is a malformed newcomer that outbids an entry of a full pool |
| `MempoolModel.RefusalEvicts` | crates/los-node/src/mempool.rs:63-103 | after 10,000 well-formed submissions of priority 0, any malformed newcomer of higher priority is refused and evicts an entry |
| `MempoolModel.SomeRefusalEvicts` | crates/los-node/src/mempool.rs:63-103 | such submissions exist, under a hash that is never the genesis head |
| `MempoolModel.RunKeepsGenuine` | crates/los-node/src/mempool.rs:63-132 | over every run each entry is well formed and stored under its own hash |
| `MempoolModel.AcceptanceAppends` | crates/los-node/src/mempool.rs:63-132 | a newcomer comes last; only the first entry of the lowest priority can go, and only for a higher one |
| `MempoolCode.IndexesAgree` | crates/los-node/src/mempool.rs:18-41 | every stored hash is exactly once in the list of its priority, exactly once in that of its sender and in no other; no list is empty |
| `MempoolCode.ServedFirstUnique` | crates/los-node/src/mempool.rs:164-178 | an answer in order of service is determined by its length |
| `MempoolCode.Mempool.constructor` | crates/los-node/src/mempool.rs:49-60 | an empty pool |
| `MempoolCode.Mempool.AddTransaction` | crates/los-node/src/mempool.rs:63-132 | the answer, contents and counters of the arrival-ordered pool, with all three indexes kept |
| `MempoolCode.Mempool.MakeRoom` | crates/los-node/src/mempool.rs:79-91 | a full pool evicts only for a higher priority |
| `MempoolCode.Mempool.RemoveTransaction` | crates/los-node/src/mempool.rs:140-161 | takes out one transaction and returns it, with all three indexes kept |
| `MempoolCode.Mempool.GetNextTransactions` | crates/los-node/src/mempool.rs:164-178 | the first transactions by descending priority, then arrival: `count`, but at least one, of those there are |
| `MempoolCode.Mempool.GetTransactionsBySender` | crates/los-node/src/mempool.rs:181-183 | a sender's transactions by arrival |
| `MempoolCode.Mempool.RemoveExpired` | crates/los-node/src/mempool.rs:186-206 | takes out exactly those older than a day and counts them |
| `MempoolCode.Mempool.EvictLowestPriority` | crates/los-node/src/mempool.rs:209-216 | takes out the earliest of the lowest priority |
| `MempoolAnswers.AdmittedExactly` | crates/los-node/src/mempool.rs:63-132 | a transaction is let in if and only if its hash is new, account and signature are not empty, and there are fewer than 10,000 or one of lower priority |
| `MempoolAnswers.AdmittedEntries` | crates/los-node/src/mempool.rs:94-132 | it comes last with its block, time, priority and fee; from a full pool the first of the cheapest goes; both counters count it |
| `MempoolAnswers.RefusedEntries` | crates/los-node/src/mempool.rs:63-103 | a refusal is counted, and takes something out only where a malformed newcomer outbids in a full pool |
| `MempoolAnswers.RemovedExactly` | crates/los-node/src/mempool.rs:140-161 | removal takes out the one place with that hash, or nothing, and no counter changes |
| `MempoolAnswers.ExpiredExactly` | crates/los-node/src/mempool.rs:186-206 | expiry keeps, in order, exactly those that arrived at most 86,400 seconds ago |
| `MempoolAnswers.SentExactly` | crates/los-node/src/mempool.rs:181-183 | a sender's transactions are all those of that account, by arrival |
| `MempoolAnswers.ServedOnce` | crates/los-node/src/mempool.rs:164-178 | what is served is in the pool, and nothing is served twice |
| `MempoolAnswers.ServedInOrder` | crates/los-node/src/mempool.rs:164-178 | nothing is served before a dearer transaction, nor before an equally dear one that arrived earlier |
| `Oracle.LastSubmissionCounts` | crates/los-core/src/oracle_consensus.rs:92-133 | what is held for a validator is its last acceptable submission |
| `Oracle.OrderIsImmaterial` | crates/los-core/src/oracle_consensus.rs:92-133 | runs with the same last submissions leave the same prices, whatever their order |
| `Oracle.MedianBetweenMiddles` | crates/los-core/src/oracle_consensus.rs:204-218 | the median lies between the two middle values if and only if the count is odd or their sum fits u128; else it is below both |
| `Oracle.MedianIsRobust` | crates/los-core/src/oracle_consensus.rs:136-218 | with fewer than half of the prices faulty, the median is within the honest range, if the count is odd or the sum of the two middle prices fits u128 |
| `Oracle.RobustExactly` | crates/los-core/src/oracle_consensus.rs:136-218 | and only then does it withstand every faulty minority |
| `Oracle.AgreeingPricesLost` | crates/los-core/src/oracle_consensus.rs:204-218 | two validators that agree on 2^127 get the median 0 |
| `Oracle.ModestPricesFit` | crates/los-core/src/oracle_consensus.rs:204-218 | the sum fits when the honest prices are at most half of u128 |
| `Oracle.ConsensusIsUnique` | crates/los-core/src/oracle_consensus.rs:136-199 | equal submissions give equal consensus |
| `Oracle.ConsensusIsRobust` | crates/los-core/src/oracle_consensus.rs:92-218 | after any run of submissions, a faulty minority of the recent ones moves neither price out of the honest range, if both middle sums fit |
| `Oracle.Sort` | crates/los-core/src/oracle_consensus.rs:181-183 | a sorted rearrangement |
| `Oracle.OracleConsensus.SubmitPrice` | crates/los-core/src/oracle_consensus.rs:92-133 | replaces the validator's submission, ignoring zero prices |
| `Oracle.OracleConsensus.GetConsensusPrice` | crates/los-core/src/oracle_consensus.rs:136-199 | both medians of the recent positive prices, exactly when there are enough |
| `OracleAnswers.SubmitExactly` | crates/los-core/src/oracle_consensus.rs:92-133 | a submission replaces its validator's entry if both prices are positive, and changes no other |
| `OracleAnswers.AnsweredExactly` | crates/los-core/src/oracle_consensus.rs:136-178 | there is a price if and only if enough submissions are younger than the window (an age that wraps at 2^64), in all and with either price positive |
| `OracleAnswers.PricedExactly` | crates/los-core/src/oracle_consensus.rs:181-218 | each price is the middle of any ranking of those submissions by price, or the halved sum of the middle two modulo 2^128 |
| `SlashingModel.RunKeepsInv` | crates/los-consensus/src/slashing.rs:176-601 | over every run: a profile's total is the sum of its history (modulo 2^128), recent signatures hold one hash a height, nobody confirms a proposal twice |
| `SlashingModel.DowntimeSlashIsOnePercent` | crates/los-consensus/src/slashing.rs:311-319 | the downtime slash is one percent rounded up if and only if a hundred times the stake fits u128 |
| `SlashingModel.AbsentExactly` | crates/los-consensus/src/slashing.rs:105-123 | the uptime test, in basis points rounded down, is: at least 50,000 blocks observed and fewer than 95 % of them signed |
| `SlashingModel.BanIsPermanent` | crates/los-consensus/src/slashing.rs:223-420 | a ban, and the total and history of a banned validator, stay until removal or clear |
| `SlashingModel.ExecutionNeedsQuorum` | crates/los-consensus/src/slashing.rs:521-601 | a proposal executes only on a confirmation that makes floor(2n / 3) + 1 distinct confirmers, against an offender not banned before |
| `SlashingModel.ExecutedStays` | crates/los-consensus/src/slashing.rs:534-541 | an executed proposal keeps its confirmations and later confirmations slash nobody |
| `SlashingModel.ExecutesAtMostOnce` | crates/los-consensus/src/slashing.rs:521-601 | a proposal executes at most once in any run without a clear |
| `SlashingModel.QuorumIsHonest` | crates/los-consensus/src/slashing.rs:548-551 | with at most a third of n faulty, more than a third of n confirmed honestly |
| `SlashingCode.SlashingManager.RegisterValidator` | crates/los-consensus/src/slashing.rs:176-181 | adds a fresh profile once |
| `SlashingCode.SlashingManager.RecordSignature` | crates/los-consensus/src/slashing.rs:184-220 | refuses a second hash for a height, else keeps the last 1,000 |
| `SlashingCode.SlashingManager.SlashDoubleSigning` | crates/los-consensus/src/slashing.rs:223-257 | books the whole stake and bans, unless banned |
| `SlashingCode.SlashingManager.RecordBlockParticipation` | crates/los-consensus/src/slashing.rs:260-276 | counts a signed block |
| `SlashingCode.SlashingManager.RecordBlockObservation` | crates/los-consensus/src/slashing.rs:279-288 | counts an observed block |
| `SlashingCode.SlashingManager.CheckAndSlashDowntime` | crates/los-consensus/src/slashing.rs:291-345 | books the downtime slash and resets the window when uptime is too low, as `SlashingAnswers.DowntimeExactly` says |
| `SlashingCode.SlashingManager.EmergencyBan` | crates/los-consensus/src/slashing.rs:358-366 | bans without a slash |
| `SlashingCode.SlashingManager.SetUnstaking` | crates/los-consensus/src/slashing.rs:400-420 | only from active or slashed |
| `SlashingCode.SlashingManager.UpdateBlockHeight` | crates/los-consensus/src/slashing.rs:430-432 | sets the height and nothing else |
| `SlashingCode.SlashingManager.RemoveValidator` | crates/los-consensus/src/slashing.rs:436-438 | forgets a profile |
| `SlashingCode.SlashingManager.ClearAll` | crates/los-consensus/src/slashing.rs:472-477 | forgets everything |
| `SlashingCode.SlashingManager.ProposeSlash` | crates/los-consensus/src/slashing.rs:480-517 | a new proposal with the proposer's confirmation |
| `SlashingCode.SlashingManager.ConfirmSlash` | crates/los-consensus/src/slashing.rs:521-601 | updates the stake, confirms, and executes on a quorum; a failing slash leaves the confirmation |
| `SlashingAnswers.DowntimeExactly` | crates/los-consensus/src/slashing.rs:291-345 | the call answers with an amount if and only if the validator is registered, not banned, observed at least 50,000 blocks and signed fewer than 95 % of them; then the least amount that is a hundredth of the stake is booked, the status is Slashed and the window starts anew; otherwise nothing changes |
| `SlashingAnswers.DoubleSigningExactly` | crates/los-consensus/src/slashing.rs:223-257 | the whole stake is booked and the validator banned, unless it is banned already or unknown |
| `SlashingAnswers.SignatureExactly` | crates/los-consensus/src/slashing.rs:184-220 | a signature is refused if and only if one of the last 1,000 for that height has another hash; else it is remembered, the oldest going beyond 1,000 |
| `SlashingAnswers.ThresholdIs` | crates/los-consensus/src/slashing.rs:548-551 | the quorum is the least number above two thirds of n |
| `SlashingAnswers.ConfirmExactly` | crates/los-consensus/src/slashing.rs:521-601 | when a confirmation is counted, when it executes, and what either leaves |
| `SlashingAnswers.DowntimeProposalExactly` | crates/los-consensus/src/slashing.rs:521-601 | a quorum for downtime slashes, at the stake on record, exactly a validator who is absent and not banned |
| `SlashingAnswers.ProposeExactly` | crates/los-consensus/src/slashing.rs:480-517 | a proposal is made once, against a registered validator, and confirmed by who makes it |
| `SlashingAnswers.CountsExactly` | crates/los-consensus/src/slashing.rs:260-288 | what counting a signed and an observed block changes |
| `SlashingAnswers.StatusExactly` | crates/los-consensus/src/slashing.rs:358-420 | what a ban and unstaking change, and for whom |
| `SlashingAnswers.MembersExactly` | crates/los-consensus/src/slashing.rs:176-477 | what registering, removing, clearing and a new height change |
| `Storage.KeyValueStore.Delete` | crates/los-vm/src/host.rs:261-271 | within a call, deletes the entry kept under the cut key and no other |
| `Storage.KindsApart` | crates/los-vm/src/host.rs:201-271 | keys of different kinds, a balance and an allowance say, are kept apart however long they are |
| `Storage.OwnEntryExactly` | crates/los-vm/src/host.rs:201-271 | a key of a pool, share, balance or allowance has its entry to itself if and only if it is shorter than 1,024 bytes |
| `Storage.PoolFieldsApartExactly` | crates/los-vm/src/host.rs:201-271 | the eight entries of one pool are kept apart if and only if its identifier has at most 1,009 bytes |
| `Storage.PutSets` | crates/los-vm/src/host.rs:201-228 | writing under a key shorter than 1,024 bytes changes what that key reads, and what no other key reads |
| `Storage.KeyValueStore.Commit` | crates/los-vm/src/lib.rs:616-622 | of the keys a call touched only those still present are put over the saved entries, so a deleted one keeps its saved value |
| `DexHosted.ShareComesBack` | crates/los-vm/src/lib.rs:616-722 | after a removal of the whole share the next call finds that share on record again |
| `DexHosted.OutgrowingFails` | crates/los-vm/src/lib.rs:616-722 | after any call that leaves a pool or share under a key without room the kept store stands for no state of the exchange |
| `DexHosted.CarriedDecodesExactly` | crates/los-vm/src/lib.rs:616-722 | what is kept of a call stands for the numeric state after it, if and only if the call takes no whole share, is no creation that only the numeric exchange allows, and leaves no pool or share under a key without room; overflow counting as an abort |
| `DexHosted.WholeShareIsDeletion` | crates/los-vm/src/lib.rs:616-722 | taking a whole share, told beforehand from the pool record alone, is a removal of a positive amount that goes through and leaves its caller nothing |
| `DexHosted.RunDecodesExactly` | crates/los-vm/src/lib.rs:692-722 | over every run, overflow counting as an abort, the store stands for the numeric state after each call if and only if no call is one of those |
| `DexHosted.HostedStoreDecodesExactly` | crates/los-vm/src/lib.rs:692-722 | the same from deployment on, for all callers without a colon, u128 amounts and u64 times; room means pool identifiers of at most 1,007 bytes, and 1,019 for identifier and holder together |
| `DexHosted.StoreDecodes` | crates/los-vm/src/lib.rs:692-722 | after a run without such calls the kept store decodes to the numeric exchange, pool by pool and share by share, the pool list naming each pool once |
| `DexHosted.WholeShareIsBack` | crates/los-vm/src/lib.rs:616-722 | a creation and a removal after which the kept store decodes no longer |
| `DexHosted.LongNameFails` | crates/los-vm/src/lib.rs:616-722 | a creation with a token name of 1,100 bytes is done, and the kept store does not decode |
| `DexHosted.HostedExchange.constructor` | crates/los-vm/src/lib.rs:124-185 | a contract deployed without initial entries holds after `init` what that writes and nothing else |
| `DexHosted.HostedExchange.Invoke` | crates/los-vm/src/lib.rs:667-722 | a call works on a copy of the state with keys cut as the host cuts them, and what is put back is the old state overlaid with what the call left; an aborted call changes nothing |
| `HostedAnswers.RejectedOutright` | crates/los-vm/src/lib.rs:667-722 | before `init`, or with an argument missing or a name empty, a call is rejected and changes nothing |
| `HostedAnswers.AnsweredByNumbers` | crates/los-vm/src/lib.rs:667-722 | any other call, written down as strings, is answered by what it does to the numbers of the stored pools, but that a pool with an oversized initial product is refused; the kept store stands for the new numbers if and only if the call is none of the three failing kinds |

## Left out

- LedgerModel.Ledger.ProcessBlock: signature, address and hash functions are parameters; the total of burned USD wraps as in a release build.
- Fips202.SpongeChunks: lengths are unbounded naturals, so `size_t` wrap-around is not modelled; the permutation itself is a parameter.
- Cshake.CshakeInit: the bit lengths of both strings must fit `size_t`, as the code needs.
- RewardPoolCode.ValidatorRewardPool.DistributeEpochRewards: the order of the payout list is left open, and epoch and heartbeat counters do not wrap at 2^64.
- DexCode.DexState.AddLiquidity: an overflow that the code does not check is an explicit abort that changes nothing; the wrapped values of an unchecked release build are not modelled (so for all calls of both exchanges).
- DexHosted.HostedExchange.Invoke: the exported calls that change pools; a call that traps keeps nothing, as in the virtual machine.
- Storage.KeyValueStore.SetStr: the host also stops at 256 KB of a value and at 1,024 touched keys a call; arguments have at most 64 KB and no exported call touches more than eleven keys, so neither is reached and neither is modelled.
- Storage.KeyValueStore.Commit: gas and the contract's own funds are not modelled.
- DexHosted.HostedStoreDecodesExactly: addresses hold no colon, as those the node derives; arguments are taken as the library hands them over; nothing is said of the store after the first call that parts ways.
- Usp01Contract.Usp01Contract.Init: the library's parse of the decimals argument is a parameter.
- RateLimiter.RateLimiter.CheckRateLimit: one clock reading a call, never going back; the locks and the admin resets are left out.
- MempoolCode.Mempool.AddTransaction: the counters are updated after the decision, not before it, and do not wrap.
- SlashingModel.ExecutionNeedsQuorum: confirmers are distinct names; the code does not ask that they be registered validators, and neither does the model.
- SlashingModel.RunKeepsInv: block and violation counters do not wrap.
- `record_heartbeat_once`, `sync_reward_from_gossip` and direct writes to public fields: outside the modelled runs.
- `get_pool`, `get_position`, the contract's `quote`, balance and metadata queries: they only format what is stored.
- `detect_outliers`, `get_summary` and the statistics of slashing and mempool: reports without influence on the state laws; `cleanup_old` forgets only submissions outside the window.
- JSON responses, events, log and error texts: only success or failure and the state are kept.
- `crates/los-consensus/src/abft.rs`: it counts votes per sequence without comparing block hash or view, so it decides no agreement to prove.
- The bonding curve and every floating-point helper, `BlockBurnState`, `validator_config.rs`, fee builders: excluded from mainnet builds or one-branch facts.
- Networking, Tor, gRPC, the CLI, metrics, the database and the wallet applications: input and output only.
- The unrolled Keccak-f[1600] rounds, SHA-2, AES, Dilithium5, Ed25519, Base58 and BLAKE2: foreign or fixed-width code without run-level laws.
