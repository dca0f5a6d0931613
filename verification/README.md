# Verified models of the superorganism protocols

This project models the parts of the superorganism repository on whose logic its users rely, and
proves what they promise: funding of solutions by Bitcoin pledges, learning which ranking model is
best from gossiped statistics, replication of issues, votes and funding objects between peers, the
loader that starts IPv8 communities, recognition of registration payments, and the request cache.
Code that changes state is modelled by methods and classes that are proved against functions on
values; the main results are lemmas about those functions, over all inputs, all runs or all
reachable states.

`dafny verify dfyconfig.toml` checks everything. The files, by subject:

- Funding: `Totals`, `PledgeSelection`, `TxFormat`, `TxRoundTrip`, `TxGrammar`, `TxCodec`,
  `TxCombiner`, `FundingService`, `FundingOnChain`. Greedy selection uses the fewest pledges that can
  reach the price; the transaction codec is a round trip and accepts exactly the grammar of the
  format; combining pledges succeeds exactly on compatible ones, and so the service can build a
  fundable campaign exactly when the chosen pledges agree on version and locktime; what it builds
  spends outputs that the node itself says are worth the price.
- Ranking by gossip: `Totals`, `Ndcg`, `NdcgValues`, `MapSums`, `BanditState`, `Bandit`, `Eviction`,
  `GossipOrder`, `Elimination`, `GossipNetwork`, `GossipSafety`, `RewardEvidence`, `LtrCommunity`.
  NDCG lies in [0, 1] by a rearrangement argument, so rewards do; so the evidence every peer
  aggregates is in range, and is the sum of rewards that were drawn, in every reachable state of a
  network that loses, duplicates and reorders messages; so intervals are intervals around the share
  of reward, and elimination retires exactly the beaten arms and never an arm with the greatest mean.
- Replication: `Schema`, `Repository`, `GossipItems`, `GossipLayout`, `Replication`, `Exchange`,
  `ExchangeRun`, `Dissemination`, `Reach`. The store keeps its constraints over every run; an in-order exchange has
  an outcome that depends on the two stores only; the cascade after a publication ends, and without
  losses it has then reached every connected peer.
- Launching: `LaunchGraph`, `CommunityLoader`. The step budget decides acyclicity exactly.
- Smaller protocols: `OpReturn`, `Encodings`, `CommitmentSharing`, `PlainSharing`,
  `RequestCaches`.
- Shared by these: `Bytes`, `Wrappers`, `FiniteSets`, `Quotients`.

Results that differ from what the code's own documentation says:

- `compute_campaign_commitment_hex` describes its payload as unambiguous because variable-length
  fields carry a length. The network id does not. `NetworksShareExactly` says for which two network
  ids there are two campaigns with one preimage: the longer id continues the shorter one with bytes
  that can pass for the beginning of a campaign's fields, which any 35 bytes or fewer do.
  `PlainNetworksShareExactly` says the same of campaigns whose addresses are plain ASCII.
  `LengthsAreSafeExactly` says it by length: ids of two lengths are safe from this exactly when the
  lengths are equal or differ by more than 2^33 - 3.
- A campaign that is reported fundable cannot always be built: `FundableYetNotBuildable` gives an input,
  `FundableIsBuildable` the exact condition.
- The OP_RETURN parser speaks of minimally encoded scripts and also accepts longer push forms.
  `AcceptsLongerForms` gives such a script; `MinimalExactly` says of every accepted script when it is
  minimally encoded: when its payload is too long for the shorter forms.
- A campaign of B for a solution keeps A's campaign for it out, as does a rival pledge of one
  outpoint; `CampaignsArrive` and `PledgesArrive` say exactly when, so exchanges make vote tallies
  equal but not always funding objects. Repeating them does not help (`RepeatingChangesNothing`):
  two rival campaigns stay apart over any number of exchanges both ways (`RivalsNeverMeet`).

## Model

| member | source | states |
|---|---|---|
| Totals.TopOutweighs | crowdsourced_learn_to_rank/ltr-benchmarking/local_experiment.py:149-158 | the heaviest elements outweigh any choice of as many or fewer: the exchange argument behind the ideal order |
| Totals.TotalPermutation | democracy/funding/service.py:646-654 | the value of pledges does not depend on their order |
| PledgeSelection.SelectPledges | democracy/funding/service.py:605-654 | the loop fails on a negative buffer and exactly when all pledges together miss the required sum, and otherwise returns the greedy choice |
| PledgeSelection.GreedyPartitions | democracy/funding/service.py:629-654 | chosen and remaining pledges are a permutation of the given ones |
| PledgeSelection.GreedyReaches | democracy/funding/service.py:629-654 | the choice reaches the required sum if and only if all pledges do |
| PledgeSelection.GreedyIsOptimal | democracy/funding/service.py:605-654 | no part of the given pledges that reaches the required sum has fewer members |
| PledgeSelection.GreedyIsIrredundant | democracy/funding/service.py:605-654 | without any one of the chosen pledges the rest falls short |
| PledgeSelection.GreedyOvershootsLeast | democracy/funding/service.py:634-652 | no pledge left over completes the choice with less than its last pledge |
| PledgeSelection.EarlierIsChosen | democracy/funding/service.py:634-652 | among pledges of equal value the one created first is chosen, and then the one with the lower transaction id and output number |
| PledgeSelection.LexLessMeans | democracy/funding/service.py:860-872 | transaction ids are compared by their first differing byte |
| PledgeSelection.GreedyIgnoresOrder | democracy/funding/service.py:860-872 | the sort keys make the choice independent of the order of the pledges |
| TxFormat.EncodeVarint | democracy/funding/bitcoin_tx.py:293-309 | a count can be written exactly when it fits 64 bits unsigned |
| TxRoundTrip.VarintRoundTrip | democracy/funding/bitcoin_tx.py:278-309 | every count is read back from its encoding, with what follows it untouched |
| TxRoundTrip.VarintShrinks | democracy/funding/bitcoin_tx.py:278-309 | writing a count again never takes more bytes than it was read from |
| TxRoundTrip.DecodesEncoding | democracy/funding/bitcoin_tx.py:39-187 | parsing a serialized transaction gives the transaction, with or without witnesses |
| TxRoundTrip.RoundTripExactly | democracy/funding/bitcoin_tx.py:39-187 | the round trip holds exactly for transactions with inputs and 32-byte transaction ids |
| TxRoundTrip.ReencodingShrinks | democracy/funding/bitcoin_tx.py:103-187 | whatever is parsed can be serialized, and no longer than it was |
| TxRoundTrip.ReencodingDecodes | democracy/funding/bitcoin_tx.py:103-187 | an accepted byte string with inputs, written again, parses to the same transaction |
| TxGrammar.ParsesExactly | democracy/funding/bitcoin_tx.py:103-187 | a byte string parses to a transaction exactly when it is that transaction by the grammar of the format: version, optional zero count and one, counted inputs, counted outputs, witnesses after such a mark only, locktime, every count in any of its four widths |
| TxGrammar.NothingMayFollow | democracy/funding/bitcoin_tx.py:103-187 | a transaction followed by anything is refused for what follows |
| TxGrammar.WritesShortest | democracy/funding/bitcoin_tx.py:39-70 | what is written is in the grammar, and no other form of the same transaction is shorter |
| TxCodec.Serialize | democracy/funding/bitcoin_tx.py:39-70 | the growing buffer holds the encoding, or serializing fails exactly on a number out of range |
| TxCodec.ByteStream.ReadExact | democracy/funding/bitcoin_tx.py:251-256 | reads exactly the asked bytes or fails at the end of the stream |
| TxCodec.ByteStream.ReadVarint | democracy/funding/bitcoin_tx.py:278-290 | the stream advances by one variable-length count |
| TxCodec.ParseTransaction | democracy/funding/bitcoin_tx.py:103-187 | the stream parser computes the decoding function with its errors |
| TxCombiner.CombinePledges | democracy/funding/bitcoin_tx.py:190-248 | the loop computes the combination or reports the first fault in its order |
| TxCombiner.CombineExactly | democracy/funding/bitcoin_tx.py:190-248 | combining succeeds exactly on a non-empty list of single-input pledges with distinct outpoints and common outputs, version and locktime, and the result parses to their combination |
| TxCombiner.CombinesAsSaid | democracy/funding/bitcoin_tx.py:190-248 | in the terms of the parsed transactions alone: when combining succeeds, and that the result has their inputs in order and the version, locktime and outputs they share |
| TxCombiner.FaultsAsSaid | democracy/funding/bitcoin_tx.py:217-238 | the first transaction that is not compatible with those before it decides the error, the number of inputs before outputs, locktime, version and the outpoint |
| TxCombiner.OutpointKeyInjective | democracy/funding/bitcoin_tx.py:21-23 | equal outpoint keys mean the same output is spent |
| FundingService.PrepareValidPledges | democracy/funding/service.py:767-831 | prepares each pledge while the campaign is open and nothing afterwards, stopping on an error |
| FundingService.PreparedAreValid | democracy/funding/service.py:709-858 | exactly the stored pledges that pass both validations are prepared |
| FundingService.ComputeFundingStatus | democracy/funding/service.py:462-520 | every error in its order, an unknown campaign included; otherwise the status sums the prepared pledges, which `StatusIsTheNodesTotal` reads on the node's own data, and fundable means they reach price and buffer |
| FundingService.PrepareFinalTransaction | democracy/funding/service.py:522-562 | every error in its order, an unknown campaign included, otherwise selection followed by combination |
| FundingService.FundableIsBuildable | democracy/funding/service.py:506-562 | a fundable campaign is built exactly when the selected pledges agree on version and locktime, with a transaction that pays its outputs from valid pledges |
| FundingService.FundableYetNotBuildable | democracy/funding/service.py:891-952 | an input with a payout and a 32-byte commitment output that is fundable and cannot be built |
| FundingOnChain.PreparesExactlyWhen | democracy/funding/service.py:792-815 | pledges are prepared exactly when the node finalizes every stored one into something that parses; otherwise the first one in stored order for which it does not is reported |
| FundingOnChain.StatusIsTheNodesTotal | democracy/funding/service.py:462-520 | the valid total is what the node says the outputs of those stored pledges are worth that it knows, finds deep enough, worth what was pledged and signed for as asked; the count is their number |
| FundingOnChain.PlanIsFundedOnChain | democracy/funding/service.py:522-562 | every input of the built transaction spends, once and with sequence 0xFFFFFFFD, the output of a selected stored pledge, which the node knows and finds deep enough; together the node says they are worth the selected total, which reaches the required one; the outputs are the campaign's |
| Ndcg.SortedPrefixIsHeaviest | crowdsourced_learn_to_rank/ltr-benchmarking/local_experiment.py:149-158 | sorting labels down makes every prefix as heavy as possible |
| Ndcg.GapBySummation | crowdsourced_learn_to_rank/ltr-benchmarking/local_experiment.py:153-158 | the gap to the ideal gain is at least the last lead over the last discount, and, the discounts being distinct, zero only without any lead |
| Ndcg.IdealIsGreatest | crowdsourced_learn_to_rank/ltr-benchmarking/local_experiment.py:152-158 | no order has a greater discounted gain than the ideal one and, the discounts being distinct, only its top labels equal it |
| Ndcg.NdcgInUnit | crowdsourced_learn_to_rank/ltr-benchmarking/local_experiment.py:144-160 | NDCG@k lies in [0, 1] for all non-negative labels, all scores and all k, any increasing gain and any positive nondecreasing discounts |
| Ndcg.NdcgIsOne | crowdsourced_learn_to_rank/ltr-benchmarking/local_experiment.py:144-160 | it is 1 when the ideal gain is positive and the top k labels are the ideal ones, and with distinct discounts only then |
| NdcgValues.NdcgTimesIdeal | crowdsourced_learn_to_rank/ltr-benchmarking/local_experiment.py:144-160 | the result times the ideal discounted gain, a sum over the ranks kept, is the discounted gain of the ranking, and it is 0 when the ideal gain is |
| NdcgValues.NdcgIsAdditive | crowdsourced_learn_to_rank/ltr-benchmarking/local_experiment.py:144-160 | for gains that add up, the result times the ideal gain adds up |
| NdcgValues.NdcgOfOne | crowdsourced_learn_to_rank/ltr-benchmarking/local_experiment.py:144-160 | with one relevant document, ranked at i, the result is the first discount over that of i, and 0 below the cut |
| Ndcg.ComputeMrr | crowdsourced_learn_to_rank/ltr-benchmarking/local_experiment.py:163-178 | the reciprocal rank of the first relevant document in the top k, in [0, 1] |
| Bandit.PeerBandit.constructor | crowdsourced_learn_to_rank/ltr-benchmarking/mab.py:84-99 | flat statistics and empty tables for the given arms |
| Bandit.PeerBandit.NextLamport | crowdsourced_learn_to_rank/ltr-benchmarking/mab.py:183-186 | a stamp above all before |
| Bandit.PeerBandit.Update | crowdsourced_learn_to_rank/ltr-benchmarking/mab.py:265-271 | one more reward in the own statistics of one arm under a new stamp, for UCB1 and for Thompson (lines 355-361) |
| Bandit.PeerBandit.AddArm | crowdsourced_learn_to_rank/ltr-benchmarking/mab.py:149-154 | a new arm starts flat; a known one and an existing table stay |
| Bandit.PeerBandit.ApplyGossip | crowdsourced_learn_to_rank/ltr-benchmarking/mab.py:156-181 | accepts exactly a foreign message above the mark, which it moves, and replaces one entry |
| Bandit.EvictStale | crowdsourced_learn_to_rank/ltr-benchmarking/mab.py:121-125 | keeps exactly the entries received within the last 300 seconds and counts the others |
| Bandit.PeerBandit.EvictAllStale | crowdsourced_learn_to_rank/ltr-benchmarking/mab.py:191-200 | every table keeps its fresh entries; the count is the number dropped |
| Bandit.PeerBandit.AggregatePulls | crowdsourced_learn_to_rank/ltr-benchmarking/mab.py:138-147 | own plus fresh pulls, whatever the order of the table |
| Bandit.PeerBandit.AggregateUcb | crowdsourced_learn_to_rank/ltr-benchmarking/mab.py:212-224 | own plus fresh rewards and pulls |
| Bandit.PeerBandit.AggregateThompson | crowdsourced_learn_to_rank/ltr-benchmarking/mab.py:309-326 | one flat prior plus the evidence of all contributors |
| Bandit.PeerBandit.TotalPulls | crowdsourced_learn_to_rank/ltr-benchmarking/mab.py:127-136 | own and fresh pulls over all arms |
| Bandit.PeerBandit.ConfidenceBounds | crowdsourced_learn_to_rank/ltr-benchmarking/mab.py:279-287 | the bounds of the state, all of [0, 1] without pulls; for Thompson lines 369-376. What they say of the rewards drawn is `IntervalIsAroundRewards` |
| Bandit.PeerBandit.SelectUcb | crowdsourced_learn_to_rank/ltr-benchmarking/mab.py:234-263 | the first untried candidate, or else one of greatest index; fails only without candidates |
| Bandit.PeerBandit.ChoiceIsByEvidence | crowdsourced_learn_to_rank/ltr-benchmarking/mab.py:246-263 | of tried candidates none other has a greater mean and bonus together, so at equal pulls none has more reward |
| Bandit.PeerBandit.SelectThompson | crowdsourced_learn_to_rank/ltr-benchmarking/mab.py:336-353 | the first untried candidate, or else the first of greatest draw from its posterior; fails only without candidates |
| Bandit.PeerBandit.SampleIsByEvidence | crowdsourced_learn_to_rank/ltr-benchmarking/mab.py:345-353 | the draws compared are those of Beta(1 + alpha evidence, 1 + beta evidence) |
| Bandit.PeerBandit.Select | crowdsourced_learn_to_rank/ltr-benchmarking/local_experiment.py:564-568 | selection by the rule of the peer's algorithm |
| Eviction.SameEvidenceSameAggregate | crowdsourced_learn_to_rank/ltr-benchmarking/mab.py:138-147 | states that differ in stale entries only have the same aggregates |
| Eviction.SameEvidenceSameTotal | crowdsourced_learn_to_rank/ltr-benchmarking/mab.py:127-136 | and the same total |
| Eviction.SameEvidenceSameBounds | crowdsourced_learn_to_rank/ltr-benchmarking/mab.py:279-287 | and the same intervals |
| Eviction.EvictedExactly | crowdsourced_learn_to_rank/ltr-benchmarking/mab.py:191-200 | an eviction keeps every table and in it exactly the entries of the last 300 seconds, as they are |
| Eviction.EvictionIsInvisible | crowdsourced_learn_to_rank/ltr-benchmarking/mab.py:191-200 | over any run with a monotone clock, evictions change nothing computed from then on |
| Eviction.RunKeepsMarks | crowdsourced_learn_to_rank/ltr-benchmarking/mab.py:169-172 | Lamport marks never fall, evictions included |
| Eviction.ReplayIsIgnored | crowdsourced_learn_to_rank/ltr-benchmarking/mab.py:156-181 | a message heard once is ignored ever after |
| GossipOrder.HighestStampWins | crowdsourced_learn_to_rank/ltr-benchmarking/mab.py:156-181 | after any deliveries, mark and entry of (sender, arm) are those of the highest stamp |
| GossipOrder.EntriesIgnoreOrder | crowdsourced_learn_to_rank/ltr-benchmarking/mab.py:156-181 | the same messages in any order and number leave the same marks and entries |
| GossipOrder.AggregatesIgnoreOrder | crowdsourced_learn_to_rank/ltr-benchmarking/mab.py:212-224 | and, nothing having expired, the same aggregates |
| GossipOrder.EvidenceIgnoresOrder | crowdsourced_learn_to_rank/ltr-benchmarking/mab.py:309-326 | pulls, rewards and both parts of the posterior are among these aggregates |
| Elimination.RetiresExactlyBeaten | crowdsourced_learn_to_rank/ltr-benchmarking/local_experiment.py:984-1012 | a check retires exactly the eligible arms whose interval is below that of some eligible arm |
| Elimination.BestStays | crowdsourced_learn_to_rank/ltr-benchmarking/local_experiment.py:1001-1010 | an active arm always remains |
| Elimination.GreatestMeanStays | crowdsourced_learn_to_rank/ltr-benchmarking/local_experiment.py:975-983 | with means in their intervals, no arm of greatest mean is retired |
| GossipNetwork.StepKeepsInv | crowdsourced_learn_to_rank/ltr-benchmarking/local_experiment.py:570-1043 | every step of the network (pull, send, deliver, evict, check, add, tick) keeps: own statistics are those of the rewards drawn, messages and entries are snapshots ordered by stamp, active and excluded partition the known arms |
| GossipNetwork.PullKeeps | crowdsourced_learn_to_rank/ltr-benchmarking/local_experiment.py:570-583 | drawing a reward keeps it |
| GossipNetwork.SendKeeps | crowdsourced_learn_to_rank/ltr-benchmarking/local_experiment.py:767-775 | sending a snapshot under a new stamp keeps it |
| GossipNetwork.DeliverKeeps | crowdsourced_learn_to_rank/ltr-benchmarking/local_experiment.py:843-866 | delivering any message ever sent keeps it |
| GossipNetwork.EvictKeeps | crowdsourced_learn_to_rank/ltr-benchmarking/mab.py:191-200 | evicting keeps it |
| GossipNetwork.CheckKeeps | crowdsourced_learn_to_rank/ltr-benchmarking/local_experiment.py:975-1020 | retiring arms keeps it |
| GossipNetwork.AddKeeps | crowdsourced_learn_to_rank/ltr-benchmarking/local_experiment.py:1031-1043 | adding an arm keeps it |
| GossipSafety.TableHoldsPastSnapshots | crowdsourced_learn_to_rank/ltr-benchmarking/local_experiment.py:767-775 | an entry is exactly what its sender had seen after some number of its own pulls |
| GossipSafety.NoOverCounting | crowdsourced_learn_to_rank/ltr-benchmarking/mab.py:138-147 | no peer aggregates more pulls of an arm than all peers have made |
| GossipSafety.EntriesNeverGoBack | crowdsourced_learn_to_rank/ltr-benchmarking/mab.py:169-180 | along any run the entry of (sender, arm) only moves to later snapshots, even across evictions |
| GossipSafety.StampsIdentifyMessages | crowdsourced_learn_to_rank/ltr-benchmarking/local_experiment.py:767-775 | in every reachable state sender, arm and stamp determine the message |
| GossipSafety.DeliveryOrderDoesNotMatter | crowdsourced_learn_to_rank/ltr-benchmarking/mab.py:156-181 | so in every reachable state the order and number of deliveries do not matter |
| GossipSafety.EvidenceIsConserved | crowdsourced_learn_to_rank/ltr-benchmarking/mab.py:212-224 | in every reachable state rewards lie between 0 and pulls, or alpha and beta beyond one prior add up to the pulls |
| GossipSafety.MeanInUnit | crowdsourced_learn_to_rank/ltr-benchmarking/mab.py:284-285 | means lie in [0, 1] |
| GossipSafety.BoundsAreBounds | crowdsourced_learn_to_rank/ltr-benchmarking/mab.py:279-287 | 0 <= LCB <= UCB <= 1 for any non-negative half-width |
| RewardEvidence.AggregatesAreRewards | crowdsourced_learn_to_rank/ltr-benchmarking/mab.py:212-224 | in every reachable state the aggregates are sums over the rewards of the peer's own log and of the prefixes the fresh entries are snapshots of: their number, and what they add up to; for Thompson lines 309-326 |
| RewardEvidence.CountedExist | crowdsourced_learn_to_rank/ltr-benchmarking/mab.py:138-147 | there always are such rewards |
| RewardEvidence.IntervalIsAroundRewards | crowdsourced_learn_to_rank/ltr-benchmarking/mab.py:279-287 | the interval lies around the share of these rewards, (won) / (pulls) for UCB1 and (1 + won) / (2 + pulls) for Thompson (lines 369-376), as far as the half-width within [0, 1] |
| RewardEvidence.AloneBoundsAreTheShare | crowdsourced_learn_to_rank/ltr-benchmarking/mab.py:279-287 | without fresh entries and half-width both bounds are the share of the peer's own rewards |
| RewardEvidence.TotalIsOfAllArms | crowdsourced_learn_to_rank/ltr-benchmarking/mab.py:127-136 | in every reachable state the total is the number of counted rewards of all arms |
| RewardEvidence.GreaterRewardNeverLowers | crowdsourced_learn_to_rank/ltr-benchmarking/mab.py:265-287 | of two rewards for one pull the greater never gives the lower bound, at either end |
| RewardEvidence.HeardCountsFor300Seconds | crowdsourced_learn_to_rank/ltr-benchmarking/mab.py:156-181 | what is accepted counts in place of the sender's last snapshot, for 300 seconds and no longer |
| RewardEvidence.HeardRewardsCount | crowdsourced_learn_to_rank/ltr-benchmarking/local_experiment.py:767-866 | in every reachable state: once a peer has sent its statistics of an arm and another one that knows the arm has received them, the other counts every reward the sender has drawn for it |
| GossipSafety.ChecksRetireExactlyBeaten | crowdsourced_learn_to_rank/ltr-benchmarking/local_experiment.py:975-1012 | in every reachable state a check moves exactly the beaten arms, in whatever order |
| GossipSafety.ExcludedExactlyWhen | crowdsourced_learn_to_rank/ltr-benchmarking/local_experiment.py:984-1012 | a check of a run excludes an active arm exactly when at least 10 pulls of it are counted and its interval is below that of another active arm with at least 10 |
| GossipSafety.ActiveNeverRunsOut | crowdsourced_learn_to_rank/ltr-benchmarking/local_experiment.py:1014-1020 | active and excluded partition the known arms and an active one remains |
| GossipSafety.GreatestMeanSurvives | crowdsourced_learn_to_rank/ltr-benchmarking/local_experiment.py:975-1012 | over whole runs, means covered at every check, an arm of greatest mean is never excluded |
| LtrCommunity.Community.SelectActiveArm | crowdsourced_learn_to_rank/ltr-benchmarking/local_experiment.py:564-568 | an active arm by the rule of the algorithm, none exactly without active arms |
| LtrCommunity.Community.ProcessQuery | crowdsourced_learn_to_rank/ltr-benchmarking/local_experiment.py:570-597 | the pull step of the network model for a selected arm; its three scores are added one by one to both totals, its score at 1 is the reward |
| LtrCommunity.Community.ResetRoundStats | crowdsourced_learn_to_rank/ltr-benchmarking/local_experiment.py:599-602 | the round totals start again, the others stay |
| LtrCommunity.Community.PickGossipArm | crowdsourced_learn_to_rank/ltr-benchmarking/local_experiment.py:723-735 | an active arm, none exactly without active arms |
| LtrCommunity.Community.PickRandomStranger | crowdsourced_learn_to_rank/ltr-benchmarking/local_experiment.py:737-749 | a connected peer, none exactly without connections |
| LtrCommunity.Community.SendGossip | crowdsourced_learn_to_rank/ltr-benchmarking/local_experiment.py:751-820 | the send step: the own statistics of an active arm as they are, under a new stamp, to a connected peer; without an arm, a peer or statistics nothing is sent and no stamp used |
| LtrCommunity.Community.OnGossip | crowdsourced_learn_to_rank/ltr-benchmarking/local_experiment.py:843-873 | the delivery step; an unknown named arm is left to discovery |
| LtrCommunity.Community.AddModel | crowdsourced_learn_to_rank/ltr-benchmarking/local_experiment.py:1031-1043 | the add step, for unknown arms with scores only |
| LtrCommunity.Community.FindEligible | crowdsourced_learn_to_rank/ltr-benchmarking/local_experiment.py:986-993 | exactly the active arms with enough pulls |
| LtrCommunity.Community.FindBest | crowdsourced_learn_to_rank/ltr-benchmarking/local_experiment.py:995-997 | an eligible arm of greatest lower bound |
| LtrCommunity.Community.ExcludeBeaten | crowdsourced_learn_to_rank/ltr-benchmarking/local_experiment.py:1002-1010 | moves exactly the arms below the best lower bound |
| LtrCommunity.Community.CheckExclusions | crowdsourced_learn_to_rank/ltr-benchmarking/local_experiment.py:975-1012 | the check step: what it returns is what it moved, for some best arm |
| LtrCommunity.SameWhicheverBest | crowdsourced_learn_to_rank/ltr-benchmarking/local_experiment.py:995-1012 | ties for the best arm make no difference to what is retired |
| Schema.ParentsComeFirst | democracy/network/object_type.py:6-16 | references point from higher object types to lower ones |
| Schema.InsertKeepsIntegrity | democracy/storage/sqlite_repository.py:69-163 | a successful insert keeps keys, references and uniqueness |
| Schema.InsertedExactly | democracy/storage/sqlite_repository.py:69-163 | a row goes in exactly when its id is free in its table, the row it refers to is there, and there is no vote of the voter on the target, campaign for the solution, or pledge of the outpoint to the campaign already |
| Schema.DeleteRemovesDescendants | democracy/storage/sqlite_repository.py:836-854 | deleting, cascading row by row, removes exactly the transitive descendants and keeps integrity |
| Schema.ReplaceKeepsIntegrity | democracy/storage/sqlite_repository.py:802-834 | a successful replacement, under a new id too, keeps integrity |
| Schema.VoteCountIsVoters | democracy/storage/sqlite_repository.py:283-312 | the reported count is the number of distinct voters |
| Repository.DemocracyRepository.Add | democracy/storage/sqlite_repository.py:460-490 | stores exactly what breaks no constraint and otherwise changes nothing and says why |
| Repository.DemocracyRepository.RecordVote | democracy/storage/sqlite_repository.py:520-537 | a second vote on a target is a result, a missing target an error |
| Repository.DemocracyRepository.ReplaceRow | democracy/storage/sqlite_repository.py:802-834 | replaces an existing row unless a new id is taken or left behind by references, or a reference is missing |
| Repository.DemocracyRepository.DeleteRow | democracy/storage/sqlite_repository.py:836-854 | removes the row and exactly its transitive descendants |
| Repository.DemocracyRepository.WithVotes | democracy/storage/sqlite_repository.py:314-347 | a row with the number of its distinct voters |
| Repository.RunKeepsIntegrity | democracy/storage/sqlite_repository.py:69-163 | every run of add, record, replace and delete keeps integrity |
| Repository.EveryRunIsSound | democracy/storage/sqlite_repository.py:69-163 | after every run every row's referenced row is there, ids are unique in a table, a voter has one vote on a target, a solution one campaign, a campaign one pledge of an outpoint, and counts are numbers of voters |
| GossipItems.CanonicalHolds | democracy/network/messages/gossip_messages.py:51-67 | the canonical list names the same objects, ascending by type and id |
| GossipItems.CanonicalizeItems | democracy/network/messages/gossip_messages.py:35-67 | removes duplicates and sorts |
| GossipItems.BatchGossipItems | democracy/network/messages/gossip_messages.py:115-137 | consecutive non-empty stretches of the canonical list, each of 79 items but the last of at most 79 |
| GossipItems.DecodesEncoding | democracy/network/messages/gossip_messages.py:140-222 | decoding an encoded list gives its canonical list |
| GossipItems.EncodingNamesObjects | democracy/network/messages/gossip_messages.py:140-164 | two lists have one encoding exactly when they name the same objects |
| GossipItems.DecodeGossipItems | democracy/network/messages/gossip_messages.py:167-222 | the shifting and masking loop computes the decoding, which `BlobDecodes` and `OtherBlobsAreEmpty` give by the bits |
| GossipItems.BatchFits | democracy/network/messages/gossip_messages.py:70-112 | a batch encodes to at most 1300 bytes |
| GossipLayout.BlobDecodes | democracy/network/messages/gossip_messages.py:167-222 | a blob whose bits are those of n items of 131, rounded up to bytes, decodes to what its n bit groups name in order, types 0 to 5 above 128 bits of id; other types are skipped |
| GossipLayout.NamedOnce | democracy/network/messages/gossip_messages.py:167-222 | the bits name one list only |
| GossipLayout.OtherBlobsAreEmpty | democracy/network/messages/gossip_messages.py:167-222 | a blob of any other size decodes to nothing |
| GossipLayout.EncodedSizes | democracy/network/messages/gossip_messages.py:70-80 | n different objects take 131 n bits, rounded up to bytes |
| GossipLayout.EncodedBits | democracy/network/messages/gossip_messages.py:140-164 | the bit groups of an encoding name the canonical list item by item, and spare bits are zero |
| GossipLayout.EncodedBitsIncrease | democracy/network/messages/gossip_messages.py:51-67 | the canonical order is that of these bits |
| GossipLayout.FullBatchesAreFull | democracy/network/messages/gossip_messages.py:98-137 | one more object in a full batch would exceed 1300 bytes |
| Replication.StoreRemoteOutcome | democracy/network/replication.py:119-137 | an object is stored exactly when it is new, its parent known and no constraint broken; a vote already cast is reported as present (lines 186-207) |
| Replication.DemocracyCommunity.LocalInventory | democracy/network/community.py:213-227 | references to exactly the stored objects |
| Replication.DemocracyCommunity.AnnounceFullInventory | democracy/network/community.py:144-154 | batches that make up the canonical inventory |
| Replication.DemocracyCommunity.OnIHave | democracy/network/community.py:323-353 | requests exactly the announced objects that are missing, in canonical order |
| Replication.DemocracyCommunity.OnIWant | democracy/network/community.py:356-373 | the stored ones of the requested objects, in the order requested |
| Replication.DemocracyCommunity.Receive | democracy/network/replication.py:119-137 | store and status of a received object; for votes lines 186-207 |
| Replication.DemocracyCommunity.HandleObject | democracy/network/community.py:375-419 | announces the object exactly when it was stored |
| Exchange.InOrderLands | democracy/network/replication.py:274-281 | objects sent in ascending order leave a store that depends on the two stores only |
| Exchange.ExchangeOutcome | democracy/network/community.py:213-248 | a complete in-order exchange, however batched, adds exactly the rows that land |
| Exchange.AnnouncingFirstIsTheSame | democracy/network/community.py:229-248 | announcing everything before anything is requested gives the same store |
| Exchange.OutOfOrderLoses | democracy/network/replication.py:119-137 | a solution that arrives before its issue is lost |
| Exchange.IssuesAndSolutionsArrive | democracy/network/community.py:323-419 | every issue and solution of A is then at B |
| Exchange.VoteIsThere | democracy/network/replication.py:186-207 | for every vote of A, B has a vote of the same voter on the same target |
| Exchange.ArrivesUnlessClashing | democracy/network/replication.py:119-137 | any row arrives exactly when its parent does and no other row of B claims its unique key |
| Exchange.CampaignsArrive | democracy/storage/sqlite_repository.py:132-146 | a campaign arrives exactly when B has no other for its solution |
| Exchange.PledgesArrive | democracy/storage/sqlite_repository.py:148-163 | a pledge arrives exactly when its campaign does and B has no other pledge of its outpoint |
| Exchange.ExchangeUnitesVotes | democracy/network/replication.py:186-207 | afterwards B knows exactly the votes either knew |
| Exchange.TwoWayExchangeEqualizesTallies | democracy/network/community.py:213-419 | after an exchange there and back both show the same tallies |
| Exchange.RepeatingChangesNothing | democracy/network/community.py:213-419 | an exchange repeated brings nothing that it did not bring the first time |
| Exchange.RivalsNeverMeet | democracy/storage/sqlite_repository.py:132-146 | rival campaigns for one solution stay apart over any number of exchanges there and back |
| Exchange.RivalsExist | democracy/storage/sqlite_repository.py:132-146 | two sound stores with such rivals |
| Exchange.WithoutConflictsUnion | democracy/network/community.py:213-419 | without uniqueness conflicts B ends with the union of both stores |
| ExchangeRun.CompleteExchange | democracy/network/community.py:323-419 | the handlers of both peers, driven in order, compute the exchange and its outcome |
| Dissemination.StepLowersMeasure | democracy/network/community.py:322-419 | every delivery stores something missing or lowers the weight in flight |
| Dissemination.ReactsExactly | democracy/network/community.py:322-419 | a stored object is announced once to every connected peer but the one it came from, one not stored to nobody; announcements are answered with the requested batches, requests with the stored ones of their objects |
| Dissemination.StepLowersPotential | democracy/network/community.py:322-419 | and so lowers one number by at least one |
| Dissemination.CascadeEnds | democracy/network/community.py:322-419 | no run of deliveries and losses is longer than that number at its start |
| Reach.PublishedHolds | democracy/network/community.py:250-274 | whatever else is under way, after the broadcast every connected peer is owed the object |
| Reach.DeliveryKeepsInv | democracy/network/community.py:322-419 | a delivery settles what is owed or passes it on |
| Reach.LossKeepsInv | democracy/network/community.py:322-419 | the loss of a message that is not about the object changes nothing of this |
| Reach.PublicationReachesAll | democracy/network/community.py:250-419 | when no message about the object was lost and none is under way any more, every peer connected by a path has the object, whatever else was and is exchanged |
| Reach.NewIssueIsPublished | democracy/network/community.py:250-274 | the broadcast of an issue to a connected peer, while another issue is on its way, is such a publication |
| Reach.NewIssuesAreWelcome | democracy/storage/sqlite_repository.py:79-88 | nothing can be in the way of a new issue |
| LaunchGraph.DoomedIffCycle | crowdsourced_learn_to_rank/ipv8/loader.py:173-183 | some launcher waits forever exactly when the waiting relation has a cycle |
| CommunityLoader.Loader.SetLauncher | crowdsourced_learn_to_rank/ipv8/loader.py:137-151 | a launcher that has launched is not replaced |
| CommunityLoader.Loader.Validated | crowdsourced_learn_to_rank/ipv8/loader.py:172-178 | true exactly when every dependency that is waited for has launched |
| CommunityLoader.Loader.LaunchOne | crowdsourced_learn_to_rank/ipv8/loader.py:201-227 | appends the overlay and sets the launched flag |
| CommunityLoader.PassesFitBudget | crowdsourced_learn_to_rank/ipv8/loader.py:167-169 | the passes a run can need fit n * n steps |
| CommunityLoader.PassesWithoutStuck | crowdsourced_learn_to_rank/ipv8/loader.py:167-169 | and n(n+1)/2 when nothing waits forever |
| CommunityLoader.FruitlessPassIsStuck | crowdsourced_learn_to_rank/ipv8/loader.py:168-182 | a pass that gains nothing leaves doomed launchers only |
| CommunityLoader.Outcome | crowdsourced_learn_to_rank/ipv8/loader.py:167-187 | how the loop can end: budget spent exactly on a cycle, everything launchable launched in order |
| CommunityLoader.Loader.Load | crowdsourced_learn_to_rank/ipv8/loader.py:162-187 | raises exactly on a cycle, naming exactly the launchers that wait forever; launches every other one that should launch once, after what it waits for, within n(n+1)/2 steps when acyclic |
| OpReturn.ExtractPayload | authentication/transaction_verification/base_verifier.py:164-257 | returns a payload exactly for OP_RETURN followed by one supported push and nothing else |
| OpReturn.PushesOnce | authentication/transaction_verification/base_verifier.py:164-257 | an accepted script has one form and one payload, and is its encoding |
| OpReturn.PushesAsBytes | authentication/transaction_verification/base_verifier.py:164-257 | the five accepted forms of script byte by byte, with the lengths each allows |
| OpReturn.MinimalExactly | authentication/transaction_verification/base_verifier.py:164-257 | an accepted script takes the fewest bytes exactly when its payload is too long for the shorter forms |
| OpReturn.AcceptsLongerForms | authentication/transaction_verification/base_verifier.py:166-222 | a script that is accepted and does not |
| OpReturn.ContainsCommitment | authentication/transaction_verification/base_verifier.py:126-162 | true exactly when some output pushes the non-empty commitment |
| Encodings.WireDetermines | democracy/funding/models.py:13-23 | fixed and length-prefixed fields of one format are determined by their bytes |
| Encodings.CanonicalBytesInjective | crowdsourced_learn_to_rank/ltr-benchmarking/local_experiment.py:259-301 | the signed bytes determine every field of a gossip message |
| Encodings.SignedExactly | crowdsourced_learn_to_rank/ltr-benchmarking/local_experiment.py:259-301 | a message can be signed exactly when its numbers and texts fit their fields |
| Encodings.SignedBytesInOrder | crowdsourced_learn_to_rank/ltr-benchmarking/local_experiment.py:259-301 | the signed bytes are the domain text, a zero byte, and the thirteen fields in this order |
| Encodings.SignedMeans | crowdsourced_learn_to_rank/ltr-benchmarking/local_experiment.py:284-300 | signed numbers are written in two's complement, highest byte first |
| Encodings.CommitmentPreimageInjective | democracy/funding/models.py:86-128 | for network ids of one length the hashed bytes determine network and campaign |
| Encodings.HashedExactly | democracy/funding/models.py:86-128 | there is a preimage exactly for a named network and an active campaign whose fields fit |
| Encodings.HashedBytesInOrder | democracy/funding/models.py:115-127 | it is the label text, the network id and the six fields in this order |
| Bytes.ByteAt | democracy/funding/models.py:23 | each byte of a number, the highest first; the lowest first in transactions |
| CommitmentSharing.SharedIsShareable | democracy/funding/models.py:117-126 | a preimage shared by two networks makes the shorter id a prefix of the longer one, by bytes of the stated kind |
| CommitmentSharing.ShareableIsShared | democracy/funding/models.py:117-126 | for every network id and all such bytes there are two campaigns with one preimage, their addresses plain ASCII unless the bytes reach the address |
| CommitmentSharing.NetworksShareExactly | democracy/funding/models.py:117-126 | two different network ids have campaigns, addresses being any bytes, with one preimage exactly when one continues the other with such bytes |
| PlainSharing.PlainNetworksShareExactly | democracy/funding/models.py:117-126 | two different network ids have campaigns with plain ASCII addresses and one preimage exactly when one continues the other with such bytes and these, where they reach the address, leave a plain one and a sum of two ASCII length fields |
| CommitmentSharing.NetworkIdsOfDifferentLengthsCollide | democracy/funding/models.py:117-126 | for every network id and every difference in length from 1 to 2^33 - 3 there is a longer id and two campaigns, their addresses plain ASCII, with one preimage |
| CommitmentSharing.LengthsAreSafeExactly | democracy/funding/models.py:86-128 | for network ids of two lengths the hashed bytes determine network and campaign exactly when the lengths are equal or differ by more than that |
| RequestCaches.IdentifierInjective | crowdsourced_learn_to_rank/ipv8/requestcache.py:386-387 | identifiers are equal for equal prefix and number only |
| RequestCaches.RunKeepsValid | crowdsourced_learn_to_rank/ipv8/requestcache.py:178-417 | in every reachable state the map holds exactly the caches with a live timer |
| RequestCaches.FateHasCause | crowdsourced_learn_to_rank/ipv8/requestcache.py:178-417 | a fate changes from pending only, and only by the event that names it |
| RequestCaches.FateIsForGood | crowdsourced_learn_to_rank/ipv8/requestcache.py:296-384 | what was popped, timed out or cleared stays so and never times out afterwards |
| RequestCaches.AcceptedHasOneFate | crowdsourced_learn_to_rank/ipv8/requestcache.py:178-417 | an accepted cache is ever after pending in the map, or has met exactly one end |
| RequestCaches.ShutDownExactlyWhen | crowdsourced_learn_to_rank/ipv8/requestcache.py:398-417 | over any run the cache is shut down exactly after a shutdown |
| RequestCaches.NothingAfterShutdown | crowdsourced_learn_to_rank/ipv8/requestcache.py:191-195 | after a shutdown no identifier is in use, no timer runs, nothing is pending, and no cache is ever taken in again |
| RequestCaches.AddedIsPending | crowdsourced_learn_to_rank/ipv8/requestcache.py:178-218 | over any run an added cache is pending afterwards, under its identifier and with a timer, exactly when there was no shutdown before and no pending cache has its prefix and number; otherwise nothing changes |
| RequestCaches.RequestCache.Add | crowdsourced_learn_to_rank/ipv8/requestcache.py:178-218 | accepts exactly when not shut down and the identifier is free |
| RequestCaches.RequestCache.Pop | crowdsourced_learn_to_rank/ipv8/requestcache.py:296-306 | returns the pending cache of the identifier and stops its timer |
| RequestCaches.RequestCache.OnTimeoutBegins | crowdsourced_learn_to_rank/ipv8/requestcache.py:361-375 | frees the identifier of a pending cache before its callback runs |
| RequestCaches.RequestCache.OnTimeoutEnds | crowdsourced_learn_to_rank/ipv8/requestcache.py:377-384 | drops the task after the callback |
| RequestCaches.RequestCache.Clear | crowdsourced_learn_to_rank/ipv8/requestcache.py:389-396 | calls off everything pending and leaves the cache open |
| RequestCaches.RequestCache.Shutdown | crowdsourced_learn_to_rank/ipv8/requestcache.py:398-417 | calls off everything pending and sets the flag by which `NothingAfterShutdown` refuses what comes later |
| RequestCaches.RequestCache.CancelPendingTask | crowdsourced_learn_to_rank/ipv8/taskmanager.py:218-230 | an active task is cancelled and forgotten; for an unknown name nothing happens |
| RequestCaches.RequestCache.CancelAllPendingTasks | crowdsourced_learn_to_rank/ipv8/taskmanager.py:232-239 | no task remains |

## Left out

- Floating point: rewards, means and half-widths are real numbers; rounding, `np.sqrt` and `np.log` are not modelled, the half-width and the exploration bonus being any functions of total and arm pulls, the gain of a label any increasing function and the discounts any positive nondecreasing sequence.
- Random draws: the Beta samples of Thompson's `select_arm` are any function of candidate and posterior with values in [0, 1]; how ties are broken and which peer and arm are gossiped is left open.
- Hash functions, signatures, PSBT finalization and the Bitcoin RPC: the bytes they work on are modelled, their answers are parameters.
- Text: hexadecimal strings are byte strings, texts in encodings their UTF-8 bytes; `int(x, 16)`, `bytes.fromhex` and stripping at character level are not modelled.
- Loader.Load: `should_launch` and `not_before` are taken as constant during a load, `_launch` as not raising, and `del_launcher` is not modelled.
- PeerBandit.ConfidenceBounds: a Thompson posterior with alpha + beta = 0, on which the code divides by zero, has mean 0; in no reachable state of the network does it occur.
- PeerBandit.ApplyGossip: statistics objects are values in maps; sharing of one object, as through `own_observation`, is not modelled.
- Community.ProcessQuery: the active arms are given in sorted order, and summaries for display are not modelled.
- Clock: each operation reads it once; the code reads it again for every arm.
- GossipNetwork: all peers run one algorithm, share one clock and draw rewards in [0, 1], which `NdcgInUnit` and `ComputeMrr` provide, and a peer's own message does not come back to it; the code's own guard compares the number of the receiving peer with the key hash of the sender and would not stop one.
- Downloads and seeding of models, discovery of unknown arms beyond their eventual addition, and `propose_model`, which adds an arm like `add_model`.
- ParseTransaction: a length of 2^63 or more, on which Python raises OverflowError, is the error for an early end of data.
- Serialize: byte-for-byte identity of a parsed string and its re-serialization does not hold, since longer count forms are accepted, and zero inputs are ambiguous in the format; `txid` and `serialize_without_witness` are not modelled.
- ComputeFundingStatus: the chain is one snapshot; validity of a pledge against it covers the UTXO, confirmations, value, finalized transaction, outputs and sequence.
- NdcgInUnit: gains that overflow the integer type of an array, and negative labels, on which the quotient can leave [0, 1], are not modelled.
- NetworksShareExactly: a payout address is any non-empty byte string, in `PlainNetworksShareExactly` plain ASCII. For addresses with other characters the exact condition lies between the two, which differ only for network ids that are longer by bytes reaching into the address.
- DemocracyRepository.Add: description texts stored by hash, dates, indexes and row mapping are not modelled; where a new row breaks both its primary key and a uniqueness constraint, the model reports the key.
- DemocracyRepository.RecordVote: a vote under a used id by a voter who has voted is an error in the model; which of the two SQLite reports is not fixed by the schema.
- Exchange: objects with the same id are taken to be the same wherever vote tallies or funding objects are compared, which `replace_issue` and `replace_solution` could break.
- CascadeEnds: connections do not change, and duplicated packets and the periodic announcement are not part of the cascade.
- PublicationReachesAll: applies to objects that no store has reason to refuse, the parent being known everywhere and no rival row existing, and to fixed connections.
- RequestCache.Add: futures, waiters, timeout overrides and the lock are not modelled, and every cache object is added once; a timer name registered again while its cancelled predecessor is winding up does not arise.
- Easy or foreign parts: IPv8 introductions, configuration, trackers, the user interface, health checks, faucets, plotting, and the superseded showcase.
