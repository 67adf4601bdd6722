# Evolife reputation simulation — a Dafny model

This project models the core of the Evolife "Patriot" simulation. In it, agents
learn how much to invest in a costly signal, and they build admired and despised
peer lists through triadic gossip. The model covers three parts of the Python code.

- **Trial-and-error learner** (`Ecology/Learner.py`). It has a bounded history of
  (feature snapshot, mean performance) records. Each learning step imitates adult
  neighbours, then explores around the best remembered value of each feature. That
  value is found by distance-weighted smoothing.
- **Patriot individual and population** (`Other/Patriot/Patriot.py`):
  - quality recalibration;
  - signal quantization and its once-per-season cache;
  - signalling cost;
  - the `Interact` gossip protocol;
  - `assessment`;
  - the all-pairs encounter schedule of `interactions`;
  - the `Dump` of agents sorted by quality;
  - the construction of the quantization levels from `LevelBase`.
- **Social scheduler** (`Other/SocialNetwork/SocialSimulation.py`):
  - population creation;
  - neighbourhoods;
  - feature and friend-distance averages;
  - the season start;
  - the split into groups;
  - the learning pass;
  - `One_Run`.

The model is purely functional. An agent is its index in the population sequence,
and that index is also its identity number. Every random draw is an explicit
parameter: `random()`, `randint`, `shuffle`, `sample`, and the answer of the
friendship probe. Numbers are exact reals, and Python's integer `//` and `int()`
truncation are written out.

Files and modules:

| file | module | contents |
|---|---|---|
| `wrappers.dfy` | `Wrappers` | `Option` |
| `num.dfy` | `Num` | sums, means, argmax/argmin, truncation, rounding to two decimals, powers, counting |
| `global.dfy` | `Global` | the `Global` helpers of Learner.py: `Closer`, `Perturbate`, `Limitate`, `Decrease` |
| `memory.dfy` | `Memory` | the bounded history (`LimitedMemory`) as Learner.py uses it |
| `ledger.dfy` | `Ledger` | the bounded scored peer list (`Friend(MaxFriends)`) as Patriot.py uses it |
| `learner.dfy` | `Learner` | the `Learner` class |
| `individual.dfy` | `Individual` | the agent record, quality, quantization, `reinit`, `Colour`, `SignallingCost` |
| `patriot.dfy` | `Patriot` | `Interact`, `assessment`, Patriot `Reset` |
| `sorting.dfy` | `Sorting` | Python's stable `sorted(..., key=...)` |
| `population.dfy` | `Population` | Patriot `interactions(group)`, `Dump`, the `Levels` construction |
| `social.dfy` | `Social` | `Social_Population`: creation, neighbours, averages, seasons, groups, learning, runs |

Two behaviours of the code are worth stating up front:

- **Reciprocity polarity.** In Patriot.py:152-159 a partner whose friendship probe
  (`F_follow`, which consults its friendship list) accepts `self` admires `self`
  when `self` signals more, and a partner that refuses `self` despises it when
  `self` signals less. `Patriot.Reciprocity` and `Patriot.Judge` state this rule.
- **Age range.** `Learns` increments the age after the rebirth test
  (Learner.py:155-156), so an agent can be AgeMax + 1 until its next learning step.
  `Learner.Learns` states `1 <= age <= AgeMax + 1`.

## Model

| member | source | states |
|---|---|---|
| `Global.Closer` | Evolife/Ecology/Learner.py:33 | For an attractiveness in [0, 100] the result lies between x and the target. Attractiveness 0 gives x, 100 gives the target, and x == target is a fixed point. |
| `Global.Perturbate` | Evolife/Ecology/Learner.py:35 | For a draw in [0, 1) the result stays within |Amplitude| of x. A zero amplitude leaves x unchanged. |
| `Global.Limitate` | Evolife/Ecology/Learner.py:37 | The result is in [Min, Max] when Min <= Max. A value already inside is unchanged. The result is always x, Min or Max. |
| `Global.Decrease` | Evolife/Ecology/Learner.py:39 | Never below MinY. Equals max(MinY, 100) at x = 0 and MinY at x = MaxX. At most 100 for x >= 0 when MaxX > 0 and MinY <= 100. |
| `Global.DecreaseMonotone` | Evolife/Ecology/Learner.py:39 | With MaxX > 0 and MinY <= 100 the function is non-increasing in x. |
| `Memory.Reset` | Evolife/Ecology/Learner.py:79 | Resetting the history empties it and keeps its capacity. |
| `Memory.Push` | Evolife/Ecology/Learner.py:161 | Pushing keeps at most `capacity` records. The new record is the last one, the oldest is dropped when full, and no other record appears. |
| `Memory.PushAllKeepsMostRecent` | Evolife/Ecology/Learner.py:59 | A history of span c, fed any sequence, holds exactly the last min(c, n) items, in order. |
| `Ledger.Detach` | Evolife/Other/Patriot/Patriot.py:80-82 | `detach`/`forgetAll` leave a valid, empty ledger of the same capacity. |
| `Ledger.Follow` | Evolife/Other/Patriot/Patriot.py:135 | Stays valid: no peer twice, never above capacity. An admitted offer is present afterwards; an offer not admitted changes nothing. Only the offered entry can be new. Another peer's entry is lost only from a full ledger, and only if its score was lowest. |
| `Ledger.FullLedgerRejectsLowScore` | Evolife/Other/Patriot/Patriot.py:135 | A full ledger ignores a newcomer that does not beat its lowest score. |
| `Ledger.FollowAll` | Evolife/Other/Patriot/Patriot.py:59 | After any sequence of `follow` calls the ledger is valid and within its MaxFriends capacity. |
| `Ledger.BestFriend` | Evolife/Other/Patriot/Patriot.py:130 | None exactly for an empty ledger. Otherwise a listed peer whose score is maximal. |
| `Ledger.BestFriendListed` | Evolife/Other/Patriot/Patriot.py:173-174 | The best friend is always one of the listed peers. |
| `Learner.NewLearner` | Evolife/Ecology/Learner.py:55-70 | A new learner is valid, with the requested features, an age in [0, AgeMax] and an empty history and performance list. |
| `Learner.Reset` | Evolife/Ecology/Learner.py:72-79 | A newborn has age 0, otherwise the age draw in [0, AgeMax]. Features are fresh draws in [0, 100], or 100 * Start for a non-newborn with a Start value. The history is emptied and keeps its capacity. |
| `Learner.Limitate` | Evolife/Ecology/Learner.py:88-90 | Clamped: the result is within bounds and unchanged inside them. Toric: the result is in [0, Top) and unchanged inside it. |
| `Learner.AdultValues` | Evolife/Ecology/Learner.py:96-98 | Empty exactly when no model is adult. Every value is the feature of some adult model. |
| `Learner.Imitate` | Evolife/Ecology/Learner.py:93-101 | Unchanged without adult models or with strength 0. Otherwise it lies between the current value and the adults' mean, and reaches the mean at strength 100. |
| `Learner.BestRecord` | Evolife/Ecology/Learner.py:104-117 | None exactly for an empty history, and the only record when there is one. Otherwise a record of maximal performance. With `second`, a record other than the best whose performance is maximal among the rest. |
| `Learner.SmoothStep` | Evolife/Ecology/Learner.py:126-128 | One smoothing update lies between the two performances. At distance 0 it is their average. |
| `Learner.SmoothWithin` | Evolife/Ecology/Learner.py:123-129 | Smoothing a performance against the whole history never leaves the range of the performances involved. |
| `Learner.BuildTableLast` | Evolife/Ecology/Learner.py:129 | In the dictionary `Best`, each key holds the score written by its last occurrence. |
| `Learner.BuildTableWitness` | Evolife/Ecology/Learner.py:129 | Every key of `Best` is the value of some record that is the last one carrying it. |
| `Learner.BestKey` | Evolife/Ecology/Learner.py:130 | `max(Best, key=Best.get)` returns a value whose last smoothed score is maximal among all last scores. |
| `Learner.BestFeatureRecord` | Evolife/Ecology/Learner.py:119-130 | None exactly for an empty history. Otherwise a remembered value of the feature whose smoothed score is maximal among all remembered values. |
| `Learner.AvgRecord` | Evolife/Ecology/Learner.py:132-135 | The mean `sum/len` of the remembered performances (`IsMeanOf`: result times count equals the sum), 0 for an empty history, and between the lowest and highest of them. |
| `Learner.Loser` | Evolife/Ecology/Learner.py:137-139 | True exactly when the history is full and no remembered performance is positive. |
| `Learner.ExploreTarget` | Evolife/Ecology/Learner.py:144-146 | The target is within bounds, or in [0, Top) when toric. When clamped and the best value is within bounds, the target is within `Speed` of that best value. |
| `Learner.Explore` | Evolife/Ecology/Learner.py:141-147 | Conservatism 0 gives the rounded target and 100 the rounded current value. In between, the result lies between target and current value up to rounding. It stays within whole-hundredth bounds that held the current value. |
| `Learner.Rebirth` | Evolife/Ecology/Learner.py:155 | Past AgeMax the learner is reset as a newborn, otherwise unchanged. Validity and feature count are kept. |
| `Learner.LearningSpeed` | Evolife/Ecology/Learner.py:171-175 | A jump draw forces Top. Otherwise the speed is the given one, except for a child in a hot phase, whose speed is at least the given one and at most 100. |
| `Learner.ChildSpeed` | Evolife/Ecology/Learner.py:172-173 | A child's damped speed is at least the base speed and at most 100. Being a child of age >= 1 implies a positive Infancy, so the division is defined. |
| `Learner.Pushed` | Evolife/Ecology/Learner.py:155-161 | After the rebirth test, age increment and push, the learner is valid with a non-empty history. |
| `Learner.ImitateAll` | Evolife/Ecology/Learner.py:167-168 | At strength 0, or when no neighbour is adult, the features are unchanged. With a strength in [0, 100], each feature with adult models lies between its old value and the mean of their values for that feature. |
| `Learner.ImitationWithin` | Evolife/Ecology/Learner.py:167-168 | With strength in [0, 100], imitation keeps every feature within any bounds that hold the learner and all its neighbours. |
| `Learner.ExploreAll` | Evolife/Ecology/Learner.py:177-179 | Every feature is explored with its own draw. With clamping and whole-hundredth bounds, bounded features stay bounded. |
| `Learner.Learns` | Evolife/Ecology/Learner.py:150-183 | The result is valid with age in [1, AgeMax + 1], one more than after rebirth. Performance is cleared. The newest record is the pre-learning features with the mean of the accumulated points (0 if none). Learning happens exactly when the new age is not 1, and a non-learning step keeps the features. |
| `Learner.NoImitationIgnoresNeighbours` | Evolife/Ecology/Learner.py:167-168 | With ImitationStrength 0, the neighbours have no influence on the step. |
| `Learner.LearnsStaysWithinBounds` | Evolife/Ecology/Learner.py:150-183 | With clamping, percentages in [0, 100] and whole-hundredth bounds, features stay within [Bottom, Top] when the reborn learner and its neighbours were within them. |
| `Learner.Wins` | Evolife/Ecology/Learner.py:185-187 | The points are appended to the performance list; nothing else changes. |
| `Learner.SingleWinIsRecorded` | Evolife/Ecology/Learner.py:158-161 | A learner that won x once since its last step records exactly x as its newest performance. |
| `Individual.BaseQuality` | Evolife/Other/SocialNetwork/SocialSimulation.py:82 | For identity numbers below maxQuality, quality lies in [0, 100), and it is 0 for identity 0. |
| `Individual.BaseQualityIncreasing` | Evolife/Other/SocialNetwork/SocialSimulation.py:82 | Base quality strictly increases with the identity number. |
| `Individual.PatriotQuality` | Evolife/Other/Patriot/Patriot.py:66-68 | Recalibrated quality lies in [BottomCompetence, 100], equals BottomCompetence for identity 0, and is always 100 when BottomCompetence is 100. |
| `Individual.PatriotQualityMonotone` | Evolife/Other/Patriot/Patriot.py:66-68 | Recalibrated quality never decreases with the identity number. |
| `Individual.Quantize` | Evolife/Other/Patriot/Patriot.py:103-107 | Never above the signal. The result is a level, 0, or a negative signal itself. Below every level it is the negative signal or 0. |
| `Individual.QuantizeIdempotent` | Evolife/Other/Patriot/Patriot.py:103-107 | Quantizing twice equals quantizing once, for any levels. |
| `Individual.QuantizeLargestLevel` | Evolife/Other/Patriot/Patriot.py:105-106 | With ascending levels, a signal reaching some level is quantized to a level at least as high. |
| `Individual.CurrentSignal` | Evolife/Other/Patriot/Patriot.py:109-114 | Returns the cached value if any. Otherwise the quantized Signal feature, never above it. |
| `Individual.Cache` | Evolife/Other/Patriot/Patriot.py:111-113 | `Signal()` stores the season's signal, and only that. |
| `Individual.SignalStable` | Evolife/Other/Patriot/Patriot.py:111-114 | Once cached, the signal stays fixed whatever the learner becomes. |
| `Individual.Reinit` | Evolife/Other/Patriot/Patriot.py:77-87 | Points, outrages and the signal cache are cleared. Policing becomes (feature / 100)^4, in [0, 1] for features in [0, 100]. Ledgers are emptied exactly under EraseNetwork and keep their capacities. Quality and learner are unchanged. |
| `Individual.ReinitValid` | Evolife/Other/Patriot/Patriot.py:77-87 | `reinit` keeps an agent valid. |
| `Individual.SocialReinit` | Evolife/Other/SocialNetwork/SocialSimulation.py:98-101 | Points are cleared and friendships are erased exactly under EraseNetwork; nothing else changes. |
| `Individual.Colour` | Evolife/Other/Patriot/Patriot.py:89-90 | The colour index is in [22, 27]: 27 for policing below 0.2, 22 from policing 1 on. |
| `Individual.SignallingCost` | Evolife/Other/Patriot/Patriot.py:116-119 | Zero for a zero signal, and non-negative when the coefficients and the signal are. |
| `Patriot.Denounce` | Evolife/Other/Patriot/Patriot.py:133-135 | The partner despises the named peer, scored by minus its signal, only if the peer signals less than the partner. Otherwise the ledger is unchanged. |
| `Patriot.Praise` | Evolife/Other/Patriot/Patriot.py:140-142 | The partner admires the named peer, scored by its signal, only if the peer signals more than the partner. Otherwise the ledger is unchanged. |
| `Patriot.Gossip` | Evolife/Other/Patriot/Patriot.py:128-142 | Gossip happens exactly when policing fires and self despises someone. Praise happens only after such a denunciation. Without gossip the partner's opinions are unchanged, and self never enters them this way. |
| `Patriot.Reciprocity` | Evolife/Other/Patriot/Patriot.py:152-159 | Probe accepted: self may only be admired, and only if it signals more than the partner. Probe refused: self may only be despised, and only if it signals less. Equal signals change nothing. |
| `Patriot.Judge` | Evolife/Other/Patriot/Patriot.py:143-161 | The interaction happens exactly after gossip or a visibility draw below Visibility. New admired entries signal more than the partner and new despised entries signal less, scored ± their signal. Self enters them only through the probe's verdict. |
| `Patriot.Interact` | Evolife/Other/Patriot/Patriot.py:121-161 | Only the partner's opinion ledgers and signal caches change, and the population stays valid. Cached signals keep their values, and both parties' signals are fixed for the season. |
| `Patriot.Reward` | Evolife/Other/Patriot/Patriot.py:179 | Every listed friend gains the bonus once; nobody else changes. |
| `Patriot.Bump` | Evolife/Other/Patriot/Patriot.py:175-178 | Only the named peer gains the points, plus one outrage when requested. |
| `Patriot.AssessedPoints` | Evolife/Other/Patriot/Patriot.py:165-167 | The settled points are `int()` of points minus signalling cost plus the policing term: a whole number within 1 of that value and no further from 0, so it truncates toward zero. |
| `Patriot.Assess` | Evolife/Other/Patriot/Patriot.py:163-179 | Self's points are settled and its signal cached. The most admired peer gains AdmirationImpact. The most despised peer gains ContemptImpact and an outrage. Every friend gains FriendshipImpact. Learners and qualities are unchanged and the population stays valid. |
| `Patriot.Reset` | Evolife/Other/Patriot/Patriot.py:71-75 | The learner is reset and friendships forgotten, then `reinit` runs: points, outrages and cache cleared, policing recomputed, and the opinion ledgers erased exactly under EraseNetwork. |
| `Patriot.ResetValid` | Evolife/Other/Patriot/Patriot.py:71-75 | A reset agent remains a valid agent of its population. |
| `Population.Partners` | Evolife/Other/Patriot/Patriot.py:204-206 | A player addresses only other members, never itself. |
| `Population.Round` | Evolife/Other/Patriot/Patriot.py:203-206 | One encounter pairs only distinct members of the shuffled group. |
| `Population.CountSchedule` | Evolife/Other/Patriot/Patriot.py:201-206 | Over NbInteractions shuffled encounters, x addresses y once per encounter per copy of each, and never itself. |
| `Population.MeetsOncePerEncounter` | Evolife/Other/Patriot/Patriot.py:201-206 | In a group of distinct agents, each ordered pair of distinct members meets exactly once per encounter, and no other pair ever meets. |
| `Population.Interactions` | Evolife/Other/Patriot/Patriot.py:203-206 | Along any schedule, only caches and the opinions of addressed agents change. Every speaker and listener ends with its signal cached. |
| `Population.GroupInteractions` | Evolife/Other/Patriot/Patriot.py:197-206 | Only group members' opinions change. With at least one encounter, every member of a group of two or more has its signal fixed. |
| `Population.MembersSpeak` | Evolife/Other/Patriot/Patriot.py:201-206 | With an encounter, each member of a group of two or more speaks at least once. |
| `Population.AgentRow` | Evolife/Other/Patriot/Patriot.py:227-231 | A row is keyed by quality. A feature slot gives the feature value. For an adult with a best friend the distance slot holds the whole part of the absolute quality gap to that friend, as `"%d"` prints it; everyone else gets a blank. |
| `Population.SelectPartition` | Evolife/Other/Patriot/Patriot.py:228-229 | The two complementary comprehensions together are a permutation of the agents' rows. |
| `Population.UnsortedRows` | Evolife/Other/Patriot/Patriot.py:227-231 | The rows before sorting are a permutation of one row per agent. |
| `Population.DumpRows` | Evolife/Other/Patriot/Patriot.py:228-232 | The dumped rows are sorted by quality and are a permutation of the agents' rows; `Population.DumpRowsStable` states that ties keep their order. |
| `Population.DumpRowsStable` | Evolife/Other/Patriot/Patriot.py:228-232 | Rows of equal quality keep their order in the unsorted list, so measured rows come before blank ones, through `Sorting.SortByStable`. |
| `Population.Dump` | Evolife/Other/Patriot/Patriot.py:223-232 | The slot name, then one cell per agent in quality order. |
| `Population.FeatureDumpInPopulationOrder` | Evolife/Other/Patriot/Patriot.py:231-232 | When qualities already increase along the population, a feature dump lists the agents in population order, since the sort is stable. |
| `Population.DumpHoldsEveryAgent` | Evolife/Other/Patriot/Patriot.py:227-232 | Every agent's row is in the dump, and every dumped row is some agent's. |
| `Sorting.SortBy` | Evolife/Other/Patriot/Patriot.py:232 | `sorted(D, key=...)` is ordered by key and is a permutation of its input. It is stable for every input, as `Sorting.InsertFilter` and `Sorting.SortByStable` prove. |
| `Sorting.InsertFilter` | Evolife/Other/Patriot/Patriot.py:232 | Inserting an element puts it after every earlier element of the same key: the elements of each key keep their order, and the new one comes last among them. |
| `Sorting.SortByStable` | Evolife/Other/Patriot/Patriot.py:232 | For every key value, the sorted output lists the elements with that key in their input order. |
| `Sorting.SortBySorted` | Evolife/Other/Patriot/Patriot.py:232 | Sorting input already in key order returns it unchanged, so ties keep their order. |
| `Sorting.SortByMembers` | Evolife/Other/Patriot/Patriot.py:247 | The sorted sequence has exactly the input's elements. |
| `Population.LevelsAsWritten` | Evolife/Other/Patriot/Patriot.py:242-250 | The source's construction yields SignalLevels levels. |
| `Population.LevelsAsWrittenAboveRange` | Evolife/Other/Patriot/Patriot.py:246-248 | As written, a negative base with an odd number of levels puts every level above 90. |
| `Population.LevelsAsWrittenSilenceSignals` | Evolife/Other/Patriot/Patriot.py:246-248 | Consequently every signal in [0, 90] is quantized to 0. |
| `Population.LevelsAsWrittenExample` | Evolife/Other/Patriot/Patriot.py:246-248 | B = -2, SLN = 3 gives levels 112.5, 135 and 180, and a signal of 70 displays as 0. |
| `Population.EvenLevelCountsAgree` | Evolife/Other/Patriot/Patriot.py:246-248 | With an even number of levels the written and corrected constructions coincide. |
| `Population.Levels` | Evolife/Other/Patriot/Patriot.py:242-250 | The corrected construction also yields SignalLevels levels. |
| `Population.LevelsWithin` | Evolife/Other/Patriot/Patriot.py:242-250 | The corrected levels are ascending and lie in [0, 90] for every integer base. |
| `Population.GeometricLevelsWithin` | Evolife/Other/Patriot/Patriot.py:243-245 | For an integer B > 0 the levels ascend within [0, 90]. |
| `Population.EvenLevelsWithin` | Evolife/Other/Patriot/Patriot.py:249-250 | For B = 0 the evenly spaced levels ascend within [0, 90]. |
| `Population.LevelsExample` | Evolife/Other/Patriot/Patriot.py:246-248 | Corrected, B = -2 and SLN = 3 give levels 0, 45 and 67.5, and a signal of 70 displays as 67.5. |
| `Population.LevelsAreFixedPoints` | Evolife/Other/Patriot/Patriot.py:242-250 | Every corrected level is displayed as itself. |
| `Social.NewAgent` | Evolife/Other/Patriot/Patriot.py:55-69 | A new agent is valid, with recalibrated quality, empty ledgers, no points, no outrages, no cached signal, empty performance and age in [0, AgeMax]. |
| `Social.CreatePopulation` | Evolife/Other/SocialNetwork/SocialSimulation.py:126-135 | Agent k gets identity k and the quality recalibrated from k. The population is valid and starts with no points or performances. |
| `Social.CreatedByQuality` | Evolife/Other/SocialNetwork/SocialSimulation.py:130-131 | Creation order is non-decreasing quality order. |
| `Social.Neighbours` | Evolife/Other/SocialNetwork/SocialSimulation.py:139-143 | The neighbours are exactly the in-range agents just before and after, in increasing order, at most two. |
| `Social.NeighboursSymmetric` | Evolife/Other/SocialNetwork/SocialSimulation.py:139-143 | Being neighbours is symmetric. |
| `Social.NeighbourLearners` | Evolife/Other/SocialNetwork/SocialSimulation.py:198 | The imitation models are the neighbours' learners, in neighbour order. |
| `Social.FeatureAvg` | Evolife/Other/SocialNetwork/SocialSimulation.py:151-155 | The mean `sum/len` of the feature over the population (`IsMeanOf`: result times count equals the sum), 0 for an empty population, and between the lowest and highest value. |
| `Social.FeatureAvgWithin` | Evolife/Other/SocialNetwork/SocialSimulation.py:151-155 | The average of a feature bounded for every agent obeys the same bounds. |
| `Social.Friended` | Evolife/Other/SocialNetwork/SocialSimulation.py:159-161 | Exactly the agents that have a best friend (`if BF:`), each once, in increasing population order. |
| `Social.FriendGap` | Evolife/Other/SocialNetwork/SocialSimulation.py:160-161 | The gap of an agent with a best friend is the absolute difference between its quality and that friend's quality. |
| `Social.FriendGaps` | Evolife/Other/SocialNetwork/SocialSimulation.py:158-161 | One gap per agent that has a best friend, in population order (the agents listed by `Social.Friended`). Each gap is the absolute quality difference to that best friend. |
| `Social.FriendGapsBounds` | Evolife/Other/SocialNetwork/SocialSimulation.py:158-161 | Over the whole population the gaps are non-negative, absent exactly when nobody has a best friend, and at most 100 for qualities in [0, 100]. |
| `Social.FriendDistance` | Evolife/Other/SocialNetwork/SocialSimulation.py:157-163 | The result times the number of gaps equals their sum, so it is `sum(FD) / len(FD)` over the agents with a best friend. It is 0 when nobody has a best friend, non-negative, and at most 100 for qualities in [0, 100]. |
| `Social.SeasonInit` | Evolife/Other/SocialNetwork/SocialSimulation.py:180-181 | Every agent is reinitialised: points, outrages and caches cleared, policing recomputed, ledgers erased exactly under EraseNetwork, learners and qualities untouched. |
| `Social.SeasonInitIdempotent` | Evolife/Other/SocialNetwork/SocialSimulation.py:180-181 | A second season start changes nothing. |
| `Social.Groups` | Evolife/Other/SocialNetwork/SocialSimulation.py:216-222 | There are NbGroup groups, each of length `len(Pop) // NbGroup`. |
| `Social.GroupMemberPosition` | Evolife/Other/SocialNetwork/SocialSimulation.py:222 | Member i of group g is the agent at position g * GroupLength + i, before the first position no group covers. |
| `Social.GroupsPartition` | Evolife/Other/SocialNetwork/SocialSimulation.py:216-222 | With a duplicate-free order, no agent is in two groups or twice in one. |
| `Social.LeftOverInNoGroup` | Evolife/Other/SocialNetwork/SocialSimulation.py:216-222 | Agents past the last full group belong to no group. |
| `Social.RunOrder` | Evolife/Other/SocialNetwork/SocialSimulation.py:217-220 | Groups are cut from an order that lists every agent exactly once: the population order itself with one group, the shuffled order with several. |
| `Social.InteractGroups` | Evolife/Other/SocialNetwork/SocialSimulation.py:221-223 | The groups' interactions change only caches and the opinions of group members. |
| `Social.Season` | Evolife/Other/SocialNetwork/SocialSimulation.py:213-223 | The interaction phase keeps the population valid and leaves learners and qualities untouched. |
| `Social.SeasonChangesOnlyOpinions` | Evolife/Other/SocialNetwork/SocialSimulation.py:213-223 | Beyond the season start, only the opinions of agents in some group change. |
| `Social.LeftOversKeepOpinions` | Evolife/Other/SocialNetwork/SocialSimulation.py:216-223 | Agents left out of every group keep the opinions the season start gave them. |
| `Social.AgentLearns` | Evolife/Other/SocialNetwork/SocialSimulation.py:197-198 | A learning agent stays valid and keeps its quality, and records the mean of its performances. Up to AgeMax only its learner changes and it ages by one. Past AgeMax it is reborn: age 1, friends, points and cache cleared. |
| `Social.LearnsAs` | Evolife/Other/SocialNetwork/SocialSimulation.py:198 | The learning step changes only the learner. It records the mean performance against the reborn features and ages by one. |
| `Social.LearnTurn` | Evolife/Other/SocialNetwork/SocialSimulation.py:196-198 | An agent's turn (assessment, then learning if sampled) keeps qualities and everyone else's learner. A sampled agent is refreshed. |
| `Social.LearnIf` | Evolife/Other/SocialNetwork/SocialSimulation.py:197-198 | Only a sampled agent's learner changes, and it is refreshed. |
| `Social.LearnPass` | Evolife/Other/SocialNetwork/SocialSimulation.py:195-199 | After the first t turns, every agent not yet reached or not sampled keeps its learner, and every sampled agent reached is refreshed. |
| `Social.WinAll` | Evolife/Other/SocialNetwork/SocialSimulation.py:200-201 | Each agent appends its final points to its performance list. The rest of its learner and every other field are unchanged. |
| `Social.Learning` | Evolife/Other/SocialNetwork/SocialSimulation.py:191-201 | Learners and non-learners differ in their performance lists. A learner's list is exactly its final points, after its newest record took the mean of its previous list. A non-learner appends its points and keeps the rest of its learner. Qualities never change. |
| `Social.Run` | Evolife/Other/SocialNetwork/SocialSimulation.py:212-226 | One run keeps the population valid and qualities fixed. Agents not sampled keep their learner apart from the performance list. |
| `Social.Runs` | Evolife/Other/SocialNetwork/SocialSimulation.py:212-226 | Over any number of runs, an agent never sampled keeps its features, history and age. |
| `Social.OneRun` | Evolife/Other/SocialNetwork/SocialSimulation.py:203-229 | `One_Run` is NbRunPerYear runs: qualities never change, and an agent never sampled keeps its features, history and age. |

## Left out

- Display and observation: `Observer`, `Field_grid`, `update`, `display`, `positions`, `__str__`, `location`, `BestSignal`, the observer's `season()` and the windows. They only compute what is drawn on screen.
- `Start`, the batch and interactive launchers, `Global` and `Dump_` file writing, and `Params` loading are I/O. `Dump` is modelled up to its cells: the `"%2.03f"` and `"%d"` string formatting is not, and cells carry the numbers.
- Randomness: `random()`, `randint`, `shuffle` and `sample` are parameters. Their ranges are stated in the draw predicates; their distributions are not modelled.
- `ET.chances(LearningProbability, n)` sizes the learner sample. The model takes any set of learners.
- `hot_phase()` reads the observer's clock, so it is a boolean parameter.
- Floating point: all arithmetic is on exact reals. `round(x, 2)` is round-half-even on exact values. Float rounding error is not modelled.
- `Tools.py` (`LimitedMemory`) is not part of this model. `Memory` models only what Learner.py relies on: a capacity, `push` dropping the oldest record, `reset`, `last` and `complete`.
- `Alliances.py` (`Friend`, `Follower`) is not part of this model. `Ledger` models `follow`, `best_friend`, `names` and `detach` under an admission rule that is this model's own assumption about `Friend.follow`: a listed peer has its score updated, a new peer enters while there is room, and at full capacity it replaces the lowest-scored entry only if it scores strictly more. Entries keep insertion order, and among equal top scores the first listed peer is returned. The ranked re-sorting of the original, and its tie order, are not modelled.
- `F_follow(0, self, SSignal)`: its verdict is a parameter of each interaction. Any change it makes to the partner's friendship list is not modelled, so that list is only read and cleared. The friendship links themselves are therefore never created in the model.
- `ET.decrease(Quality, 100, CostDecrease)` lives in `Tools.py`. It is a function-valued configuration field, and `SignallingCost` assumes nothing about it beyond what its contract names.
- `Social_Population.SignalAvg` reads an attribute `SignalLevel` that no class here defines, and its only call is commented out. It is not modelled.
- `Social_Individual.Interact` and `assessment` are placeholders. `Social_Population.interactions` (random pairs via `sample`) and `Social_Individual.update` are overridden by Patriot. The model follows the Patriot versions.
- `Learner.feature`, `LimitedMemory_.__str__` and the local test block are accessors or printing.
- `Learner.Explore` requires a non-empty history. On an empty history the source would pass `None` to `Perturbate` and fail. `Learns` always pushes a record before exploring, so this never arises there.
- `Learner.Learns` takes the features as a sequence in the dictionary's key order (PolicingProbability, then Signal). Features are indexed by position, not name.
- `Population.LevelsWithin` takes `LevelBase` to be an integer. The source does not require one, and a fractional base breaks the bound: B = 0.5 with SignalLevels = 3 gives 360, 180 and 90 in the B > 0 branch. The defect in the B < 0 branch, which this lemma answers, is about integer bases.
- `Population.GeometricLevelsWithin` holds for an integer B > 0 only, for the same reason: a base in (0, 1) gives levels above 90.
- `Population.Levels` takes `LevelBase` as an integer; its three branches are otherwise as written.
- `Population.LevelsAsWritten` takes `LevelBase` as an integer; its three branches are as written.
- `Social.RunDrawsOk` requires `NbGroup >= 1`, and `nbGroup` is a `nat`. With `NbGroup = 0` the source stops at `len(self.Pop) // self.NbGroup` (SocialSimulation.py:216) with a ZeroDivisionError. With a negative `NbGroup`, `range(NbGroup)` is empty, so the source runs the season with no group interactions at all. The model covers neither configuration.
- `Learner.ParamsOk` excludes three configurations the source accepts:
  - `AgeMax < 0`: `randint(0, AgeMax)` raises a ValueError when a learner is built (Learner.py:73).
  - `LearningSimilarity <= -0.001`: at -0.001 the distance at Learner.py:126 divides by zero. Below it the distance is negative, so the update at Learner.py:128 is no longer a weighted average and can itself divide by zero.
  - `MemorySpan < 1`: the window's behaviour then depends on `LimitedMemory` in `Tools.py`, which is not part of this model.
- `Social.Run`'s contract leaves the performance-list facts to `Social.Learning`. It states validity, fixed qualities and unchanged non-learners, but not the per-agent performance lists, which `Social.Learning` states for the same step.

## Findings

| source | as written | input that shows it | evidently intended | confidence | as-written member | corrected member |
|---|---|---|---|---|---|---|
| Evolife/Other/Patriot/Patriot.py:247-248 | For `LevelBase` B < 0 each level is `90 - abs(B)**level * 90 / B**SignalLevels`. With an odd number of levels `B**SignalLevels` is negative, so every level lies above 90. Every signal in [0, 90] is then quantized to 0. | B = -2, SignalLevels = 3 gives levels 112.5, 135, 180, and a signal of 70 is displayed as 0. | Divide by `abs(B)**SignalLevels`, mirroring the B > 0 branch: levels 0, 45, 67.5 in [0, 90], with a signal of 70 displayed as 67.5. | medium; not executed | `Population.LevelsAsWrittenExample` | `Population.LevelsWithin` |

The as-written construction is `Population.LevelsAsWritten`. `Population.LevelsAsWrittenAboveRange` and `Population.LevelsAsWrittenSilenceSignals` prove the defect for every negative base with an odd level count. `Population.EvenLevelCountsAgree` shows the two constructions coincide for even counts. The corrected `Population.Levels` has ascending levels in [0, 90] (`Population.LevelsWithin`), each displayed as itself (`Population.LevelsAreFixedPoints`), and the example `Population.LevelsExample`.
