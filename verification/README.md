# Verification models of OFM's packet library and flow planner

Four parts of the repository that share no state are modelled here, each in a few small modules, with the
properties its callers rely on.

- **CRC engines** (`crc.hpp`). `Words` holds machine words as bit lists, lowest bit first. `CrcSpec` defines the
  register step, the division it performs and the checksum. `CrcTables`, `CrcBasics` and `CrcOptimals` are the lookup
  table and the two engines as classes, `CrcAugmented` is the augmented CRC, and `CrcPolynomials` says what all of them
  compute: remainders of polynomials over GF(2); `CrcMeaning` says what a checksum is, from the bytes alone. A word may
  be wider than the CRC, and what lies above the CRC's own bits is arbitrary until the end, as in the code.
- **Number printer and parser** (`lexical_cast.hpp`). `Decimal` defines numerals, their values and the grouping of
  digits by a locale. `NumberText` is the backward printer into a fixed buffer and the backward parser, whose products
  and sums wrap; `PrintedText` says what is printed and `NumberGrouping` what is accepted; `NumberStream` adds signs;
  `FloatScanner` is the digit loop of the floating-point parser.
- **Flow-migration planner** (`Algorithms/OFMAlgorithm`). `Combinations` and `CombinationLists` enumerate subsets,
  `Migration` moves flows between lists by index, `ScaleOutSearch` and `ScaleOutGreedy` choose flows for a new
  instance, `DelayCosts` says what a choice costs, `ScaleOutRelief` what the exhaustive search does for its source,
  `LoadBalance`, `LightLoads`, `BalancedPlans` and `BalanceOutcome` plan and account for load balancing, `LoadVariance`
  compares the loads before and after it, `BalanceRules` states the rules of a round, `LeftoverMove` follows one
  through, and `Planner` is the class that owns the instances. `Sorting` is the stable sort of the Java collections.
- **Event and packet library** (`shared/`). `PerflowKeys` and `FilterMatching` are flow keys, their JSON fields and the
  matching of packets; `PacketBuffers` and `EventFilters` are the linked lists; `PacketEvents` is what happens to one
  packet. `PacketProtocol` puts packet threads and the thread that releases a buffer together as a step system with
  explicit locks, `PacketRuns` says what holds in every run of it, `PacketFates` what becomes of a packet, and
  `PacketProgress` when a run comes to rest. `Framing` carries messages over a byte stream cut up anyhow, and
  `NibbleCodec` is the byte-per-nibble encoding of reprocessed packets.

`Basics` holds an option type, powers of two and the bits of numbers, `Distinctness` lists without repetition.

Inputs are handled as the code handles them: malformed text and messages, refused reads and missing filters have their
own results. Preconditions are the code's own: the recursion of `nchoosek` is without end exactly when the size is above
both one and the list's length, so `ScaleOutBest`, which asks for sizes up to five, needs five flows; the planner takes
an instance's id for its index and never clears its list of moves, so ids equal indices and the list is empty on entry;
load balancing starts from refreshed loads and rates that are not negative, and what is said of the source that the
exhaustive search relieves is for such rates too.

Where the code does not do what it is for, the exact condition is proved, and an input that meets it is followed
through:

- A flipped packet can be matched against a port the filter leaves open (`MatchesNamedOnly`, `WildcardRead`).
- Load balancing can send a flow to an instance above the mean and so spread the loads further (`AllLightExactly`,
  `LeftoverStays`, `VarianceRisesExactly`, `LeftoverSpreads`).
- The exhaustive search can leave its source overloaded. An overloaded source gives up at most one flow, so the sets of
  two to five are weighed for nothing, and it is relieved only if this flow alone is enough (`OneFlowChosen`,
  `RelievedExactly`, `StaysOverloaded`).
- A packet that is processed raises its filter's own event exactly for ids from 1 to 127 (`RaisesItsId`, `OtherEvents`).
- A release of packets that are taken for new ones need not end (`ComesToRest`, `ReleaseGoesOn`).
- A text of odd length is decoded past the end of its result (`InsideExactly`).
- A CRC step loses no information exactly for odd polynomials (`StepInjectiveIffOdd`).

## Model

| member | source | states |
|---|---|---|
| CrcBasics.CrcBasic.ProcessBlock | boost_1_54_0/boost/crc.hpp:727-797 | Bit by bit, with a mask and a conditional exclusive-or on a word of any width, the register takes in a block as the division of its bit stream prescribes, the bits of each byte reflected or not; the configuration is untouched. |
| CrcTables.CrcTable.InitTable | boost_1_54_0/boost/crc.hpp:489-536 | After the two nested loops each of the 256 entries, stored at the reflected index when the table is a reflected one, is the division of that byte alone, in the bit order of the engine that looks it up. |
| CrcTables.LookupIsEightSteps | boost_1_54_0/boost/crc.hpp:540-621 | Shifting the register and adding the entry at the computed index equals eight division steps on the byte's bits, in both layouts, for every width including those below 8, and whatever lies above the CRC's bits. |
| CrcAgreement.FeedBoth | boost_1_54_0/boost/crc.hpp:786-995 | A bitwise and a table-driven engine with equal configuration and register, in words of different width, report the same interim remainder and checksum after any message; from the initial remainder that checksum is the defined CRC.Whatever register they start from, that remainder and checksum are the ones that `CrcMeaning` reads off the message. |
| CrcOptimals.CrcOf | boost_1_54_0/boost/crc.hpp:1021-1040 | The free function returns the CRC of its buffer for every width, polynomial, initial remainder, final value and pair of reflection flags.`ChecksumExactly` says what that is. |
| CrcPolynomials.RegisterIsRemainder | boost_1_54_0/boost/crc.hpp:727-769 | A word is what the register ends with if and only if it is, as a polynomial over GF(2), a remainder of the shifted message plus the shifted initial value on division by the generator. |
| CrcMeaning.ChecksumExactly | boost_1_54_0/boost/crc.hpp:727-823 | A word is the checksum if and only if, with the final value taken off and the bits read from the other end when the remainder is reflected, it is the remainder of a polynomial read off the bytes: the last byte has the lowest exponents, its bits ascending or, reflected, descending, and the initial remainder stands before the first. |
| CrcMeaning.NothingIsZero | boost_1_54_0/boost/crc.hpp:798-823 | With all ones as initial and final value, the CRC of no bytes is zero. |
| CrcSpec.StepInjectiveIffOdd | boost_1_54_0/boost/crc.hpp:727-751 | No two registers step to the same one exactly when the truncated polynomial is odd. |
| CrcSpec.BurstDetected | boost_1_54_0/boost/crc.hpp:727-823 | With an odd polynomial, two messages of equal length that differ only within a window of at most as many stream bits as the CRC has never have equal checksums. |
| CrcAugmented.AugmentedCrc | boost_1_54_0/boost/crc.hpp:1043-1076 | The table-driven augmented loop computes the feeding of the message's bits at the low end of the register, cut to the CRC's bits, although its words hold more. |
| CrcAugmented.FeedIsRemainder | boost_1_54_0/boost/crc.hpp:1043-1076 | It is the remainder of the message itself, with the initial value standing before it, not moved up. |
| CrcAugmented.AugmentedEqualsCrc | boost_1_54_0/boost/crc.hpp:1043-1076 | Followed by as many zero bytes as the CRC has, a message's augmented CRC is its unreflected CRC from a zero register, and for any initial remainder the CRC from that remainder flushed through. |
| CrcAugmented.AugmentedCheck | boost_1_54_0/boost/crc.hpp:1043-1076 | The augmented CRC of a message with a tail of the CRC's size is zero if and only if the tail is the message's CRC, most significant byte first. |
| NumberText.PutUnsigned | boost_1_54_0/boost/lexical_cast.hpp:796-873 | Written backwards from the end of the buffer, the text is the numeral with the locale's separators, it starts exactly its own length before the end, and nothing else in the buffer changes. |
| PrintedText.PrintedExactly | boost_1_54_0/boost/lexical_cast.hpp:796-873 | A text is the one printed if and only if, where the locale groups, each group from the last on holds as many digits as the grouping string says, the first group at least one and at most as many, with one separator between groups, and its digits are the numeral; where it does not, if it is the numeral. |
| PrintedText.Thousand | boost_1_54_0/boost/lexical_cast.hpp:796-873 | 1234 is printed as 1,234 in groups of three, and as 1234 in the classic locale. |
| PrintedText.DigitsAre | boost_1_54_0/boost/lexical_cast.hpp:796-858 | The ten digits stand for their values. |
| NumberText.PrintedFits | boost_1_54_0/boost/lexical_cast.hpp:562-600 | No number that fits the type prints longer than one more than twice the type's guaranteed digits, however the locale groups. |
| NumberText.Digits10Largest | boost_1_54_0/boost/lexical_cast.hpp:583-596 | The number of digits guaranteed by a type is the largest for which every number of so many digits fits. |
| NumberText.SourceLengthExactly | boost_1_54_0/boost/lexical_cast.hpp:583-596 | The buffer for a type holds twice its guaranteed digits, one character more, and one for a sign. |
| Decimal.SeparatorsRemoved | boost_1_54_0/boost/lexical_cast.hpp:819-858 | Taking the separators out of a grouped number leaves its plain numeral, for any grouping string, its zero and negative entries included. |
| Decimal.NumeralUnique | boost_1_54_0/boost/lexical_cast.hpp:796-858 | A text of digits is the printed numeral of its value if and only if it has no superfluous leading zero. |
| NumberText.RetUnsigned | boost_1_54_0/boost/lexical_cast.hpp:875-983 | The parser succeeds if and only if the locale's reading of the text gives digits whose value fits the type, and then returns that value, although every product and sum wraps and overflow is noticed only afterwards. |
| NumberGrouping.GroupedExactly | boost_1_54_0/boost/lexical_cast.hpp:912-983 | In a locale that groups, exactly the texts are read whose groups, from the last one on, have the sizes of the grouping string, a size counted down as a signed char to zero, and whose first group is any non-empty text of digits; they are read without their separators. |
| NumberGrouping.DigitsExactly | boost_1_54_0/boost/lexical_cast.hpp:875-983 | In any locale, those texts where it groups and the plain digit texts where it does not, each not empty, are what the parser reads. |
| NumberStream.LexicalStream.ShlSigned | boost_1_54_0/boost/lexical_cast.hpp:1624-1635 | In a buffer of the length computed for the type, every signed number is printed with its sign, the most negative one included. |
| PrintedText.SignExactly | boost_1_54_0/boost/lexical_cast.hpp:1624-1635 | A minus sign stands before negative numbers, and no sign before others. |
| NumberStream.LexicalStream.ShrSigned | boost_1_54_0/boost/lexical_cast.hpp:1934-1965 | Exactly the texts that denote a number from the least to the greatest of the signed type are accepted, and give that number. |
| NumberStream.LexicalStream.ShrUnsigned | boost_1_54_0/boost/lexical_cast.hpp:1907-1932 | Exactly the texts whose magnitude fits are accepted; a minus sign gives the number modulo the type's range. |
| NumberGrouping.SignRead | boost_1_54_0/boost/lexical_cast.hpp:1907-1965 | One sign at the front is read, either of them; a minus sign negates the number of the digits behind it. |
| NumberStream.PrintedDenotes | boost_1_54_0/boost/lexical_cast.hpp:796-983 | In every locale whose separator is not a digit, the text printed for a number denotes that number under the parser's reading. |
| NumberStream.SignedThereAndBack | boost_1_54_0/boost/lexical_cast.hpp:1624-1965 | Printing and then parsing a signed number gives it back, through a buffer of exactly the computed length. |
| NumberStream.UnsignedThereAndBack | boost_1_54_0/boost/lexical_cast.hpp:1818-1932 | The same for unsigned numbers. |
| FloatScanner.ScanDigits | boost_1_54_0/boost/lexical_cast.hpp:1230-1361 | In the classic locale the loop accepts exactly the well-formed texts and stops at their end or exponent mark, with a mantissa below the modulus that holds the leading digits, the number of digits left off, and a full mantissa only when one more digit could not fit. |
| FloatScanner.AcceptedExactly | boost_1_54_0/boost/lexical_cast.hpp:1230-1361 | A text of digits, perhaps a point and more digits, and a rest is well formed if and only if the rest is empty or starts with e or E, there is a point or a digit before it, and it is not a point alone. |
| FloatScanner.WrittenExactly | boost_1_54_0/boost/lexical_cast.hpp:1230-1361 | The number written is that of all its digits divided by ten for each behind the point. |
| FloatScanner.MantissaBrackets | boost_1_54_0/boost/lexical_cast.hpp:1230-1361 | Mantissa times the power of ten is at most the number written, which is below mantissa plus one times that power; it is equal while the mantissa is not full. |
| CombinationLists.Nchoosek | Algorithms/OFMAlgorithm/Algorithms.java:504-531 | It terminates and returns the combinations in order as different lists, so that extending the results of a recursive call in place changes no other result and not the source. |
| Combinations.EnumeratesChoices | Algorithms/OFMAlgorithm/Algorithms.java:504-531 | The combinations of k positions below n contain exactly the increasing choices of k positions below n. |
| Combinations.EnumeratesOnce | Algorithms/OFMAlgorithm/Algorithms.java:504-531 | No choice is listed twice. |
| Combinations.EnumerationSize | Algorithms/OFMAlgorithm/Algorithms.java:504-531 | There are as many combinations as the binomial coefficient says. |
| Combinations.EnumerationOrder | Algorithms/OFMAlgorithm/Algorithms.java:504-531 | They stand in order of their last positions, the greater first, then of those before, and at last of their first position, the smaller first. |
| Migration.MovesSelected | Algorithms/OFMAlgorithm/Algorithms.java:33-45 | Carried out by descending index, the moves take from each list exactly the flows that stood at the planned indices before any move, and append each to its destination, also when an instance is source and destination or a move stays within one list. |
| Migration.MoveAllConserves | Algorithms/OFMAlgorithm/Algorithms.java:33-45 | Whatever the moves are, the flows of all instances together and their total rate stay the same. |
| Instances.VnfInfo.Refresh | Algorithms/OFMAlgorithm/VNFinfo.java:24-31 | The cached load and flow count agree with the flow list afterwards. |
| Instances.LoadExactly | Algorithms/OFMAlgorithm/VNFinfo.java:24-31 | A load is the rate of all flows together as a part of 103324. |
| Planner.Algorithms.MigrateTotal | Algorithms/OFMAlgorithm/Algorithms.java:33-45 | The instances' lists are those after the moves of the plan sorted by index, every instance the plan names has exact caches, and the caches of all others are as they were. |
| ScaleOutSearch.BestIsCheapest | Algorithms/OFMAlgorithm/Algorithms.java:334-380 | Of all sets of one to five flows that pass the three coded tests, none costs less than the result, which is the cost of the chosen set, or the initial bound if no such set costs less than that.What a set costs is said by `CostExactly` and `CostAdds`. |
| DelayCosts.CostExactly | Algorithms/OFMAlgorithm/Algorithms.java:363-366 | A flow that is delayed beyond its service level costs its rate times how late it becomes, times the migration time and the penalty; any other costs nothing. |
| DelayCosts.CostAdds | Algorithms/OFMAlgorithm/Algorithms.java:363-366 | A set costs what its flows cost. |
| DelayCosts.LaterCostsMore | Algorithms/OFMAlgorithm/Algorithms.java:363-366 | Of two flows of equal rate the one that becomes later costs more. |
| DelayCosts.CostProportional | Algorithms/OFMAlgorithm/Algorithms.java:363-366 | The cost is proportional to the rate. |
| DelayCosts.BufferBinds | Algorithms/OFMAlgorithm/Algorithms.java:356-361 | With the safe load the buffer is large enough for up to 498 flows that move together, and for no more. |
| ScaleOutRelief.FeasibleExactly | Algorithms/OFMAlgorithm/Algorithms.java:334-380 | The three tests come to two: the load of the flows is below the safe load, and with the load of their source it is above. What stays at the source is not tested, and the buffer test never fails. |
| ScaleOutRelief.FeasibleWhenOverloaded | Algorithms/OFMAlgorithm/Algorithms.java:334-380 | So for a source above the safe load a set passes if and only if its own load is below it. |
| ScaleOutRelief.NeverRelieved | Algorithms/OFMAlgorithm/Algorithms.java:334-380 | From twice the safe load on, whatever set the search chooses leaves its source overloaded. |
| ScaleOutRelief.FreeExactly | Algorithms/OFMAlgorithm/Algorithms.java:334-380 | A flow passes the tests alone and costs nothing if and only if its share is below the safe load, and with the load of the source above it, and it carries nothing or may be delayed by the migration. |
| ScaleOutRelief.OneFlowChosen | Algorithms/OFMAlgorithm/Algorithms.java:334-380 | For a source above the safe load the sets of two to five flows change nothing: what is chosen is what was chosen among the single flows, at most one. |
| ScaleOutRelief.ChosenExactly | Algorithms/OFMAlgorithm/Algorithms.java:334-380 | A flow is what an overloaded source gives up if and only if it is the first of the cheapest among those whose share is below the safe load, and cheaper than the initial bound; nothing is given up if and only if there is none. |
| ScaleOutRelief.RelievedExactly | Algorithms/OFMAlgorithm/Algorithms.java:334-380 | For every load, the source is relieved if and only if it was not overloaded or the share of that one flow is enough. |
| ScaleOutRelief.FreeFlowChosen | Algorithms/OFMAlgorithm/Algorithms.java:334-380 | Whatever the load of the source, if some flow passes the tests at no cost the first such flow alone is chosen. |
| ScaleOutRelief.StaysOverloaded | Algorithms/OFMAlgorithm/Algorithms.java:334-380 | With one small flow that may be delayed and four large ones that may not, only the small one is moved and the source stays overloaded, although two large ones would pass the tests and relieve it. |
| ScaleOutRelief.LittleLateChosen | Algorithms/OFMAlgorithm/Algorithms.java:334-380 | Of five flows that all become late, the one that becomes so by 2.16 only is given up, at a cost of 2731968, although another sends less. |
| Planner.Algorithms.ScaleOutBest | Algorithms/OFMAlgorithm/Algorithms.java:334-380 | The cheapest set that passes the coded tests is what is moved to the newest instance, flow by flow as it stood on entry, and its cost is returned; it is at most one flow if the instance is overloaded, and relieves it exactly as `RelievedExactly` says.The cost is the sum over the chosen flows of rate times lateness times 42.16. |
| ScaleOutGreedy.PicksDescend | Algorithms/OFMAlgorithm/Algorithms.java:433-485 | No flow is picked twice, each pick has the greatest product of the flows not picked before, and the products of the picks do not increase. |
| ScaleOutGreedy.FinishedMoves | Algorithms/OFMAlgorithm/Algorithms.java:433-485 | Each pick has, of the flows left, the most rate times service level beyond 92.16, then the greatest rate, then the first place; each is made only while the instance is overloaded and the bounds are kept; what is moved keeps a load of 0.6 and the buffer, and either leaves less than that load or is one flow short of breaking a bound. |
| ScaleOutGreedy.OneFinishedRun | Algorithms/OFMAlgorithm/Algorithms.java:433-485 | The loop has no choice: for a list of flows there is one sequence of picks that follows the rules to their end. |
| Planner.Algorithms.ScaleOut | Algorithms/OFMAlgorithm/Algorithms.java:433-495 | The loop ends; each pick is the greatest left; what is moved keeps the load and buffer bounds and is all picks, the instance being no longer overloaded, or all but a last one that breaks a bound; it arrives at the newest instance, and the delay's cost is returned. |
| LoadBalance.GiveAwayMaximal | Algorithms/OFMAlgorithm/Algorithms.java:83-108 | A flow that may move but is not given away would take what stays below the mean. |
| BalanceRules.MayMoveExactly | Algorithms/OFMAlgorithm/Algorithms.java:87-94 | A flow may move if it was flagged before, or its service level is at least 92.16 and what it sends in 142.16 time units fits the buffer. |
| BalanceRules.RoundFollows | Algorithms/OFMAlgorithm/Algorithms.java:59-136 | Each instance above the mean has its flows sorted by rate, and gives them away from the last down whenever what stays is at least the mean; the moves stand by rate, then instance, then descending index; the others have their turns from the most loaded down, those of equal load by descending number; each takes from the last move down what keeps it below the mean and the one move that is due, and the last turn sends the rest to instance 0. |
| BalanceRules.FirstMove | Algorithms/OFMAlgorithm/Algorithms.java:110-136 | The flow of the smallest rate goes to a light instance, and to one with the greatest load among them. |
| Sorting.SortIsStable | Algorithms/OFMAlgorithm/Algorithms.java:96-113 | The sort orders by the key, and leaves elements of equal key as they stood. |
| LightLoads.AssignCounts | Algorithms/OFMAlgorithm/Algorithms.java:110-136 | Over all turns of the light instances, the counted load of every instance grows by the shares of the moves that go there, except that instance 0 is not charged for those that the last turn leaves over. |
| BalanceOutcome.RoundEvens | Algorithms/OFMAlgorithm/Algorithms.java:59-138 | After the moves, an instance that was above the mean keeps a part that carries at least the mean and of which no flow could go without falling below it, and nothing but uncounted moves is added to it; any other has kept its flows and passes the mean by at most its uncounted moves and one of the flows it was given. Uncounted moves go to instance 0 only, and only if a move is left over. |
| BalanceOutcome.AllLightExactly | Algorithms/OFMAlgorithm/Algorithms.java:110-136 | Every flow goes to an instance that was not above the mean if and only if instance 0 was not above it or the last light turn leaves no move over. |
| LeftoverMove.LeftoverStays | Algorithms/OFMAlgorithm/Algorithms.java:110-136 | From two loaded and two empty instances, a flow is sent to instance 0, which is above the mean, and one instance stays empty. |
| LoadVariance.VarianceFalls | Algorithms/OFMAlgorithm/Algorithms.java:59-144 | The variance of the loads as they are counted never rises, whatever is given away, taken or left over. |
| LoadVariance.CountedExactly | Algorithms/OFMAlgorithm/Algorithms.java:59-138 | Unless a move is left over, those are the loads that the instances have after the moves. |
| LoadVariance.VarianceSign | Algorithms/OFMAlgorithm/Algorithms.java:533-544 | The variance as the code computes it is never negative, and zero only for equal loads. |
| LoadVariance.RatioAtLeastOne | Algorithms/OFMAlgorithm/Algorithms.java:143-143 | The ratio of the variances is at least one, infinite if the loads have become even, and not a number if they were even before. |
| LoadVariance.VarianceRisesExactly | Algorithms/OFMAlgorithm/Algorithms.java:59-144 | The loads that come to be lie further apart than before if and only if what instance 0 takes uncounted pushes it away from the mean by more than the round is counted to have drawn the loads together. |
| LeftoverMove.LeftoverSpreads | Algorithms/OFMAlgorithm/Algorithms.java:59-144 | When a move is left over, the loads can be counted as nearer to each other and lie further apart. |
| Planner.Algorithms.LoadBalancingCheck | Algorithms/OFMAlgorithm/Algorithms.java:59-144 | The flows selected and their destinations are those of the two phases, every selected flow gets a destination and is moved there, flows and total rate are conserved, all caches are exact, the outcome is the one that `RoundEvens` and `AllLightExactly` state for every instance, and the ratio of the variances is returned, with what `RatioAtLeastOne`, `CountedExactly` and `VarianceRisesExactly` state.The round follows the rules that `RoundFollows` and `FirstMove` state. |
| PerflowKeys.ParseComposed | shared/SDMBNJson.c:13-160 | Parsing a composed key gives back its wildcards and all other fields, with zero in the wildcarded ones and in the flip flag when both ports are wildcards. |
| PerflowKeys.RoundTripExact | shared/SDMBNJson.c:13-160 | The key itself comes back if and only if its wildcarded fields are zero. |
| PerflowKeys.SameJson | shared/SDMBNJson.c:13-85 | Two keys have the same JSON object if and only if they agree in their wildcards and in everything not wildcarded. |
| PerflowKeys.ParsedExactly | shared/SDMBNJson.c:87-160 | Each field that is there is read into the part of the key with its name, cut to its width; one that is not leaves zero and a wildcard. |
| PerflowKeys.ComposedExactly | shared/SDMBNJson.c:13-85 | Each part of a key that is not a wildcard is written into the field with its name, a mask as a signed number. |
| FilterMatching.ShorterMask | shared/event.c:222-302 | A filter with a shorter mask matches at least as much. |
| FilterMatching.MatchesExactly | shared/event.c:222-302 | A filter matches if every part it names does: type and protocol are equal, addresses are equal but for the low bits the mask leaves off, and a port is the one named, or of a flipped packet the other one named. |
| FilterMatching.SameNetExactly | shared/event.c:237-262 | Under a mask of some length two addresses are the same if they are but for the low bits beyond it. |
| FilterMatching.FlipIgnoresDirection | shared/event.c:270-292 | A filter on both ports matches a flipped packet whichever end sent it. |
| FilterMatching.MatchingAgrees | shared/event.c:222-302 | Parsed filters that agree match the same packets, flipped ones too. |
| FilterMatching.NamedAgrees | shared/event.c:222-302 | The matching that reads no wildcarded field depends on nothing but what the key's JSON object says. |
| FilterMatching.MatchesNamedOnly | shared/event.c:222-302 | For every filter that can be received, the code's matching is the one that reads no wildcarded field, except exactly for a flipped packet with port 0 where the filter names another port alone and all else matches. |
| FilterMatching.WildcardRead | shared/event.c:270-292 | A filter on source port 80 alone matches a flipped packet from port 0. |
| EventFilters.FilterList.AddFilter | shared/event.c:47-72 | The new filter, with an empty buffer, stands before all others, which stay as they were. |
| EventFilters.FilterList.MatchesFilter | shared/event.c:222-302 | The search through the chain returns the newest filter that matches the packet, or none. |
| EventFilters.FilterList.RemoveFilter | shared/event.c:74-161 | The newest filter with the key leaves the chain and the others keep their order; everything it had queued, and what arrived while it was being emptied, has been handed on in order. |
| EventFilters.DisableUndoesEnable | shared/event.c:460-521 | A disable with an agreeing key takes out the newest filter and leaves the list as it was before the enable. |
| EventFilters.DisablePasses | shared/event.c:460-521 | A disable with a key that disagrees passes that filter by. |
| PacketBuffers.Drain | shared/event.c:86-132 | Whatever other threads append while a packet is handed on, as long as they append finitely often, the loop ends with head and tail null, and what was handed on is all that was queued or arrived, in order. |
| PacketEvents.EventAgent.Preprocess | shared/event.c:328-422 | The newest matching filter decides. A drop filter stops a packet that is not exempt, raises its event and lets the lock go; a buffer filter stops it and queues it last, unless it was injected, when it passes without an event; a process filter, and any for an exempt packet, lets it pass with the id put off as a signed char; without a filter it passes without an event. The lock stays held exactly if the packet passes. |
| PacketEvents.EventAgent.Postprocess | shared/event.c:424-431 | The event put off is raised if it is positive, and the lock is let go. |
| PacketEvents.RaisesItsId | shared/event.c:346-422 | A dropped packet raises exactly its filter's id; one whose event is put off does if and only if the id fits the positive half of a signed char; a queued one raises nothing. |
| PacketEvents.OtherEvents | shared/event.c:346-431 | A packet processed for id 128 raises nothing, and one for id 300 raises event 44. |
| PacketRuns.RunInv | shared/event.c:74-431 | In every interleaving of the threads that take packets on, among them the one for packets that the controller sends to be processed again, and of the thread that releases buffers and processes what it hands on, the locks are held by exactly one thread between taking and letting go, each buffer is first in first out, each decision is the one called for and logged once, each event is raised once in the order of the decisions, and each packet to be queued is queued once. |
| PacketRuns.OneInside | shared/event.c:328-431 | No two threads are between a preprocess that did not stop and its postprocess at once. |
| PacketRuns.ReleaseEndsEmpty | shared/event.c:86-132 | A release that can end has an empty queue, and everything buffered so far has been handed on, in the order in which the packets were decided. |
| PacketRuns.AtRest | shared/event.c:328-431 | When all threads are idle, each packet taken on has been decided once, all events called for have been raised in order, and each packet to be queued has been queued. |
| PacketRuns.EventOfDecision | shared/event.c:328-431 | In every run a drop raises exactly the filter's event, a process or exempt packet exactly that event if and only if the id is from 1 to 127, a packet to be buffered none, and a packet no filter matches none. |
| PacketFates.DecidesExactly | shared/event.c:328-422 | What a decision does to the thread, the lock, the events and the buffers, for each action, exemption and injection, for an action that is none of the three, and without a filter. |
| PacketFates.NeverPasses | shared/event.c:328-422 | In no run does a packet that a filter drops go on to processing. |
| PacketFates.AlwaysQueued | shared/event.c:328-422 | In every run a packet that a filter buffers, unless it was injected, is in that filter's queue or the one on its way there. |
| PacketFates.OnlyQueued | shared/event.c:328-422 | Nothing is in a filter's queue but packets, decided about as not injected, that this filter buffers. |
| PacketRuns.NoDeadlock | shared/event.c:74-431 | Unless everything is at rest, some step other than new work can be taken. |
| PacketProgress.StepLowers | shared/event.c:74-431 | Every step but the arrival of a packet, the start of a release, and the handing on of a packet that is processed again as a new one lowers a measure of the state. |
| PacketProgress.ComesToRest | shared/event.c:74-431 | From every moment of every run such steps lead to rest, no more of them than the measure: where released packets are handed on as injected, or not processed again, a release ends. |
| PacketProgress.QuietEnds | shared/event.c:74-431 | However they are chosen, no more of them can follow each other than the measure. |
| PacketProgress.ReleaseGoesOn | shared/event.c:86-132 | With any filter that buffers and one packet that is handed on as a new one, for any number of packet threads, there are runs of any length, after one arrival and one start, in which the release is still under way and the packet is queued again and again. |
| Framing.StreamIsFrames | shared/SDMBNConn.c:188-197 | In every run of any number of writers the stream is whole frames of the messages sent, and at most one more header. |
| Framing.NetworkOrder | shared/SDMBNConn.c:129-197 | The four bytes before a message are its length, most significant byte first. |
| Framing.ConnRead | shared/SDMBNConn.c:129-178 | However the reads are cut up, one message comes back and the stream is left at the next frame; a refused read gives no message. |
| Framing.SendAndReceive | shared/SDMBNConn.c:129-197 | What any writers have sent in any interleaving is what a reader gets, in order, for every way of cutting up the stream. |
| NibbleCodec.InsideExactly | shared/SDMBNCore.c:196-218 | Decoding never reads past the terminator of its text, and writes only inside its result if and only if the length of the text is even; otherwise exactly the last write is outside. |
| NibbleCodec.Decode | shared/SDMBNCore.c:181-218 | A text of even length gives its bytes; one of odd length the bytes of all but its last character, and then a byte of that character and the terminator, written just past the result. |
| NibbleCodec.DecodeEncoded | shared/SDMBNCore.c:142-218 | Decoding undoes encoding for every list of bytes. |
| NibbleCodec.EncodedDiffers | shared/SDMBNCore.c:157-179 | Different byte lists have different encodings. |
| NibbleCodec.EncodedAlphabet | shared/SDMBNCore.c:157-179 | The encoding is twice as long and uses the letters A to P only. |
| NibbleCodec.EncodedAt | shared/SDMBNCore.c:157-179 | Each byte is two letters, its lower half first, A for zero up to P for fifteen. |
| NibbleCodec.EncodeDecoded | shared/SDMBNCore.c:196-218 | Every even text over those letters is an encoding, of what it decodes to. |
| NibbleCodec.DecodedAt | shared/SDMBNCore.c:196-218 | Each byte is decoded from the two characters at its place. |
| NibbleCodec.DecodesExactly | shared/SDMBNCore.c:181-194 | Letters, digits and two signs stand for 0 to 63, and anything else is read as zero. |
| NibbleCodec.DecodedBit | shared/SDMBNCore.c:206-214 | A byte has the first character's bits, and from bit 4 on the second's as well. |
| NibbleCodec.HandleReprocess | shared/event.c:523-574 | A message without its key, header or packet is refused with an error that names what is known; a header or packet of odd length is written past its end, at its half; otherwise the decoded bytes are handed on, and the result is what processing wrote or -1. |
| NibbleCodec.Reprocessed | shared/event.c:433-574 | A packet sent as a reprocess event reaches processing with the same header and body. |

## Left out

- FloatScanner.ScanDigits: the classic locale only; thousands separators, a locale's own decimal point, the exponent's
  digits and the final scaling by a power are not modelled.
- PacketRuns.RunInv: filters are neither added nor removed during a run, so the window between the end of a release and
  the unlinking of its filter is not modelled, nor is the freeing of released entries.
- PacketRuns.NoDeadlock: threads are assumed to come back from processing a packet.
- NibbleCodec.Reprocessed: header and body are not empty; for an empty one the encoder returns a null pointer.
- NibbleCodec.HandleReprocess: what the program does after a write outside the result.
- Framing.ConnRead: a read returns at least one byte or an error. The end of the stream, on which the code loops,
  lengths of 2 to the power 30 or more, on which it aborts, partial writes and `conn_write` are not modelled.
- FilterMatching.CheckKey: mask lengths from 1 to 32, for which the code's shifts are defined.
- NumberText.RetUnsigned: types of eight bits or more, without the promotion of narrow types to signed int.
- Planner.Algorithms.ScaleOut: flows whose product exceeds the initial value of the scan; when only others are left the
  code can pick a flow a second time.
- Doubles are real numbers, so rounding is not modelled.
- The flow ids that moving assigns; `MigrateInfo` tuples as shared objects.
- `ScaleInCheck` (an external linear solver), `ScaleInRandom`, `ScaleOutRandom`, the dispatch in `ScaleOutCheck`, the
  CSV output and the main program.
- The string-stream paths of `lexical_cast`, infinities and not-a-number, character types other than char, and the
  selection of types at compile time in both Boost headers.
- Sockets, thread creation, discovery, configuration, statistics, timing, logging and memory reclamation in `shared/`;
  `read`, `write` and `process_packet` are steps or parameters.
- The representation of JSON objects, byte order and dotted addresses: an object is a record of optional fields, network
  order a constructor, address text a parsed value or malformed.
- `build_packet_key`: a packet arrives with its key, any flip flag included.
- `state.c`, `iptables-sdmbn/main.c` and the controller.
