# Proofs about lazyslice

lazyslice cuts a subset out of a Postgres database and masks the personal values in it
deterministically. This project models the parts of it that make that promise, in Dafny, and
proves what they keep. `dafny verify dfyconfig.toml` checks everything.

The classifier holds one mutable decision per column and rewrites it in passes. Its state is
a class, `Classifier.State`, whose methods run the passes in place; what a pass means is a
function of the decisions (`KeyPropagation`, `RaisingPasses`, `JoinPairing`,
`UnknownSweep`), and what all passes keep together is proved of those functions
(`SweepConvergence`, `ExemptionSpread`, `ClassifyRun`). Which columns a pass raises, and to
what, is read off the decisions it began with, both ways (`RaisedColumns`, `MaskedColumns`);
`KeyReasons` and `FinalReasons` say which columns must end masked and why any other one may.
The state `base()` leaves is arbitrary, but for the invariant that a confidence above none
has a category behind it. `PriorInputs` and `MaskRequests` put the `--mask` and `--unmask`
requests in front of the classifier and the fail-closed check behind it.

The generators are functions of a draw sequence: the values the digest's stream returns, in
order. A `Domain` is honest when the outputs over all draw sequences number at least that
many, when it is zero exactly if no cell can be masked, and when every output fits the
column; that is one predicate, `Columns.Honest`, and one theorem a generator
(`NameGenerators`, `NumberGenerators`, `TextGenerators`), over the word-list enumeration of
`Words`. `ExactDomains` proves the other half, that the figure is no lower than the number
of outputs, and `OutputShapes` and `TextShapes` what every output is. `ByteStream` has the
stream itself over an uninterpreted block function, and shows that its draws are unbiased
and do not depend on how reads are split.

The guard around a masker is `Passthrough` over the letters and digits of `Runes` (whose
decoder `Utf8` holds against the encoding), and `Vocabulary` the name gate behind the
redraw. `EventChannel` is the run's event channel as a state machine of atomic steps, with
every theorem about all reachable states or all runs. The readers and walks are `Literal`,
`Names`, `CompositeText`, `DomainText`, `CompositeNames`, `CompositeWalk`, `MaskJson` with
`MaskedLeaves`, and `LeafDrift`.

The search for a document field inside a composite type follows type names. `CompositeWalk`
has the search as it runs; `TypeCatalog` says what the types of a database hold, by identity
and not by name, and how the catalog shows them; `SearchTruth` proves when the two agree,
and `TypeMixups` gives databases where they do not.

Where a promise is not kept on all inputs the code stands as it is, and a lemma gives the
input and the condition: the capped sweeps (`CompositeKeyOutrunsTheCap` and
`KeyChildrenIff`, `DisagreeingParentsNeverSettle`), repeated labels
(`LabelCountIsHonestIffDistinct`), Unicode spaces at the ends of an unquoted literal field
(`ArrayRoundTripsIff`), a parenthesis in a composite type's own name
(`ParenthesisInTheNameMisleads`), a base type whose text holds a clause of CREATE DOMAIN
(`BaseIsReadIff`), types of one name in two schemas and other names the search for a
document field mixes up (`SecondAddressIsMissed`, `TwinIsMissed`, `SearchIsRightIff`), a
domain over a domain (`DeepDomainIsMistaken`, `SearchIsRightDeepIff`) and a run in which a
pinned column has no per-leaf map (`PinLastsIff`, where the comment in
`internal/classify/leafdrift.go:36-58` says a listed column's list always stands).

A name in an operator's flag, a composite type's definition and a literal are sequences of
Unicode scalar values; every delimiter in them is ASCII, so reading them byte by byte, as
the source does, splits them at the same places.

## Model

| member | source | states |
|---|---|---|
| KeyPropagation.QuietExitAgrees | internal/classify/classify.go:2731-2840 | A sweep loop that exits on a sweep that changed nothing leaves every edge in agreement: for a parent that overrides, the child is generated, opted out, noted as of a family that refuses the category, or holds the parent's category at no lower confidence and not exempt |
| KeyPropagation.QuietExitSharesExemption | internal/classify/classify.go:2662-2718 | A quiet exit of the exemption loop leaves no checked pair with an exempt-key parent and a masked scalar key-family child |
| KeyPropagation.PropagateRoundsMaskMore | internal/classify/classify.go:2740-2840 | Any number of propagation sweeps lowers no confidence, takes back no category, keeps every masked column masked, leaves opted-out columns and columns that are no pair's child untouched |
| KeyPropagation.ReconcileRoundsExemptOnly | internal/classify/classify.go:2671-2718 | The exemption loop changes a decision only by granting the key exemption to the child of a checked pair |
| KeyReasons.OnlyScalarKeysAreExempted | internal/classify/classify.go:2671-2718 | And only to a masked column of type integer, bigint or uuid that is no array |
| SweepConvergence.ForeignKeysConverges | internal/classify/classify.go:2731-2840 | Where each column is the child of at most one pair and no chain of pairs is longer than the number of keys, the capped len(FKs)+1 sweeps end on one that changed nothing, whatever the order of the keys, so every edge agrees |
| SweepConvergence.SingleColumnForeignKeysConverge | internal/classify/classify.go:2731-2840 | With single-column keys, acyclicity and one parent a child are enough, however deep the chain |
| SweepConvergence.KeyChildrenConverges | internal/classify/classify.go:2662-2718 | Whatever the order of the keys, cycles included: if no chain of column pairs is longer than the number of keys the exemption loop ends quietly, and if none is longer by more than one no exempt key is left with a masked scalar key-family child |
| SweepConvergence.SingleColumnChainsAreShort | internal/classify/classify.go:2662-2718 | Single-column keys always meet the first of those conditions, cycles included |
| SweepConvergence.LayeredChainsAreShort | internal/classify/classify.go:2662-2718 | So do keys, composite ones too, whose pairs can be ranked parent below child with no more ranks than keys |
| SweepConvergence.TheCapIsTight | internal/classify/classify.go:2662-2718 | Both thresholds are exact: down a chain of pairs taken child first the loop ends quietly if and only if the chain is no longer than the number of keys, and shares the exemption with all of it if and only if it is longer by at most one |
| SweepConvergence.CompositeKeyOutrunsTheCap | internal/classify/classify.go:2662-2718 | The shortest chain past the threshold: one composite self-referencing key with three pairs in a chain outruns the two sweeps and leaves a masked child of an exempt key |
| ExemptionSpread.KeyChildrenIff | internal/classify/classify.go:2662-2718 | For keys in the order given: the loop ends quietly whatever the decisions if and only if every chain of columns, run on its own, settles in as many sweeps; and leaves no exempt key with a masked scalar key-family child if and only if every chain settles in one more |
| ExemptionSpread.RoundsSpread | internal/classify/classify.go:2662-2718 | The loop over decisions is the spread of a set of columns, whatever else the decisions hold |
| SweepConvergence.DisagreeingParentsNeverSettle | internal/classify/classify.go:2719-2730 | A child of two undecided-by-others masked keys of different accepted categories is moved by every sweep, however many there are: only the cap stops the loop |
| JoinPairing.IndexHoldsCheckedPairs | internal/classify/classify.go:420-436 | The join index holds exactly the validated, non-virtual column pairs: both ways round in the partner lists and child to parent in the parent lists |
| JoinPairing.FkPairs | internal/classify/classify.go:2268-2340 | The breadth-first closure returns, without repeats, exactly the least set that holds the column's direct partners and is closed upward under parents, all of it raisable; or it names a member of every such closed set that may not be raised |
| UnknownSweep.VisitOnlySweeps | internal/classify/classify.go:2132-2439 | One column's visit changes nothing but sweeps and recorded refusals, settles that column's own fate, and sweeps no column outside every closed set of its joins |
| UnknownSweep.VisitKeepsParents | internal/classify/classify.go:2132-2309 | A visit keeps the invariant that every checked parent of a swept column is swept |
| UnknownSweep.VisitKeepsSweep | internal/classify/classify.go:2132-2212 | A visit keeps the whole sweep invariant: only sweeps since the start, each beside a certain person or joined to one that is, parents swept with their children, each refusal recorded for a column that every closed set of the joins needs and that cannot take part, and each visited column swept, spared, unique, refused aloud or no undecided character column to begin with |
| UnknownSweep.SweptIsFreeText | internal/classify/classify.go:2132-2439 | Whatever the sweep of a run marked had no signal at all (no category, no confidence, a character type of length two or more, no exemption, no type conflict, no two-letter codes) and becomes free text at the mask threshold; it was raised for a column beside a certain person that is neither spared nor unique, together with everything that column shares a checked pair with; and nothing else about any column changes but a refused partner |
| Classifier.State.IndexFKColumns | internal/classify/classify.go:420-436 | The two nested loops over the keys build exactly the index of all pairs |
| Classifier.State.ByteaInPersonShapedTable | internal/classify/classify.go:1887-1908 | The loops over tables and columns compute the pass function ByteaPassIff is about |
| Classifier.State.NeighbouringColumns | internal/classify/classify.go:1912-1981 | The pass, its likely-count per table and the guessed-phone pass after it, as the pass functions NeighbourPassIff and GuessedPhonesIff are about |
| Classifier.State.UnknownColumnsBesideCertain | internal/classify/classify.go:2132-2212 | At the end every validated parent of a swept column is itself swept; nothing is swept but for a certain neighbour and no partner is refused but for one (SweptIsFreeText says what a swept column becomes, MaskedBeforeKeysIff that it stands at the threshold); and every column of a person-shaped table is accounted for: no undecided character column, or swept, spared, kept by its unique index or refused with its partner |
| Classifier.State.KeyChildren | internal/classify/classify.go:2662-2718 | The in-place sweeps with their changed flag compute the rounds the convergence and agreement lemmas speak of |
| Classifier.State.ForeignKeys | internal/classify/classify.go:2731-2840 | The in-place propagation sweeps compute the rounds the convergence and agreement lemmas speak of |
| Classifier.State.SameColumnName | internal/classify/classify.go:2844-2897 | The collecting and the sharing loop compute the sharing function NamesAreSharedIff is about |
| Classifier.State.ApplyPrior | internal/classify/classify.go:2925-3058 | The pattern loop and the column loop fold the file in as the function OptOutsTakeEffectIff and FileRaises are about; drift is exactly the columns the file does not carry, and expired exactly the opt-outs it carries without a reason, or whose type fingerprint is neither the column's own nor left out by the flag |
| Classifier.State.Finalise | internal/classify/classify.go:3121-3156 | Every column of the order gets the decision its working state comes to under the threshold |
| Classifier.State.Conclude | internal/classify/classify.go:262-298 | Exemption, propagation, name sharing, the committed file, and propagation again when the file raised something, in that order |
| Classifier.State.Classify | internal/classify/classify.go:238-311 | From any state of base() with a category behind every confidence and no opt-out: every column found to mask before the keys (at the threshold itself, bytea beside a certain column, low beside a likely one, a guessed phone beside another likely one, swept, or without any signal beside a certain person and neither unique, spared nor refused) has masked set in the returned map, unless an opt-out with a reason and a matching fingerprint stands against it or it takes a checked pair's key exemption; masked is the threshold without exemption or opt-out, the other fields are the last state's; no confidence fell and no category was taken back |
| RaisingPasses.ByteaPassMasksMore | internal/classify/classify.go:1887-1908 | The pass only masks more, for all tables |
| RaisingPasses.NeighbourPassMasksMore | internal/classify/classify.go:1912-1981 | The pass only masks more, for all tables |
| RaisedColumns.ByteaPassIff | internal/classify/classify.go:1887-1908 | Exactly the bytea columns below the threshold, not exempt, in a table with a certain column come out as binary at the threshold; every other column is as before |
| RaisedColumns.NeighbourPassIff | internal/classify/classify.go:1912-1981 | Exactly the columns at low with a category their type does not contradict, in a table with a likely column, come out at the threshold in their own category |
| RaisedColumns.NeighbourPassNotes | internal/classify/classify.go:1912-1981 | Each column is left knowing whether another column of its table is likely, itself not counted |
| RaisedColumns.GuessedPhonesIff | internal/classify/classify.go:2544-2571 | Exactly the guessed phone columns below the threshold, without exemption or type conflict and with another likely column in their table, come out as phones at the threshold |
| MaskedColumns.NeighbouredIff | internal/classify/classify.go:1887-1981 | The decision the three passes leave on any column, read off the decisions they began with and the column's own table alone |
| MaskedColumns.MaskedBeforeKeysIff | internal/classify/classify.go:255-262 | Before the keys are propagated a column stands at the threshold without an exemption if and only if it did at base(), one of the three passes raises it, the sweep marked it, or it has no signal, sits beside a certain person and is neither unique, spared nor refused with its partner |
| MaskedColumns.RequiredEndMasked | internal/classify/classify.go:255-300 | And every such column is masked in what the call returns, unless an opt-out stands against it or it takes a key exemption |
| RaisingPasses.NamesakesAreEvidenced | internal/classify/classify.go:2844-2897 | Every category the sharing pass records for a name was recorded off an evidenced masked column of that name |
| RaisingPasses.ShareNamesMasksMore | internal/classify/classify.go:2844-2897 | The sharing pass only masks more |
| RaisedColumns.NamesakeIsTheFirst | internal/classify/classify.go:2844-2897 | A name is recorded if and only if some column of it is evidenced, and then with the category and the table of the first one |
| RaisedColumns.NamesAreSharedIff | internal/classify/classify.go:2844-2897 | A column takes the category of the first evidenced column of its name, at the threshold, exactly if that one is in another table, its own type accepts the category, it is below the threshold, corroborated by its name, without exemption or conflict, and has no other category |
| KeyReasons.PropagationIsExplained | internal/classify/classify.go:2731-2840 | However often the sweep runs: a column it changed refers to a masked key column, and was only noted as refusing, or took a category a masked key had at the start, one its type accepts, at a confidence some column had, every exemption gone; it was neither generated nor opted out |
| RaisingPasses.ApplyPriorTightens | internal/classify/classify.go:2925-3080 | For every committed file: no confidence falls, no category goes, and a masked column is unmasked only by an opt-out the file carries with a reason and the column's own type fingerprint, or none where the flag set it (the fields written out in Stands) |
| RaisingPasses.OptOutsTakeEffectIff | internal/classify/classify.go:2925-3080 | A column comes out opted out if and only if the file carries an opt-out for it with a reason and, unless the fingerprint is empty and the flag set it, the column's own type fingerprint |
| RaisingPasses.FileRaises | internal/classify/classify.go:2925-3080 | A column open to it comes out at least as certain as any pattern naming it or its own entry asks with a category its type accepts; and what the file raised has a category, no type conflict and no exemption |
| FinalReasons.FileRaisesOnlyAsAsked | internal/classify/classify.go:2925-3080 | And no other way: a decision the file moves was opted out, or stands at the confidence some entry naming the column asks, with the file as its source; otherwise only a category of the file's is noted |
| FinalReasons.FileRaisedIff | internal/classify/classify.go:2925-3080 | It reports a raise, which is what calls for the second propagation, exactly if it left some decision more certain than it found it |
| FinalReasons.FileLeavesTheRest | internal/classify/classify.go:2925-3080 | A column of which every entry asks no more than it has, and no opt-out stands, is left exactly as it was |
| ClassifyRun.PassesOnlyMaskMore | internal/classify/classify.go:255-300 | The monotonicity of all passes from the exemption to the last one before the threshold, composed |
| ClassifyRun.ConcludedNamesOptOuts | internal/classify/classify.go:2925-3080 | Whatever passes follow, an opted-out column still names the opt-out as its source |
| ClassifyRun.SettledIffRaised | internal/classify/classify.go:273-298 | Where foreignKeys always settles (one parent a child, and chains no longer than the number of keys or acyclic single-column keys) the second sweep ends quietly whenever it runs, so the two results after it hold of every run whose committed file raised something |
| ClassifyRun.MaskedKeyReachesItsChildren | internal/classify/classify.go:273-298 | After a quiet second sweep a masked key or unique column leaves a child unmasked only if the child is generated, opted out by name, or of a family that refuses the category |
| FinalReasons.ChildrenOfMaskedKeysEndMasked | internal/classify/classify.go:262-272 | Whether or not a file is given: after a quiet first sweep a child of a key masked once the exemptions are shared ends masked, unless it is generated, an opt-out stands, or its type refuses the key's category |
| FinalReasons.NamesakesEndMasked | internal/classify/classify.go:262-298 | A column that may take a namesake's category when the names are shared ends masked, unless an opt-out stands |
| FinalReasons.EveryLaterMaskHasAReason | internal/classify/classify.go:262-298 | A column not masked once the exemptions are shared that ends masked says why: it refers to a masked key, an evidenced column of another table has its name, or the file asks for the very confidence it has |
| FinalReasons.ChildOfAnExemptKeyIsCopied | internal/classify/classify.go:262-298 | After a quiet exemption loop a scalar key-family child of an exempt key ends masked only for one of those reasons |
| MaskRequests.UnmaskedChildren | internal/core/mask.go:330-352 | Returns exactly the columns some pair makes a child of the parent, with a decision, not generated, not masked and not opted out |
| MaskRequests.OnlyUnreachableChildrenAreNamed | internal/core/mask.go:330-352 | After a quiet post-prior sweep the children it returns for a masked parent are only those whose family refuses the category, or whose parent is neither key nor unique |
| PriorInputs.BuildPrior | internal/core/mask.go:82-186 | The flags are read only if every name resolves, every category is real, no column has two categories and none is named both ways, and are refused only if they are not; then each entry and each recorded request is the one Folded and RequestOf give |
| PriorInputs.FlagMeansWhatItSays | internal/core/mask.go:40-49 | In any reading a --mask flag names a column of the catalog and gives it free text in its bare form, or the category named, which is never none |
| PriorInputs.EveryRequestIsAnswered | internal/core/mask.go:82-177 | With the prior built this way, every requested column comes out of all the classifier's passes masked, never-mask, or of a type that refuses the asked category |
| PriorInputs.CheckMasks | internal/core/mask.go:232-302 | The refusals are exactly those the decisions, the baseline and the copied children call for |
| PriorInputs.AcceptedRunMasksEveryRequest | internal/core/mask.go:201-231 | A run the check lets pass masks every requested column, a flag's under the category it named and with the masker the column already had if it had one, and leaves none of its children to be copied in clear unless opted out or generated |
| PriorInputs.EveryReasonIsSo | internal/core/mask.go:232-302 | Each of the five reasons a request is refused for holds of the decisions and baseline given: the categories named are the ones there, and a child named is copied in clear |
| PriorInputs.TheReasonGivenIsTrue | internal/core/mask.go:261-275 | When the check says a column's type does not accept the category, it does not |
| PriorInputs.NoneIsBlamedOnTheType | internal/core/mask.go:261-275 | A committed mask record of the category none raises nothing on a column without a category and, whatever the type, is reported as a type that does not accept it |
| EventChannel.InvKept | internal/core/channel.go:42-142 | Every atomic step of senders, drain and closer keeps the invariant: writer excludes readers, no sender past the check once the flag is set, queue and sink hold the accepted events in order, drops and reports counted |
| EventChannel.NeverSendsOnClosed | internal/core/channel.go:110-143 | In no interleaving does a sender reach a send on the closed channel |
| EventChannel.SinkSeesTheQueueInOrder | internal/core/channel.go:68-95 | At every moment the sink has been handed a prefix of the accepted events, each once, and the bounded queue holds exactly the rest |
| EventChannel.OnlyProgressIsDropped | internal/core/channel.go:110-125 | A returned Send has queued its event, or dropped a Progress one, or saw close's flag: no other event that passed the closed check is lost (DroppedOnlyWhenFull says when a Progress one may be) |
| EventChannel.DroppedOnlyWhenFull | internal/core/channel.go:110-125 | In no run does the drop count rise but in a state whose queue holds all 256 events it has room for |
| EventChannel.SendWaitsOnlyForRoomOrClose | internal/core/channel.go:110-125 | In every reachable state a Send can go on, unless a close waits for its lock or holds it, or its event is no Progress one and all 256 places are taken |
| EventChannel.FewEventsAreAllKept | internal/core/channel.go:110-125 | So a run whose accepted and dropped events together number at most 256 has dropped none |
| EventChannel.CloseAccountsForEverything | internal/core/channel.go:129-143 | When any close call has returned, the sink has had every accepted event in order, accepted Progress equals delivered Progress plus drops, and a non-zero drop count was reported exactly once |
| EventChannel.FirstPanicIsKept | internal/core/channel.go:88-105 | Of all the panics a sink raised the first is the one kept |
| EventChannel.EarlierSendsComeFirst | internal/core/channel.go:110-125 | A Send that returned before another was called is queued before it, so one goroutine's events keep their order |
| EventChannel.SomethingCanMove | internal/core/channel.go:68-143 | While sink calls return, some step other than a new call is enabled until every Send and every close has returned: no deadlock |
| EventChannel.EveryRunSettles | internal/core/channel.go:68-143 | Without new calls a run has a bounded number of steps, and one that cannot go on has returned from every Send and close |
| Arith.SatMulGuard | mask/domain.go:16-24 | The overflow test by division is true exactly when the product passes the ceiling |
| Arith.SatPow | mask/domain.go:26-35 | The loop gives the power, or the ceiling once the power passes it |
| Words.NewWordList | mask/words.go:101-119 | The list is a permutation of the fields ordered by length, and fit[m] marks the prefix of words at most m long |
| Words.Holds | mask/vocab.go:131-143 | The binary search agrees with linear membership within the budget |
| Words.PairCount | mask/words.go:205-221 | The loop counts what PairAt enumerates |
| Words.PairAt | mask/words.go:225-244 | Below the count it returns the pair of that rank, and past it the first two words |
| Words.PairAtIsOneToOne | mask/words.go:205-244 | Every n below the count gives a pair that fits the budget with its separator, and n can be read back from the pair |
| Words.PairAtIsOnto | mask/words.go:205-244 | Every pair that fits is given by exactly the n that is its rank |
| Words.BranchesAgree | mask/words.go:205-244 | Where the wide branch applies, the narrow one would count and enumerate the same |
| Columns.LabelCountIsHonestIffDistinct | mask/domain.go:206-220 | For a closed column the reported label count is reached if and only if no label is repeated |
| NameGenerators.PersonNameIsHonest | mask/gen_text.go:56-99 | person_name: the distinct outputs over all draw sequences number at least Domain, Mask reports no room iff Domain is 0, and every output fits the column |
| ExactDomains.PersonNameDomainIsExact | mask/gen_text.go:56-99 | person_name: Domain is the number of distinct outputs, no more and no fewer |
| ExactDomains.PersonNameNeedsRoom | mask/gen_text.go:56-83 | It is zero unless four hundred names of the role fit, and a full name falls back on given names where no four hundred pairs do |
| OutputShapes.PersonNamesAreListed | mask/gen_text.go:12-99 | Every output is a capitalised listed name of the column's role, or one of each with a space between |
| NameGenerators.AddressIsHonest | mask/gen_text.go:118-165 | address: the distinct outputs over all draw sequences number at least Domain, Mask reports no room iff Domain is 0, and every output fits the column |
| ExactDomains.AddressDomainIsExact | mask/gen_text.go:118-165 | address: Domain is the number of distinct outputs, capped at the largest int64 |
| OutputShapes.AddressesAreListed | mask/gen_text.go:118-165 | Every output is a four-digit number, a listed street and a listed suffix; only where no street and suffix fit, a code of digits and capitals, seven or as many as there is room for |
| NameGenerators.EmailIsHonest | mask/gen_email.go:20-121 | email: the distinct outputs over all draw sequences number at least Domain, Mask reports no room iff Domain is 0, and every output fits the column (where they land, EmailsLandInReservedDomains) |
| ExactDomains.EmailDomainIsExact | mask/gen_email.go:20-121 | email: Domain is the number of distinct outputs, capped at the largest int64 |
| OutputShapes.EmailsLandInReservedDomains | mask/gen_email.go:40-121 | Every output is a local part at example.com, example.net or example.org and nowhere else; the local part is two listed names, under a unique index with thirteen base32 symbols, and symbols alone only where no two names fit |
| NumberGenerators.NationalIDIsHonest | mask/gen_number.go:39-66 | national_id: the distinct outputs over all draw sequences number at least Domain, Mask reports no room iff Domain is 0, and every output fits the column |
| ExactDomains.NationalIDDomainIsExact | mask/gen_number.go:39-66 | national_id: Domain is the number of distinct outputs, capped at the largest int64 |
| OutputShapes.NationalIDsAreNumbers | mask/gen_number.go:39-66 | Every output is digits with no leading zero, of the length a CHECK asks for or else at most nine |
| NumberGenerators.ComputeLuhn | mask/gen_number.go:109-124 | The loop from the right computes the digit LuhnValid is about |
| NumberGenerators.LuhnValid | mask/gen_number.go:109-124 | The body with its check digit passes the Luhn check, summed from the right |
| OutputShapes.LuhnReadsEitherWay | mask/gen_number.go:109-124 | That sum is the one read from the left, where every digit an even number of places from the end has the digits of its double added up |
| NumberGenerators.FinancialIsHonest | mask/gen_number.go:78-106 | financial_account: the distinct outputs over all draw sequences number at least Domain, Mask reports no room iff Domain is 0, and every output fits the column; and every output passes the Luhn check |
| ExactDomains.FinancialDomainIsExact | mask/gen_number.go:78-106 | financial_account: Domain is the number of distinct outputs, capped at the largest int64 |
| OutputShapes.AccountsPassTheCheck | mask/gen_number.go:78-124 | Every output is digits with no leading zero that pass the check read from the left, of the length a CHECK asks for or else at most sixteen, nine in an integer column |
| NumberGenerators.PhoneIsHonest | mask/gen_phone.go:38-95 | phone: the distinct outputs over all draw sequences number at least Domain, Mask reports no room iff Domain is 0, and every output fits the column |
| ExactDomains.PhoneDomainIsExact | mask/gen_phone.go:38-95 | phone: Domain is the number of distinct outputs |
| OutputShapes.PhonesAreFictional | mask/gen_phone.go:38-95 | Every output is a listed area code, 555, 01 and two digits, after +1, 1 or nothing as the column's type and room have it |
| NumberGenerators.PhoneUniqueIsHonest | mask/gen_phone.go:101-151 | phone_unique: the distinct outputs over all draw sequences number at least Domain, Mask reports no room iff Domain is 0, and every output fits the column |
| ExactDomains.PhoneUniqueDomainIsExact | mask/gen_phone.go:101-151 | phone_unique: Domain is the number of distinct outputs, capped at the largest int64 |
| OutputShapes.UniquePhonesAreE164Shaped | mask/gen_phone.go:101-151 | Every output is +1, or 1 in a numeric column, and twelve digits, fewer only where they do not fit; an integer column gets nine in all |
| NumberGenerators.CredentialIsHonest | mask/gen_credential.go:78-124 | credential_unique: the distinct outputs over all draw sequences number at least Domain, Mask reports no room iff Domain is 0, and every output fits the column |
| ExactDomains.CredentialDomainIsExact | mask/gen_credential.go:78-124 | credential_unique: Domain is the number of distinct outputs, capped at the largest int64 |
| OutputShapes.CredentialsSayTheyAreInvalid | mask/gen_credential.go:78-124 | Every output is lazyslice-invalid- and thirteen base32 symbols, or as many as there is room for |
| NumberGenerators.PersonDateIsHonest | mask/gen_number.go:146-180 | person_date, over any rendering of day numbers that is injective and of the expected width: the distinct outputs over all draw sequences number at least Domain, Mask reports no room iff Domain is 0, and every output fits the column |
| ExactDomains.PersonDateDomainIsExact | mask/gen_number.go:146-180 | person_date, over the same renderings: Domain is the number of distinct outputs |
| OutputShapes.DatesAreInTheSpan | mask/gen_number.go:146-180 | Every output is one of the 25568 days and, in a timestamp column alone, a time of day |
| NumberGenerators.GeoIsHonest | mask/gen_text.go:176-221 | geo, with the sign, padding and decimal places spelled out: the distinct outputs over all draw sequences number at least Domain, Mask reports no room iff Domain is 0, and every output fits the column |
| ExactDomains.GeoDomainIsExact | mask/gen_text.go:176-221 | geo: Domain is the number of distinct outputs |
| OutputShapes.PositionsAreOnTheGlobe | mask/gen_text.go:176-221 | Every output is the decimal text of a number between -90 and 90 with six places, or as many as leave room for the rest |
| TextGenerators.FillerFrom | mask/gen_text.go:389-403 | The builder loop returns exactly n bytes |
| TextGenerators.FillerAbout | mask/gen_text.go:411-431 | The result has at least n less the shortest word and at most the larger of n and the longest |
| TextGenerators.FillersDiffer | mask/gen_text.go:389-403 | Fillers of n bytes that start on different words differ, which rests on no word being another with an x after it |
| TextGenerators.FreeTextIsHonest | mask/gen_text.go:236-363 | free_text, for every input length and each of its four branches: the distinct outputs over all draw sequences number at least Domain, Mask reports no room iff Domain is 0, and every output fits the column |
| TextShapes.FreeTextIsListedWords | mask/gen_text.go:236-363 | Every output is listed words in a row, cut only at the end and never on a space: of the length a CHECK asks for, or within the column and, where the input's own length fits it, about that length |
| TextGenerators.FillerRangeDomain | mask/gen_text.go:371-383 | All three branches: the labels of a closed column, the fillers of an exact length, or the saturating total over every admissible length, the count GenericTextIsHonest is about |
| TextGenerators.RangeFillersAreMany | mask/gen_text.go:371-386 | A filler of drawn length has at least that many distinct outputs |
| TextGenerators.GenericTextIsHonest | mask/gen_number.go:190-252 | generic's text branch, which does not read the CHECK, still emits at least the reported count in every branch of it and stays within the declared length |
| TextShapes.GenericTextIsListedWords | mask/gen_number.go:190-252 | Every output of generic's text branch is listed words in a row, cut at the end |
| TextGenerators.BuildUuid | mask/gen_text.go:557-571 | The byte loop writes the UUID text of the bytes drawn, version and variant set |
| TextShapes.UuidsAreVersion4 | mask/gen_text.go:557-571 | Its text has 36 characters, dashes after 8, 13, 18 and 23, version 4 and its variant, and lower-case hexadecimal digits elsewhere |
| TextGenerators.OnlineIsHonest | mask/gen_text.go:449-555 | online_id, for inputs of every shape (UUID, URL, neither) against one Domain that does not see the input: the distinct outputs over all draw sequences number at least Domain, Mask reports no room iff Domain is 0, and every output fits the column |
| ExactDomains.OnlineDomainIsExactForSome | mask/gen_text.go:449-555 | Outside a UUID column the one Domain is exactly the number of outputs of some input shape, capped, so it could not be larger |
| TextShapes.OnlineIdsKeepTheirKind | mask/gen_text.go:449-555 | A UUID column, or a UUID that fits, gets a version-4 UUID; a link one to https://example.invalid/ where there is room; anything else a listed word, an underscore and base32 symbols |
| ByteStream.Stream.Refill | mask/stream.go:27-37 | The next block replaces the used one and the read position stands still |
| ByteStream.Stream.Read | mask/stream.go:39-48 | However reads are split, each returns the next bytes of block 0, block 1, ... |
| ByteStream.Stream.Uint64 | mask/stream.go:50-54 | The next eight bytes, big-endian |
| ByteStream.FirstByteWeighsMost | mask/stream.go:50-54 | Of a word's bytes the first weighs most, read from the other end |
| ByteStream.Stream.Intn | mask/stream.go:57-69 | The result is below n: the residue of the first accepted word, all words before it rejected |
| ByteStream.DrawsAreUnbiased | mask/stream.go:57-69 | Every residue below n has the same number of accepted 64-bit words |
| Runes.NextFoldRune | mask/mask.go:682-691 | Returns the head of the sequence of letters and digits and consumes exactly up to it |
| Utf8.EncodedIsDecoded | mask/mask.go:682-691 | The decoder it steps with reads back the UTF-8 spelling of every code point, whatever follows |
| Utf8.DecodedOrError | mask/mask.go:682-691 | And anything that is no such spelling is one byte of error: overlong, surrogate or cut short |
| Utf8.FoldedKeepsTheLetters | mask/mask.go:666-691 | Of a text spelled in UTF-8 the folding is its letters and digits in lower case, whatever stands between them |
| Runes.FoldEqual | mask/mask.go:666-678 | True exactly when the letters and digits agree, so it is an equivalence |
| Runes.ProbeBytes | mask/mask.go:626-660 | The loop builds the probe ProbeIsDifferent is about |
| Runes.ProbeIsDifferent | mask/mask.go:626-660 | No probe is fold-equal to its argument, whatever its bytes |
| Passthrough.Redraw | mask/mask.go:484-496 | The loop of eight redraws computes what KeptOnlyAfterNineDraws is about |
| Passthrough.MaskCell | mask/mask.go:424-470 | The branches of the guard in the order the two-sided theorems are proved of |
| Passthrough.MaskedCellCarriesADraw | mask/mask.go:424-496 | A masked cell carries what the masker returned for the cell's own digest or, of a vocabulary masker only, for one of eight redraws, all draws before it having read as the input; a value that itself reads as the input only from the first draw of a masker outside the vocabulary, from the eighth redraw, or of a document with nothing to mask |
| Passthrough.FirstDrawDecides | mask/mask.go:424-470 | A first draw that fails or panics gives that error; one that does not read as its input is the cell; one that does is refused exactly when the probe's output reads as the probe, and otherwise, outside the vocabulary, stands |
| Passthrough.PassedThroughIff | mask/mask.go:382-406 | A value goes through unmasked exactly if it is NULL or empty, and then as it is |
| Passthrough.NothingToMaskIff | mask/mask.go:576-619 | The exemption is for an object or array in which no path ends at a string, a number or a boolean |
| Passthrough.DigestMaskerIsNeverRefused | mask/mask.go:424-561 | A masker whose output depends on the digest and the constraints alone is never refused when the canonical form has the input's letters and digits |
| Passthrough.DigestMaskerRefusedIff | mask/mask.go:424-561 | And some such masker is refused for a cell if and only if the canonical form carries the probe's letters and digits and the cell is not a document with nothing to mask |
| Passthrough.EchoRefusedIff | mask/mask.go:382-619 | A masker that returns its input, re-cased or re-punctuated, is refused if and only if the cell is not NULL, not empty and not a scalar-free JSON document |
| Passthrough.KeptOnlyAfterNineDraws | mask/mask.go:484-496 | A vocabulary masker's cell still reads as its source only if the first draw and all eight redraws landed on it |
| Vocabulary.ComputeVocabulary | mask/vocab.go:158-182 | The membership test by binary searches and one cut decides the vocabulary |
| Vocabulary.VocabularyIff | mask/vocab.go:158-182 | A canonical form is in it if and only if it fits the column and is a listed word of the role or, in a full-name column, a given name or a given name, a space and a surname |
| Vocabulary.EveryNameIsInVocabulary | mask/vocab.go:145-182 | Every name the masker emits is, folded, in its own vocabulary under the same constraints |
| Vocabulary.CanonicalEqualityShowsInTheFold | mask/vocab.go:28-39 | An emitted name canonical-equal to any input carries the letters and digits of the input's canonical form |
| Vocabulary.NameKeepsItsSourceOnlyAfterNineDraws | mask/mask.go:472-496 | So a masked name still canonical-equal to its source means all nine draws read as the source |
| Literal.SplitLiteral | internal/classify/literal.go:112-170 | The scanning loop with its lookahead computes the reader the round trips are proved of |
| Literal.SplitArrayLiteral | internal/classify/literal.go:39-61 | Dimension prefix, braces and the NULL filter, as the reader function |
| Literal.SplitCompositeLiteral | internal/classify/literal.go:67-80 | Parentheses and the empty-field filter, as the reader function |
| Literal.EscapedIsRead | internal/classify/literal.go:112-170 | Inside quotes both ways of escaping, backslash and doubling, are undone up to the closing quote |
| Literal.SplitFailsIff | internal/classify/literal.go:112-170 | A literal is refused exactly when it does not stand between its brackets, leaves a quote or an escape open, or its brackets outside quotes do not nest |
| Literal.ArrayIsReadBack | internal/classify/literal.go:39-170 | On the server's text of any nested array, with or without a dimension prefix, the reader returns each non-NULL leaf in order, as ReadBack gives it |
| Literal.ArrayRoundTripsIff | internal/classify/literal.go:39-97 | It returns exactly the non-NULL leaves if and only if the server quotes every leaf that has a Unicode space at an end |
| Literal.RecordRoundTripsIff | internal/classify/literal.go:67-97 | The same for records and their non-NULL fields |
| Literal.AsciiArraysRoundTrip | internal/classify/literal.go:29-61 | For all ASCII contents, quotes, backslashes, braces, commas and the word NULL included, the array reader undoes the printer |
| Literal.AsciiRecordsRoundTrip | internal/classify/literal.go:63-80 | For all ASCII contents the record reader undoes the printer |
| Literal.NoBreakSpaceIsLost | internal/classify/literal.go:39-97 | Beyond ASCII it does not: a no-break space at the end of an unquoted leaf is lost, and one before the word null loses the leaf |
| Names.QuoteIdent | internal/core/names.go:610-627 | The scan quotes exactly the names that are not bare lower case, doubling quotes |
| Names.QuoteEach | internal/core/names.go:600-606 | Each part quoted in place |
| Names.SplitQualified | internal/core/names.go:631-653 | The scan with its lookahead computes the splitter SplitUndoesQuoting is about |
| Names.SplitUndoesQuoting | internal/core/names.go:600-653 | For every non-empty list of strings, empty ones, dots and quotes included, splitting the dot-join of the quoted parts gives the list back |
| Names.SplitFailsIffQuotesAreOdd | internal/core/names.go:631-653 | A name is refused if and only if it has an odd number of quotes |
| Names.ResolveTable | internal/core/names.go:424-440 | A split name means the qualified table, or the one table of the catalog with that bare name, or is refused |
| Names.ResolveBareTable | internal/core/names.go:528-554 | Found when exactly one table has the name, refused as missing or ambiguous otherwise |
| Names.ResolveColumn | internal/core/names.go:562-596 | Quoting, joining and splitting the table part again changes nothing: the column is the one the parts mean, or the refusal they call for |
| Names.TableMeaningIff | internal/core/names.go:424-554 | Each refusal of a table's name and exactly when it is given: an empty part or more than two, no table of that bare name, more than one |
| Names.ColumnMeaningIff | internal/core/names.go:562-596 | A column is found exactly when its table is and an entry of the catalog for that table lists it |
| Names.EveryColumnCanBeNamed | internal/core/names.go:562-579 | Every column has a quoted name that resolves to it, and to a refusal when the catalog lacks it |
| Names.BareNamesAreNeverGuessed | internal/core/names.go:417-440 | A bare name is taken for a table only if that table is in the catalog and no other has the name |
| CompositeText.SplitTopLevelCommas | internal/classify/types.go:329-355 | The scan over depth, quotes and start computes the splitter FieldsAreReadBack is about |
| CompositeText.SplitFieldNameType | internal/classify/types.go:361-389 | The scan for the closing quote computes the name and type FieldsAreReadBack is about |
| CompositeText.CompositeFields | internal/classify/types.go:308-325 | The loop over the parts collects the fields FieldsAreReadBack is about |
| CompositeText.FieldsAreReadBack | internal/classify/types.go:308-389 | From the catalog's text of any composite type whose own name holds no parenthesis the reader recovers every field name and type in order: quoted names with quotes, spaces, commas and parentheses in them, and types with modifiers, included |
| CompositeText.ParenthesisInTheNameMisleads | internal/classify/types.go:308-325 | With a parenthesis at the end of the type's own quoted name, no unquoted field is read at all |
| CompositeText.ParenthesisInTheNameMayNotMislead | internal/classify/types.go:308-325 | And yet one that spells the type's only field and an open quote reads as the same field, so the condition of FieldsAreReadBack is sufficient only |
| CompositeWalk.FindComposite | internal/classify/types.go:192-201 | The first composite with the name, by its full or its bare spelling |
| CompositeWalk.Walker.DocumentField | internal/classify/types.go:250-293 | The method, its shared seen map and its early returns compute the walk the results below are about; it ends on every schema, cyclic types included |
| CompositeWalk.CompositeDocumentField | internal/classify/types.go:246-293 | Along the edges the lookup itself takes (SearchTruth says when those are the catalog's): a reported field is a json, jsonb or hstore field reachable that way, and where the names tell keys apart one is reported exactly when one is |
| CompositeWalk.SearchIsCompleteIff | internal/classify/types.go:246-293 | What the shared seen map costs, along the lookup's own edges: for every list of composite names nothing is missed, however the types are defined, if and only if no composite a nested field can find shares its key with another one a name can find |
| CompositeWalk.TheTwinIsSkipped | internal/classify/types.go:250-293 | Where two do share a key, a field of the first that finds the second leads to a seen key, and what the lookup finds in it is missed |
| CompositeWalk.ReadDomainBase | internal/classify/types.go:409-437 | The first domain of the name, by either spelling, and its base type as BaseOfDef reads it; no later domain is tried |
| CompositeWalk.ResolveTypeName | internal/classify/types.go:250-293 | Array suffixes and modifier off, one domain resolved, and off again: the name TypeNameIsTakenFor is about |
| DomainText.ReadBase | internal/classify/types.go:409-437 | The cuts at the first AS and at each clause word in turn compute the reader BaseIsReadIff is about |
| DomainText.BaseIsReadIff | internal/classify/types.go:409-437 | From the catalog's CREATE DOMAIN text, whatever clauses follow, the reader gives the base type back if and only if its text holds none of the words it cuts at (the name holding no AS between spaces) |
| TypeCatalog.PrintedShows | internal/introspect/sql.go:159-189 | The catalog's own text of any composites and domains, whose names mislead neither reader, reads back as exactly their fields and base types |
| TypeCatalog.TypeNameIsTakenFor | internal/classify/types.go:250-437 | What the walk makes of a field: the name of its type, or of the base of the first domain its text finds |
| SearchTruth.SearchIsRightIff | internal/classify/types.go:246-293 | Against a meaning of types that knows no lookup (fields, arrays and domains by identity): a document field is reported of exactly the composites that hold one, however the types are defined without a domain over a domain, if and only if the names are clear: each composite and domain is the first its own text finds, no other text finds a domain, none but a document's reads as one, no type that is no composite finds one and keys differ |
| SearchTruth.ClearReportIsTrue | internal/classify/types.go:246-293 | And with clear names what is reported is true: the type named is nested in the one asked about, by identity, and the field named is a document field of it, of the family named |
| SearchTruth.SearchIsRightDeepIff | internal/classify/types.go:246-293 | Domains over domains let in, if and only if, besides, there are no two domains |
| SearchTruth.DeepDomainIsMistaken | internal/classify/types.go:250-437 | Of any clear names with two domains, one over the other makes the search wrong: only the first is resolved |
| SearchTruth.NoneSharedIsClear | internal/classify/types.go:192-201 | Names are clear where no two types share a bare name, in whatever schemas, no name holds a quote and none is a document's |
| TypeMixups.FirstOfTheNameIsTaken | internal/classify/types.go:192-201 | Of two types of one name in two schemas the second is taken for the first, qualified or not: a document in it is missed, and one in the first is reported of a type that does not nest it |
| TypeMixups.SecondAddressIsMissed | internal/classify/types.go:192-201 | For one: text in a.addr, json in b.addr and a field of type b.addr in c.person; no name holds a quote, keys are apart, and c.person is searched in vain |
| TypeMixups.TwinIsMissed | internal/classify/types.go:192-293 | Types c of schema a.b and b".c of schema a, both on the search path, are each found for their own text and share a key: a json in one, nested in the other, is missed |
| CompositeNames.FindableIff | internal/classify/types.go:192-201 | Which composites any name, or any nested field's type, can find, as a check over the names alone |
| CompositeNames.PlainNamesTellApart | internal/classify/types.go:192-293 | If no composite's own name holds a quote, no two findable ones share a key |
| CompositeNames.TextIsRead | mask/typetag.go:131-175 | A type name as format_type shows it, quoted or bare, qualified or on the search path, reads back to its unquoted name and its bare name, quotes and dots in it included |
| CompositeNames.TextIsPlain | mask/typetag.go:131-150 | And stripping modifiers and array suffixes leaves it alone |
| MaskJson.MaskJSON | mask/gen_fixed.go:128-161 | The recursion over arrays in index order and objects in sorted key order, overwriting in place, computes the walk the two theorems are about |
| MaskJson.ShapeIsKept | mask/gen_fixed.go:128-161 | The masked document has the original's key sets, array lengths and leaf kinds, integers and fractions told apart |
| MaskJson.OnlyTheShapeIsRead | mask/gen_fixed.go:128-161 | Two documents of one shape mask to equal documents and leave the stream in equal states: nothing but the shape is revealed |
| MaskedLeaves.EveryLeafIsDrawn | mask/gen_fixed.go:128-161 | Along every path that leads to a leaf the masked document has a drawn one: up to 24 characters of listed words for a string, a whole number of at most six digits or a fraction of three and two for a number, null for null |
| SortedText.SortedUniqueSorts | internal/classify/leafdrift.go:131-135 | The list comes out in strict order with the same elements |
| LeafDrift.ComputeIdentifierShaped | internal/classify/leafdrift.go:193-223 | The counting loop decides the shape of a name, which ShapedIff spells out |
| LeafDrift.ShapedIff | internal/classify/leafdrift.go:193-223 | A key has it exactly if it has at most 32 characters, begins with a letter or an underscore, holds only letters, underscores, hyphens and at most two digits at the end, and has fewer than eight letters or one that is not hexadecimal |
| LeafDrift.LeafKeySpelling | internal/classify/leafdrift.go:170-180 | The key itself when it is a name and its column holds at most 64 keys, its fingerprint otherwise |
| LeafDrift.LeafKeyListed | internal/classify/leafdrift.go:124-129 | Named in either spelling |
| LeafDrift.SpellingsAreApart | internal/classify/leafdrift.go:162-165 | No fingerprint has the shape of a name |
| LeafDrift.State.LeafKeys | internal/classify/leafdrift.go:62-117 | Every column is decided against its own entry alone: what is recorded, which keys are taken out of the map, and a drift list that names exactly those |
| LeafDrift.PinLastsIff | internal/classify/leafdrift.go:36-58 | Over any number of successive runs: each records the same sorted list, and copies exactly the keys its samples copy and the list names in one of its two spellings, if and only if every run's decision shows the per-leaf map |
| LeafDrift.FreshListNeverDrifts | internal/classify/leafdrift.go:119-129 | A list freshly written from a column's documents lists all it copied, also when the column has crossed the 64-key limit since |
| LeafDrift.FreshListHoldsNoValues | internal/classify/leafdrift.go:137-175 | A fresh list holds only fingerprints of copied keys and, in a column of at most 64 keys, copied keys that are names character by character |
| LeafDrift.FreshListNamesEveryCopy | internal/classify/leafdrift.go:137-175 | And it holds every copied key: a name as it is where the column has at most 64 keys, anything else as its fingerprint |
| LeafDrift.CopiedIffListed | internal/classify/leafdrift.go:62-129 | Against a file that carries the column a key is copied exactly if the samples copy it and the list holds its fingerprint or, for a name, the key itself |
| LeafDrift.PinIsLostWithTheMap | internal/classify/leafdrift.go:62-117 | The pin does not outlive a run without the map: two runs later an unlisted key is copied again |

## Left out

- SHA-256, HMAC, HKDF and key files: the block function, the redraw digest and the key fingerprint are parameters; whether a given draw sequence is reached by some digest is not claimed.
- ByteStream.Stream.Intn: ends within `tries` words by hypothesis, because the rejection loop ends only with probability one.
- The embedded word lists: their contents are not written out. `Lexicon.Lists` is the type of lists with the facts the proofs use (ordered, lower case, without repeats, no filler longer than nine letters, no filler another with an x after it, area codes of three digits that begin with 2 to 9), as `mask/words.go:36-97` lists them.
- NumberGenerators.GeoIsHonest: `MaxLen` is taken to be set on character types only, as the type tag sets it. The same holds for person_date and online_id.
- TextGenerators.FreeTextIsHonest: that the Domain is no higher than the number of outputs, not that it equals it: the source counts the words a filler may begin with, and one beginning has many fillers. The same holds for GenericTextIsHonest.
- NumberGenerators.PersonDateIsHonest: calendar formatting is any injective rendering of a day number of the expected width.
- Domain and Mask of network_id, semi_structured, special_category (but for its text branch), derived_text, binary and the fixed maskers; CHECK parsing by regular expression; `MaxRows` and `Required`, which round in floating point.
- Validators, rule-pack expressions, dictionaries, libphonenumber and Unicode normalisation: `decide` and `bestSignal` are the arbitrary state the passes start from, a pattern is the set of columns it matches, and canonical forms beyond ASCII names are a parameter.
- Classifier.State.NeighbouringColumns: the flag TableHasMaskedPersonalColumn, which only the verifier reads, and `guessedPhoneLeafColumns`.
- Classifier.State.Finalise: the role, the masker's name, the log-shaped flag, and `raiseCompositeUnique`, which marks columns of composite unique indexes as unique.
- Classifier.State.Classify: the passes over document keys and `raiseCompositeUnique`.
- `generatedLeafKeys`, reason fragments, event payloads and the sorting of the drift lists. Of a fragment only its presence is kept, where a later pass reads it.
- Decisions are values in a map that the passes reassign, not records they share by pointer; no two columns share a record in the source.
- KeyPropagation.QuietExitAgrees: says nothing of a loop the cap stopped; DisagreeingParentsNeverSettle shows that this happens.
- ClassifyRun.MaskedKeyReachesItsChildren: only after a post-prior sweep that ran and ended quietly (SettledIffRaised says when); name sharing without one may undo agreement.
- EventChannel: a sink that never returns, a sink that sends into its own channel, and a panic of the sink inside close's own final report.
- CompositeWalk.CompositeDocumentField: which field is named first, where several are reachable, and columns of a type that `typeOf` itself takes for a composite.
- SearchTruth.SearchIsRightIff: row types of tables and types an extension owns count as holding no document, because the catalog's lists leave them out; definitions whose text does not read back (BaseIsReadIff, ParenthesisInTheNameMisleads) are outside it.
- SearchTruth.SearchIsRightDeepIff: for domains whose own text holds no clause word.
- CompositeText.FieldsAreReadBack: one way only; what a text with a parenthesis in the type's name reads as is whatever follows that parenthesis (ParenthesisInTheNameMayNotMislead).
- PriorInputs.BuildPrior: the phone region, and which of several refusals is reported first.
- Names: `resolveType`, type fingerprints and the wording of the stop messages.
- Discovery, planning, extraction, loading, verification queries, the command line, the terminal interface and the renderers.
