# Ruby/RPM: a verified model of the hand-written core

Ruby/RPM is a Ruby binding over librpm. Most of it forwards calls; this project models the parts that carry
logic of their own, for rpm 4.6 or newer and older than 5.0, and proves what they are for:

- **Version text** (`VersionText`, `VersionBuffers`, `VersionOrder`): parsing `[epoch:]version[-release]` by cutting a
  buffer in place, printing, comparing and hashing.
- **Package names** (`Nevr`, `Headers`): the second reader of epochs, the backward scan for the name, the package made
  from it, and the way of a version through a package header.
- **Problem texts** (`Problems`): how `check` turns librpm's problems into dependencies.
- **Dependencies** (`DependencyStore`, `Satisfaction`): the three parallel header arrays of each kind, and `satisfy?`.
- **Package cache** (`PackageCache`): the weak table from header signatures to package objects, and header links.
- **Database ownership** (`DbOwnership`): reference counts of an open database under finalisation in any order.
- **Transaction control** (`Transactions`): block, commit, abort, exceptions and the commit at the end, with the keys.

`Outcomes` holds the result types and `CText` the pieces of the C library (searching, strings in buffers, decimal
text, `atol`, `atoi`).

## How the model is built

Code that works in place is a method on an array or a class with mutable fields; each such method is proved against a
function of its inputs or of its old state, and the theorems are about those functions. The two garbage-collected
structures and the transaction are state machines: `Step` or `Exec` says what one operation does, an invariant is
proved for every step, and the theorems speak of every run (`After(ops)`) or of every block program. Ghost logs record
the calls into librpm. What librpm and Ruby decide is a parameter: `rpmvercmp` (any total preorder), `rpmdsCompare`,
`rb_hash`, whether a database opens or an iterator matches, the status of a file, the problem list after a run, and
what a block or a progress callback does.

Text is what C sees of it, that is, up to the first NUL. `atol` and `atoi` saturate at the range of `long` (64 bits)
and `atoi` keeps the low 32 bits, as glibc does. An error that C does not guard against but that would follow a nil or
NULL is the result `NilDereference`. The main theorems about text are equivalences: they name exactly the inputs for
which the text comes back.

## Where code and documentation differ

- `older?` is documented as "older than other" (`ext/rpm/version.c:276-284`); the code makes it the complement of
  `newer?`, so it holds between equal versions (`NewerStrictWeakOrder`).
- `DB#transaction` is documented to return true on success and false on abort (`refm.rd.en:306-312`); it returns the
  problem list, possibly empty, after a run, and nil on a read-only database (`PlainTransaction`).
- A transaction is meant to be run at most once. It is run again at the end if a progress callback raises and the
  block rescues the exception (`RescuedRunIsRepeated`); `TransactionRunsExactly` names the failing guard, `RescuesRun`,
  for every plain block. `CaughtCommitsRunTwice`, `EnsuredAbortHidesRun`, `EnsuredRaiseHidesRun` and
  `CallbackAborts` show what `Plain` and `HarmlessCallback` exclude.
- Clearing the package cache while signed packages live lets two objects for one signature live side by side
  (`ClearingForgets`); it is harmless exactly otherwise (`ClearingIsSafeExactly`).

## Model

| member | source | states |
|---|---|---|
| `VersionText.ParseUndoesPrint` | ext/rpm/version.c:60-84 | `Version.new(ver.to_vre)` equals ver in all three fields if and only if ver is printable: the release is non-empty and dash-free, or absent with a dash-free version, and a version without epoch does not begin like one |
| `VersionText.PrintIsNormalForm` | ext/rpm/version.c:60-84 | printing is a normal form: parse, print, parse gives the first parse again, if and only if no empty release hangs behind a version that itself holds a dash |
| `VersionText.NoTrailingDash` | ext/rpm/version.c:60-84 | every text with an in-range epoch that does not end in a dash parses to a printable version that survives printing |
| `VersionText.DanglingDashExample` | ext/rpm/version.c:46-52 | why the exception is needed: `1-2-` reads as version `1-2`, whose text reads as version `1`, release `2` |
| `VersionText.PrintUndoesParse` | ext/rpm/version.c:345-363 | the texts that come back letter for letter: exactly those without a final dash and with the epoch in canonical decimal |
| `VersionText.NewSucceeds` | ext/rpm/version.c:105-156 | the only texts that `Version.new` refuses are those whose epoch exceeds int, and the version it gives otherwise |
| `VersionText.ReleaseRoundTrip` | ext/rpm/version.c:33-52 | cutting `v-r` at its last dash gives v and r back if and only if the parts can be told apart |
| `VersionText.WrittenForms` | ext/rpm/version.c:323-363 | for every non-empty dash-free r: `e:v-r` reads as v, r and e whatever v holds, `v-r` as v and r if and only if v does not begin like an epoch, and these are the texts that `to_vre` and `to_s` print |
| `VersionText.EpochArgument` | ext/rpm/version.c:122-149 | the epoch given as a number is taken from 0 to the largest int, refused as an argument below 0 and as a range beyond int; with a text that has an epoch of its own it is a type error |
| `VersionText.VersionExample` | test/test_version.rb:6-43 | version 0.9.0, release 1m, epoch 1 in all forms of reading and printing |
| `CText.DecimalRoundTrip` | ext/rpm/version.c:354 | `%ld` followed by reading the digits is the identity on epochs |
| `CText.PrintUndoesRead` | ext/rpm/version.c:76-77 | reading digits and printing the value is the identity on exactly the canonical decimals |
| `CText.AtolReads` | ext/rpm/version.c:76-77 | the number read from any text: blanks, a sign, digits, whatever follows; it saturates at the range of `long` |
| `VersionBuffers.ParseEVR` | ext/rpm/version.c:18-57 | after the terminators are written into the buffer, the strings at the three pointers are the epoch, version and release of the split, for every text |
| `VersionBuffers.VersionParse` | ext/rpm/version.c:59-84 | the parse through a cut copy is the functional parse, for every text |
| `VersionBuffers.VersionInitialize` | ext/rpm/version.c:104-156 | the constructor with one, two or three arguments, with its type, range and argument errors |
| `VersionBuffers.VersionToS` | ext/rpm/version.c:323-337 | filling the buffer piece by piece leaves `v[-r]` in it |
| `VersionBuffers.VersionToVre` | ext/rpm/version.c:344-363 | filling the buffer piece by piece leaves `[e:]v[-r]` in it |
| `VersionOrder.CmpIsLexicographic` | ext/rpm/version.c:217-264 | the sign of `<=>` is the lexicographic order on epoch (absent as 0), version, release (absent lowest) |
| `VersionOrder.CmpTotalPreorder` | ext/rpm/version.c:217-264 | `<=>` is reflexive, the same from both sides, and transitive, given that `rpmvercmp` is a total preorder |
| `VersionOrder.NewerStrictWeakOrder` | ext/rpm/version.c:270-284 | `newer?` is a strict weak order, `older?` its exact complement, and both directions of `older?` hold exactly on equal versions |
| `VersionOrder.EqualTextEqualHash` | ext/rpm/version.c:392-405 | versions that compare equal and have the same v and r hash alike, whether an epoch of 0 is written or absent |
| `VersionOrder.HashMixesAll` | ext/rpm/version.c:392-405 | the hash in closed form: epoch, release hash and version hash, shifted left by two, one and no bits |
| `VersionOrder.ZeroEpochIsNoEpoch` | ext/rpm/version.c:35-44 | for every text without epoch, putting `0:` or `:` in front changes neither order nor hash |
| `Nevr.ParsersAgree` | ext/rpm/db.c:622-653 | the two readers of an EVR give the same version if and only if there is no colon, or the text before the first colon is an in-range number and the rest does not begin with another epoch |
| `Nevr.LargeEpochs` | ext/rpm/db.c:645-646 | for every epoch beyond int one reader raises, while the other keeps the low 32 bits of what `atoi` makes of it, and raises only if those are negative |
| `Nevr.OnlyFirstReaderTakesColon` | ext/rpm/db.c:634-643 | a colon behind anything but digits belongs to the version for one reader and ends an epoch for the other |
| `Nevr.ColonEndsEpoch` | ext/rpm/db.c:634-649 | what the second reader makes of every text: `atoi` of what stands before the first colon is the epoch, with the errors for another epoch behind it and for a negative one |
| `Nevr.VersionNewFromEVR` | ext/rpm/db.c:622-653 | cutting a copy at its first colon computes the second reader |
| `Nevr.FindNameEnd` | ext/rpm/db.c:669-676 | the two loops find the second dash from the end, or that there is none |
| `Nevr.PackageNewFromNEVR` | ext/rpm/db.c:655-687 | scanning and cutting a copy computes the package of the functional reading, with its errors |
| `Nevr.CutBehindName` | ext/rpm/db.c:671-682 | the cut falls behind the name, whatever dashes it holds, if and only if what follows holds one dash |
| `Nevr.TooFewDashes` | ext/rpm/db.c:672-684 | with fewer than two dashes the whole text is the name, and the package cannot be made |
| `Nevr.EvrRoundTrip` | ext/rpm/db.c:622-653 | the second reader undoes printing for exactly these versions |
| `Nevr.NevrThroughHeader` | ext/rpm/package.c:735-760 | whatever this parser delivers comes back unchanged from the header of the package made from it |
| `Nevr.NevrRoundTrip` | ext/rpm/db.c:655-687 | a package made from `name-[e:]v-r` has that name and version if and only if v and r are dash-free, r is non-empty, and no colon can be taken for an epoch's |
| `Nevr.NevrPrintsBack` | ext/rpm/package.c:1047-1071 | such a package prints as the text it was made from, less the epoch |
| `Headers.CreateKeepsVersion` | ext/rpm/package.c:735-760 | a created package answers with the version it was given if and only if that has an epoch or is printable |
| `Headers.CreateWrites` | ext/rpm/package.c:114-121 | the entries of a created package, tag by tag, and that there are no others |
| `Headers.VersionOfEntries` | ext/rpm/package.c:743-757 | the version of any package by its entries: from `v` alone, from `v-r` read once more, or v, r and epoch as they are |
| `Headers.CreatedPrints` | ext/rpm/package.c:1047-1071 | a created package prints as `name-v-r`, with an architecture as `name-v-r-arch`, without a version as its name, without a name as nothing |
| `Problems.ReadSenses` | ext/rpm/db.c:772-780 | the flag loop sets bit 2, 4 and 8 if and only if `<`, `>` and `=` occur, in any order and number, and no other bit |
| `Problems.ParseClause` | ext/rpm/db.c:758-781 | two terminators in a copy take name, relation and version text apart: the text is the blank-free name alone, with no flags and empty version text, or name, blank and relation, or both blanks with the version text behind |
| `Problems.RequirementForms` | ext/rpm/db.c:752-792 | what becomes of `R name`, `R name op` and `R name op evr` for any blank-free name and relation: name, empty or read version, the flags bit by bit, the owner, or the error of the version before that of the owner |
| `Problems.ProblemRoundTrip` | ext/rpm/db.c:752-792 | the text `R name op evr` gives name, version and flags back if and only if the name holds no blank and the version is printable |
| `Problems.TransactionCheck` | ext/rpm/db.c:732-796 | the loop over the problem set delivers nil without problems, else all the requirements read, or the first error among them |
| `Problems.CheckReports` | ext/rpm/db.c:744-796 | the result is nil exactly without problems of any kind; a list has one dependency for each REQUIRES problem, in order; there is an exception exactly if one of them cannot be read |
| `Problems.CheckRaisesFirst` | ext/rpm/db.c:749-792 | the exception is that of the first requirement that cannot be read |
| `Problems.RequirementsJoin` | ext/rpm/db.c:744-752 | each problem is reported or left out by its own kind alone, in order |
| `DependencyStore.AddDependency` | ext/rpm/package.c:276-302 | a dependency goes to the three tags of its class (a Provide to PROVIDENAME, PROVIDEVERSION and PROVIDEFLAGS, and so on), one element to each, and no other entry changes; a refused one changes nothing and gives its error |
| `DependencyStore.GetDependency` | ext/rpm/package.c:861-894 | three positions moving in step deliver row for row what the three arrays of the class hold; nothing if one of them is missing, an error if a row is incomplete or its version unreadable |
| `DependencyStore.AddWrites` | ext/rpm/package.c:290-300 | for each of the four classes and any header: one more element under its three tags, all else unchanged |
| `DependencyStore.GetReads` | ext/rpm/package.c:900-931 | for each of the four classes and any header: the dependencies are the rows of exactly its three arrays |
| `DependencyStore.GetRaisesFirst` | ext/rpm/package.c:885-887 | the error is that of the first row that lacks a version, has an unreadable one, or lacks flags |
| `DependencyStore.TakenOne` | ext/rpm/package.c:286-296 | a dependency is taken exactly if it is of the class and its flags are an int |
| `DependencyStore.TakenJoin` | ext/rpm/package.c:286-296 | whether a dependency is taken does not depend on what else is added, and the order stays |
| `DependencyStore.ColumnsOfAll` | ext/rpm/package.c:276-302 | after any sequence of additions of all kinds the three arrays of each kind are equally long and hold exactly the dependencies of that kind, in order |
| `DependencyStore.GetAfterAdds` | ext/rpm/package.c:900-931 | after any sequence of additions each kind reads back as exactly its dependencies, in order, if and only if their versions are printable |
| `Satisfaction.ByPackage` | ext/rpm/dependency.c:175-184 | the popping loop ends and answers whether some provide of the package satisfies dep |
| `Satisfaction.AddedProvidesDecide` | ext/rpm/dependency.c:175-214 | for a package built by additions this is whether one of the added provides does |
| `Satisfaction.VersionStandsForProvide` | ext/rpm/dependency.c:195-201 | asking for a version is asking for a provide of dep's own name with sense EQUAL, or none for the empty version |
| `Satisfaction.ComparesWholeRanges` | ext/rpm/dependency.c:186-212 | both names, version texts and flags reach librpm as they are, the offered range first; flags beyond int are refused |
| `PackageCache.StepKeepsInv` | ext/rpm/package.c:32-95 | every operation keeps the entries live and the header links equal to their owners |
| `PackageCache.TableMeans` | ext/rpm/package.c:32-95 | after any run the cache is on unless it was cleared since it was enabled, and the entry of a signature is the first object made for it while the cache was on, until the cache was cleared or an object with that signature freed |
| `PackageCache.LiveMeans` | ext/rpm/package.c:48-95 | after any run an object is alive if and only if it was made by a wrapping for which none was known, and has not been freed since, signed or not |
| `PackageCache.HeldMeans` | ext/rpm/package.c:182-185 | after any run a header is held as often as it was acquired or held, less the drops |
| `PackageCache.DeliversKnown` | ext/rpm/package.c:79-93 | asking for a header after any run delivers the object known under its signature, and a new one if none is |
| `PackageCache.NeverDeliversFreed` | ext/rpm/package.c:48-95 | after any run of reading, holding, wrapping, dropping, freeing, clearing and enabling, the package delivered for a header is alive and has its signature; an unsigned header always gets a new one |
| `PackageCache.ReclaimedWhenUnwrapped` | ext/rpm/package.c:63-90 | after any run a header has one link from each package around it and one for each time somebody else holds it, and one that nobody holds is in memory exactly while there is a package around it |
| `PackageCache.ReadingKeepsOneLink` | ext/rpm/package.c:182-185 | on a hit, opening leaves nothing of the header read; on a miss exactly the new package keeps it |
| `PackageCache.ExactUntilCleared` | ext/rpm/package.c:79-93 | in every run without clearing, each live signed package is the entry under its signature |
| `PackageCache.OneObjectForOneSignature` | ext/rpm/package.c:79-93 | then a signature has one live object, and asking for it again delivers that object |
| `PackageCache.ClearingIsSafeExactly` | ext/rpm/package.c:32-46 | clearing and enabling again keeps this if and only if no signed package is alive |
| `PackageCache.ExactThroughoutExactly` | ext/rpm/package.c:32-95 | over every run with any number of clears: the table is exact whenever the cache is on if and only if no signed package is alive whenever it is switched on again |
| `PackageCache.ClearingForgets` | ext/rpm/package.c:49-64 | otherwise freeing the older of two objects removes the entry of the newer one, and a third is made while that lives |
| `PackageCache.Binding.DropHeader` | ext/rpm/package.c:182-185 | a holder gives up its link |
| `PackageCache.Binding.HoldHeader` | ext/rpm/db.c:475-478 | librpm takes a link to the header of a live package |
| `PackageCache.Binding.ClearCache` | ext/rpm/package.c:32-37 | the table is gone, nothing else changes |
| `PackageCache.Binding.UseCache` | ext/rpm/package.c:39-46 | true switches on without losing entries, false clears, anything else does nothing |
| `PackageCache.Binding.NewFromHeader` | ext/rpm/package.c:66-95 | nil for NULL, the entry on a hit, else a new package that is entered and holds a link |
| `PackageCache.Binding.PackageFree` | ext/rpm/package.c:48-64 | the entry under the signature goes, whoever it belongs to, and one link is given up |
| `PackageCache.Binding.Open` | ext/rpm/package.c:170-206 | the error statuses raise; otherwise reading, wrapping and dropping the header |
| `PackageCache.Binding.Load` | ext/rpm/package.c:227-238 | the same for a dump, with its own error |
| `PackageCache.Binding.CreatePackage` | ext/rpm/package.c:103-124 | the new header holds name, version, release and epoch, and keeps a link of its creator besides the one of the package |
| `DbOwnership.StepKeepsInv` | ext/rpm/db.c:32-51 | every open, close, attachment and finalisation keeps counts equal to holders, pointers valid and the calls into librpm legal |
| `DbOwnership.RunKeepsInv` | ext/rpm/db.c:327-339 | so does every run, with finalisation in any order |
| `DbOwnership.RunMeans` | ext/rpm/db.c:383-394 | after any run, told by the operations alone: a handle is live if and only if it was made and not finalised since, and points at its own new record, or at the record its database pointed at when it was made, until closed |
| `DbOwnership.CountingIsExact` | ext/rpm/db.c:32-51 | after any run the calls into librpm are exactly those of a binding that counts nothing and closes a database when no handle of the run points at it any more, in that order |
| `DbOwnership.OpenWhilePointedAt` | ext/rpm/db.c:32-51 | as long as a handle points at a database it has been opened and not closed |
| `DbOwnership.KeptOpenUntilFinalised` | ext/rpm/db.c:1140-1164 | a transaction or iterator keeps the database it was made from open until it is finalised itself, whatever is closed or finalised meanwhile |
| `DbOwnership.ClosedExactlyWhenUnheld` | ext/rpm/db.c:37-44 | after any run an opened database has been closed if and only if no live handle points at it, and until then its count is the number of handles |
| `DbOwnership.ClosedIsLast` | ext/rpm/db.c:40-43 | a database is closed at most once and nothing is done with it afterwards |
| `DbOwnership.FreedBeforeClose` | ext/rpm/db.c:1140-1146 | every transaction set and iterator of a database is freed before the database closes |
| `DbOwnership.Binding.DbRef` | ext/rpm/db.c:32-35 | one more reference |
| `DbOwnership.Binding.DbUnref` | ext/rpm/db.c:37-44 | one reference less, and with the last one the database is closed and the record gone |
| `DbOwnership.Binding.Open` | ext/rpm/db.c:98-112 | an exception, or a new DB object that is the only holder of its new record |
| `DbOwnership.Binding.Close` | ext/rpm/db.c:232-239 | the DB object lets go of the record and points nowhere |
| `DbOwnership.Binding.NewTransaction` | ext/rpm/db.c:383-394 | a new live transaction object points at the record of its database, which counts one reference more |
| `DbOwnership.Binding.InitIterator` | ext/rpm/db.c:1148-1171 | an exception on a closed database, nil without matches, else a new live iterator that points at the record, which counts one reference more |
| `DbOwnership.Binding.Finalise` | ext/rpm/db.c:46-51 | a handle goes, its librpm object first, then its reference if it has one |
| `Transactions.PlainTransaction` | ext/rpm/db.c:356-405 | for every block with harmless callbacks, whose `ensure` parts end by themselves without commit or abort and whose own `catch` parts hold neither: the flags exclude each other, only the last run can have come to its end, nothing runs on a read-only database, false is returned exactly on abort, a problem list exactly after a completed run and it is that run's, nil only on a read-only database |
| `Transactions.TransactionAnswer` | ext/rpm/db.c:392-404 | what the caller of such a transaction gets, by how the block ended: nil if and only if the database is read-only and the block ended by itself; false if and only if it was aborted; an exception if and only if the block raised or the run at the end was interrupted; else the list of the commit in the block or of the run at the end |
| `Transactions.CommitMeans` | ext/rpm/db.c:1033-1127 | a commit on a read-only database, with more than two arguments or with one that is no int raises and changes nothing; otherwise it adds one run of all the elements, announced by their number without a callback, which is left by an exception or ends with its list kept and the flag set |
| `Transactions.FinalRunIsOfAll` | ext/rpm/db.c:396-404 | the run at the end is of all the elements that the block added |
| `Transactions.NothingIsUndone` | ext/rpm/db.c:356-405 | for every program whatsoever: elements and runs are never taken back, no flag is unset, and nothing is run or committed on a read-only database |
| `Transactions.ExceptionsPass` | ext/rpm/db.c:392-395 | exceptions pass a `catch`, what is thrown passes a `rescue`, and an `ensure` part takes place in any case |
| `Transactions.TransactionRunsExactly` | ext/rpm/db.c:356-405 | for every such block: when a problem list is returned, `rpmtsRun` happened exactly once if and only if no exception that left a run was rescued; when false or nil is returned, it never happened if and only if none was; and without a rescued run it happens at most once whatever is returned |
| `Transactions.NothingToRescue` | ext/rpm/db.c:396-402 | a condition on the text of the block: if no commit stands inside a `rescue`, no run can be rescued |
| `Transactions.TransactionRunsOnce` | ext/rpm/db.c:356-405 | so for these blocks `rpmtsRun` happens at most once, exactly once when a problem list is returned, never when false or nil is |
| `Transactions.FinalRunExactly` | ext/rpm/db.c:398-402 | for every plain block the commit at the end begins a run exactly when the database is writable and the block ended by itself |
| `Transactions.RescuedRunIsRepeated` | ext/rpm/db.c:1082-1124 | an exception in a progress callback that the block rescues makes everything run twice |
| `Transactions.RescuedCommitRunsTwiceExactly` | ext/rpm/db.c:398-402 | the same condition spelled out for one commit directly under a `rescue`: two runs if and only if the commit is allowed, its run is interrupted, and the handler ends by itself |
| `Transactions.CaughtCommitsRunTwice` | ext/rpm/db.c:1123-1124 | two commits in `catch` blocks of their own are two complete runs |
| `Transactions.EnsuredAbortHidesRun` | ext/rpm/db.c:1132-1138 | an abort in an `ensure` around a commit sets both flags and returns false for a completed run |
| `Transactions.EnsuredRaiseHidesRun` | ext/rpm/db.c:1123-1124 | an exception in an `ensure` around a commit reaches the caller in place of the problem list of a completed run |
| `Transactions.CallbackAborts` | ext/rpm/db.c:398-404 | an abort from a progress callback returns false after an explicit commit and nil after the one at the end |
| `Transactions.ExecKeepsKeys` | ext/rpm/db.c:451-515 | every program whatsoever keeps the keys free of duplicates and equal, in order, to those of the elements added |
| `Transactions.CallAdds` | ext/rpm/db.c:451-515 | install and upgrade raise and change nothing for a key in use; any other key is added, with an element whose upgrade flag is 0 for install and 1 for upgrade |
| `Transactions.FirstCallsCount` | ext/rpm/db.c:451-515 | for every list of install and upgrade calls with the refusals rescued, from every state with right keys: the elements are then the first call for each key, in order, each with its own flag, and nothing else has changed |
| `Transactions.InstallingRunsFirstCalls` | ext/rpm/db.c:356-405 | such a list as a whole transaction is one run of exactly these elements, announced by their number |
| `Transactions.TransactionKeepsKeys` | ext/rpm/db.c:1068-1081 | so does every transaction, and every total announced for progress is the number of elements added |
| `Transactions.Binding.AddInstallElement` | ext/rpm/db.c:451-515 | install and upgrade: it raises if and only if the key is in use and then changes nothing; otherwise the key and its element come last and nothing else changes |
| `Transactions.Binding.CommitTransaction` | ext/rpm/db.c:1033-1127 | commit on the mutable object does what one program step does, callback included |
| `Transactions.Binding.AbortTransaction` | ext/rpm/db.c:1132-1138 | the flag is set and "abort" thrown |
| `Transactions.Binding.Run` | ext/rpm/db.c:356-405 | the whole transaction on the mutable object has the state and the answer of the functional one, of which `TransactionAnswer` says what they are |

## Left out

- librpm itself: version segment comparison, range overlap, header storage, running a transaction, macro and spec handling are parameters or small functions.
- Ruby runtime detail: type checks, argument counts, copying of strings, mutation of a key string after it was added, and lazy sweeping; finalisation is one atomic step and interning of signatures is injective.
- Unguarded inputs: closing a database twice, starting a transaction on a closed one, clearing a cache that is off, versions that are nil in dependencies, and texts longer than the fixed buffers are preconditions.
- The branches for rpm before 4.6 and from 5.0 on, `rpm_transaction_available`, and the erase elements of `delete`, which have no keys.
- Signature changes: a header's signature is fixed here, although tags can be deleted from a live package.
- Whether `rb_block_given_p` sees a block in the commit at the end depends on the Ruby version; the callback of that commit is a parameter instead.
- The result of `rpmtsAddInstallElement` is ignored by the source, so the elements here are the calls made, not those that librpm accepted.
- The order in which C evaluates two function arguments that both raise is unspecified; the version is read before the owner here.
- The owner field of dependencies, the getters, the flag tests, and `inspect`.
- Files, changelogs, `dump`, sources, specs, script file descriptors and temporary files: forwarding and I/O only.
- VersionBuffers.VersionToVre: texts of 8192 characters or more, which overflow the buffer of the source, are excluded.
- VersionBuffers.VersionToS: the same limit.
- Transactions.PlainTransaction: blocks with a commit or an abort inside a `catch` of their own or inside an `ensure` part, with an `ensure` part that can raise (adding an element can), or with a callback that commits or aborts, are left out of the theorem; the keys theorems hold for them too.
- Transactions.TransactionRunsExactly: when the caller gets an exception, only the bound without a rescued run is stated.
