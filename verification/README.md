# PnetCDF in Dafny: safe-mode collectives, dispatcher state, decompositions

This project models the dispatcher layer of PnetCDF and the data decompositions of its example and
benchmark programs, and proves what they promise. `dafny verify dfyconfig.toml` checks all of it.

PnetCDF is a parallel I/O library: the processes of an MPI communicator open one file together, each
with a record of the file in its own memory. The functions that define dimensions, variables and
attributes are collective. In *safe mode* the processes first agree that none has an error, then
compare their arguments with those of the root by broadcasts, agree again, and only then call the
I/O driver. The four groups of results are these.

**Collective calls in safe mode** (`NetCDF`, `NcmpioDriver`, `Dispatch`, `FileRecord`, `Undo`, `Network`,
`Collective`, `Agreement`, `SafeMode`, `Session`, `CallEnds`, `Program`, `TwoCalls`, `OutOfStep`,
`CheckMode`). Any number of processes enter and leave collectives one at a time in any order.
`Network` is about any processes of that kind: every interleaving computes the lockstep execution.
`Agreement`, `SafeMode`, `Session` and `CallEnds` are about one call, each process with arguments of
its own: what it decides is stated from the arguments alone, and exactly when every interleaving ends
well. `Program` is about whole programs: each process makes its calls one after the other, and goes
on to the next as soon as it has returned from the last, so that processes are in different calls at
the same time. If every call goes well on the record it finds, no two processes ever meet in
different collectives, nobody is stuck, every run ends, and processes that have made equally many
calls have equal records, which agree with the drivers. `TwoCalls` and `OutOfStep` are about the
programs in which that does not hold because some processes leave `ncmpi_del_att` early. `Dispatch`
gives the record and the effect of a call as values; `FileRecord.PNC` is the object that the
dispatcher updates in place, each method proved against that specification.

**State of the dispatcher** (`HandleTable`, `CStrings`, `Hints`, `CreateMode`). The table of open
files under any history of locked operations; the two compiled ways of taking the environment
variable PNETCDF_HINTS apart in place, with the exact condition under which they agree; and the
choice of the file format.

**The two-level barrier** (`TwoLevelBarrier`) of `examples/C/pthread.c`: all interleavings of all
threads of all processes, and why it has to be the first thread that joins the outer barrier.

**Decompositions** (`Arithmetic`, `RankGrid`, `Transpose`, `TransposeExample`, `GhostCells`,
`GridFormula`, `BlockCyclic`, `Partitions`, `Permute`, `SameView`): exact tilings and permutations for any
sizes, ranks and numbers of dimensions.

## What the proofs say about the code

Places where the code does not do what it evidently means to, each with its exact condition:

- `ncmpi_del_att` returns before the first agreement on a bad variable id. If the processes part
  there, those that go on wait in the first agreement until every one that has returned enters the
  first agreement of a later call. If all of them come to such a call the others are released, in
  every run that goes on for as long as it can; if not, in none (`OutOfStep.DelAttReleasedIff`).
  From then on the processes are in different calls. Every such run brings everybody back from
  these, without mismatched collectives, if somebody has an error, so that all return at once, or if
  the call ahead compares a name and one id as `ncmpi_del_att` does: `ncmpi_rename_var`,
  `ncmpi_rename_dim` or `ncmpi_del_att` again. One case needs yet another call: a dimension renamed
  to the name it has, which is what the others delete, because the driver is not asked for that.
  Otherwise no run does (`OutOfStep.InStepIff`). A process that calls `ncmpi_enddef` after its early
  return is an example (`OutOfStep.BadDelAttExample`).
- The driver's comparison in `ncmpi_def_var_fill` broadcasts a fill value with a count taken from
  each process's own variable, after the ids have been found to differ but before that is acted
  upon. With variables of different element sizes no run ends without mismatched broadcasts
  (`CallEnds.DefVarFillMismatches`).
- Its second agreement lets a process with a complaint of its own return that instead of the minimum.
  All processes return one code unless one differs from the root in the ids and another in the value
  alone (`Session.OneCodeIff`); three processes can return -272, -269 and -272
  (`Session.DifferentCodes`).
- `ncmpi_rename_att` allocates a buffer of the length that the root's new name needs and then has
  every process copy its own new name into it (attribute.c:326-327; everywhere else only the root
  copies). Exactly the processes whose new name is longer than the root's write past the buffer
  (`SafeMode.WillSpillIff`). Those three are all that can go wrong in one call (`CallEnds.CallEndsIff`);
  `CallEnds.ExamplesFail` has an input for each.
- `ncmpi_def_var_fill` has two refusals in the driver, and both come when fill mode has been switched
  on for the variable already (`Dispatch.RefusedFillIff`). A value for a variable that was there when
  define mode was entered again is late; and if the driver has left define mode while the dispatcher
  has not, a value needs the place of an earlier one (`Dispatch.FillRefusedIff`). The second is
  possible only behind a call that has parted the modes (`Dispatch.FillWhileAgreed`,
  `Dispatch.FillBehindParting`, `Program.FillCodeAt`; examples are `Undo.LateFillExample` and
  `Undo.PartedFillExample`). So leaving define mode and entering it again is not without effect
  (`Undo.ReenterDefineIff`).
- If the driver finds nothing to refuse, but fails to write the header or to fill new variables, it
  has left define mode and the dispatcher stays in it alone (`Dispatch.ModesAgreeIff`). That can
  happen to every file whose variables have legal sizes, and to no other (`Dispatch.ModesMayPartIff`).
  Likewise the driver leaves the independent mode, and the dispatcher does not, if the number of
  records cannot be written. In a program the modes agree up to the first call of these kinds
  (`Program.AgreeWhileIff`).
- `ncmpi_open` never sets the counter of record variables; the distance it starts with is kept by
  every call (`Dispatch.RecordCounterDrift`), and the numbers of variables that are reported are off by
  it (`FileRecord.PNC.InqNumVars`).
- `ncmpi_fill_var_rec` calls the driver in spite of a failed check whenever safe mode is off
  (`CheckMode.FillRecUnguarded`).
- The C++ guard `ncmpiCheckDataMode` is content with a code that, in safe mode, a process in define
  mode also gets if any other is in data mode (`CheckMode.DataModeGuardIff`).
- `PNC_check_id` accepts free slots unless the table is empty or full
  (`HandleTable.CheckedIffLive`); a fatal driver error on create or open leaves a file registered if
  the comparison of the modes had complained before (`HandleTable.FileList.Register`); and two
  threads that close one file leave the counter short by one (`HandleTable.CounterDrift`).
- The two hint parsers differ: the one without `strtok_r` cuts a hint off behind its first word
  while testing it for blanks, so that a blank before the `=` loses the hint (`Hints.AlikeIff`,
  `Hints.BlankBeforeEquals`). They lead to one info object if and only if both or neither make a
  call and the last value of every key is the same (`Hints.VariantsAgreeIff`), which is decided by
  the hints that are read differently and not made up for later (`Hints.VariantsAgreeOnText`). The comment in the source promises the form `hint=value` only.
- The grid formula `(rank % p0, (rank / p1) % p1)` gives every rank a block of its own exactly when
  p1 divides p0 and shares no divisor with the quotient (`GridFormula.TilesIff`); a third dimension
  changes nothing (`GridFormula.Injective3Iff`).
- Without a format flag in the root's mode, processes with different defaults choose different
  formats (`CreateMode.ChoiceIsCommonIff`).

## Model

| member | source | states |
|---|---|---|
| Network.RunFollows | src/dispatchers/dimension.c:105-157 | every interleaving of processes that enter and leave the collectives one by one stays on the lockstep execution: each process is where that puts it, and the log of contributions is exact |
| Network.NoMismatch | src/dispatchers/variable.c:129-199 | no interleaving ever has two processes in the same round with collectives of different kind, count or type |
| Network.FinalIsLockstep | src/dispatchers/variable.c:129-199 | when all processes have returned, their states are those at the end of the lockstep execution |
| Network.Progress | src/dispatchers/dimension.c:105-152 | as long as a process has not returned, some process can move: no deadlock |
| Network.RunsEnd | src/dispatchers/dimension.c:105-152 | every interleaving ends, after at most two moves per process and round |
| Network.RunAlong | src/dispatchers/dimension.c:105-152 | some interleaving takes everybody to the end of a lockstep execution, without mismatch and nobody further |
| Network.MatchedBefore | src/dispatchers/variable.c:129-199 | in every run, whatever comes later, the rounds of a lockstep execution are matched |
| Network.DoneStrands | src/dispatchers/attribute.c:384-386 | a process that waits in an agreement is never released if another has returned for good without joining it |
| Network.NobodyLeavesAlone | src/dispatchers/attribute.c:400-403 | nobody leaves an agreement before every process has entered its collective of that round |
| Network.UnequalRoundMismatches | src/drivers/ncmpio/ncmpio_fill.c:786-797 | if after matched rounds two processes enter collectives that do not match, no run takes both past them without pairing them |
| Agreement.HeadThenBody | src/dispatchers/variable.c:142-192 | the two broadcasts for one argument complain exactly when comparing the argument with the root's does, including the body that is only sent if the root's count is positive |
| Agreement.SyncUniform | src/dispatchers/variable.c:129-199 | processes in the same place of the same call enter collectives that match, counts included |
| Agreement.RoundKeepsVerdict | src/dispatchers/attribute.c:288-350 | the verdict read off the arguments at the start is kept by every round: first agreement, comparisons, second agreement, driver |
| Agreement.RoundKeepsWillSpill | src/dispatchers/attribute.c:318-332 | and so is the prediction who will have written past the end of a buffer |
| Agreement.EveryRunDecides | src/dispatchers/attribute.c:288-355 | under every interleaving: no mismatch, no deadlock, and everybody returns the verdict |
| SafeMode.NamesCompared | src/dispatchers/attribute.c:301-321 | the assertions that a name is not NULL hold for every process that has passed its local checks |
| SafeMode.ComplaintIffDifferent | src/dispatchers/variable.c:142-192 | the chain of comparisons leaves no complaint if and only if the call's arguments are the root's; dimension ids beyond the count are not looked at |
| SafeMode.WorldOrderly | src/dispatchers/dimension.c:105-157 | whatever the arguments of all processes, a safe-mode call is orderly unless they part at the early return of del_att or at the size of a fill value |
| SafeMode.WillSpillIff | src/dispatchers/attribute.c:326-327 | process i writes past the buffer for the root's new name if and only if all pass their checks and its own new name is longer |
| SafeMode.SafeCallDecides | src/dispatchers/variable.c:129-207 | the exact decision: the driver is called by everybody if no process has a local error and all arguments are the root's, and by nobody otherwise; the codes returned are the smallest local error, else the smallest complaint (in ncmpi_def_var_fill one's own first), else the driver's; exactly who has written past a buffer; no interleaving mismatches, is stuck, or takes more than twenty moves per process |
| Session.NextRecordKeeps | src/dispatchers/variable.c:129-235 | the record after a call, which changes exactly if all pass their checks and ask for the same, agrees with the driver again |
| Session.DecidedRecord | src/dispatchers/variable.c:199-235 | every process's record after the call is that one record |
| Session.ZeroIff | src/dispatchers/variable.c:129-207 | a process returns zero exactly if all pass, ask for the same, and the driver has no error |
| Session.OneCodeIff | src/drivers/ncmpio/ncmpio_fill.c:775-806 | all processes return one code if and only if not: all pass their checks of ncmpi_def_var_fill, some process differs from the root in variable, mode or NULL-ness of the value, and some other one in the value alone |
| Session.DifferentCodes | src/drivers/ncmpio/ncmpio_fill.c:781-803 | three processes whose call goes well return -272, -269 and -272 |
| CallEnds.DelAttWaits | src/dispatchers/attribute.c:384-407 | if some processes leave del_att by its early return and make no other call, those that do not leave it never return |
| CallEnds.DefVarFillMismatches | src/drivers/ncmpio/ncmpio_fill.c:769-806 | with a fill value from the root and variables of different element sizes, no run of def_var_fill ends without mismatched broadcasts |
| CallEnds.CallEndsIff | src/dispatchers/attribute.c:363-448 | every maximal run of a call brings everybody back without mismatched collectives and without writes past a buffer if and only if the processes part neither at the early return of del_att nor at the size of a fill value, and nobody's new attribute name is longer than the root's; otherwise no run does |
| CallEnds.ExamplesFail | src/dispatchers/attribute.c:326-327 | a consistent file and arguments for each of the three failures |
| Program.EveryInterleaving | src/dispatchers/file.c:883-1008 | any program of the thirteen calls with arbitrary arguments per process in which each call goes well on the record it finds, in every interleaving, processes in different calls included: no mismatch, no deadlock, a bound on the moves, everybody makes all calls, and at every moment each process's record and codes are those that the program determines for as many calls as it has made |
| Program.EqualCallsEqualRecords | src/dispatchers/file.c:883-1008 | processes that have made equally many calls have equal records, however far apart the others are |
| Program.EqualCodes | src/dispatchers/dimension.c:111-154 | two processes that have made a call have the same code from it, for every call of which Session.OneCodeIff says that it has one |
| Program.RecordsFaithful | src/dispatchers/variable.c:203-235 | after every call of a program the record agrees with the driver, is not in define mode if read-only, has kept its unlimited dimension and the distance of the record counter |
| Program.ReadOnlyUnchanged | src/dispatchers/dimension.c:35-38 | no program changes a read-only file's dimensions, variables, attributes or define mode |
| Program.AgreeWhileIff | src/dispatchers/file.c:904-909 | the modes of dispatchers and drivers agree throughout the first k calls of a program if and only if none of these parts them |
| Program.FillCodeAt | src/drivers/ncmpio/ncmpio_attr.m4:985-1026 | until then a def_var_fill that all ask for alike returns the code of a late value to all processes if the variable is older than the last redef and a value is given, and zero to all otherwise |
| Program.SmoothIff | src/dispatchers/attribute.c:363-448 | a program goes well if and only if each of its calls does on the record that the calls before have left |
| OutOfStep.DelAttReleasedIff | src/dispatchers/attribute.c:384-403 | a call of a program is a del_att that some processes leave early: the others pass its first agreement only when every process has entered it or that of a later call, and do so, in every maximal run and in any, if and only if every process comes to a collective before its program ends |
| OutOfStep.InStepIff | src/dispatchers/attribute.c:384-448 | after that, every maximal run brings everybody back from the calls they have met in, with no mismatch up to there, if and only if, by the calls' arguments, somebody has an error there, or all the calls compare a name and one id, and when all names and ids are equal whoever skips the driver has another collective to come; otherwise no run does |
| OutOfStep.BadDelAttExample | src/dispatchers/attribute.c:384-407 | with a bad id on one of two processes and ncmpi_enddef as the next call, the other is released in some run, and no run without mismatch brings both back |
| TwoCalls.OtherCallParts | src/dispatchers/dimension.c:105-152 | a process in del_att and one in a call that is not like it come, after rounds that match, to collectives that do not |
| TwoCalls.DriverParts | src/dispatchers/dimension.c:296-339 | if nobody objects, those whom the driver is not asked for return while the others wait in the driver |
| TwoCalls.AllEnd | src/dispatchers/variable.c:652-704 | with an error somewhere, or with comparisons of the same shape and the driver asked for by all, everybody comes to the end of the call |
| Dispatch.AfterKeepsConsistent | src/dispatchers/variable.c:203-235 | after every call and every outcome of the driver, the counts, the unlimited dimension and each cached variable are what the driver would answer |
| Dispatch.RecordCounterDrift | src/dispatchers/variable.c:214-233 | the record counter moves with the cached record variables: their distance never changes |
| Dispatch.UnlimitedDimensionStays | src/dispatchers/dimension.c:81-85 | once set, the unlimited dimension is never replaced, and no definition of another passes |
| Dispatch.ReadOnlyKept | src/dispatchers/file.c:986-1008 | a read-only file never enters define mode |
| Dispatch.ReadOnlyNeverDefined | src/dispatchers/dimension.c:35-38 | on a read-only file no definition, rename, attribute change, enddef or redef passes its local checks, although some of them test the define mode alone |
| Dispatch.ModesAgreeIff | src/dispatchers/file.c:904-909 | the dispatcher's and the driver's modes stay in agreement if and only if the call is neither an enddef in which the driver refuses nothing and then fails to write the header or to fill variables, nor an end of the independent mode in which it fails to write the number of records |
| Dispatch.ModesMayPartIff | src/drivers/ncmpio/ncmpio_enddef.c:910-1030 | an enddef can leave the modes apart, for some outcome of the file operations, if and only if the sizes of all variables are legal; if they are not, it is refused whatever the file does |
| Dispatch.FillRefusedIff | src/drivers/ncmpio/ncmpio_attr.m4:985-1027 | the three outcomes of def_var_fill in the driver, each with its exact condition: a late value, a value for which there is no place outside define mode, success |
| Dispatch.RefusedFillIff | src/drivers/ncmpio/ncmpio_fill.c:811-823 | refused for either reason, it leaves the record as it was if and only if the variable was in fill mode before; no value is set |
| Dispatch.FillBehindRedef | src/drivers/ncmpio/ncmpio_file_misc.c:99-105 | right behind a redef every fill value is late |
| Dispatch.FillWhileAgreed | src/drivers/ncmpio/ncmpio_attr.m4:1013-1026 | as long as the dispatcher's mode is the driver's, a fill value is refused for being late only |
| Dispatch.FillBehindParting | src/drivers/ncmpio/ncmpio_enddef.c:1009-1020 | behind an enddef that has parted the modes no value is late, and one is refused if and only if the variable has no fill value yet or a smaller one |
| Undo.DefDimLookup | src/dispatchers/dimension.c:156-165 | after a definition the name leads to the old count as its id, every other name to where it led before, with the same length |
| Undo.DefVarLookup | src/dispatchers/variable.c:203-207 | likewise for variables, whose type and dimensions are those passed |
| Undo.RenameDimLookup | src/dispatchers/dimension.c:335-338 | after a renaming the new name leads to the dimension, the old one nowhere, any other where it did |
| Undo.RenameVarLookup | src/dispatchers/variable.c:702-703 | likewise for variables |
| Undo.RenameDimBackIff | src/drivers/ncmpio/ncmpio_dim.c:296-371 | renaming back restores the record if and only if the file is in define mode or the names are equally long; otherwise it is refused and changes nothing |
| Undo.RenameVarBackIff | src/drivers/ncmpio/ncmpio_var.c:540-615 | likewise for a variable |
| Undo.RenameAttBackIff | src/drivers/ncmpio/ncmpio_attr.m4:416-515 | likewise for an attribute |
| Undo.DeleteCopied | src/drivers/ncmpio/ncmpio_attr.m4:521-720 | deleting a copied attribute where there was none before restores the record |
| Undo.ReenterDefineIff | src/dispatchers/file.c:883-1008 | leaving define mode and entering it again restores the record if and only if no independent mode had been left behind, define mode had been entered with all the variables there are, and the record variables among them had been counted; a fill value is refused for every variable afterwards |
| Undo.LateFillExample | src/drivers/ncmpio/ncmpio_attr.m4:985-989 | a fill value that is accepted in the first define mode is refused in the second, with fill mode switched on |
| Undo.PartedFillExample | src/drivers/ncmpio/ncmpio_attr.m4:1022-1026 | a fill value that is accepted before an enddef that cannot write the header is refused after it, with fill mode switched on and no value set |
| FileRecord.PNC.Create | src/dispatchers/file.c:508-522 | the record of a new file agrees with an empty driver, is in define mode, and counts its record variables rightly |
| FileRecord.PNC.Open | src/dispatchers/file.c:765-830 | the record of an opened file agrees with the driver, variable by variable, in an array rounded up to the chunk; its record counter is whatever memory held, and off by that less the file's record variables |
| FileRecord.PNC.DefDim | src/dispatchers/dimension.c:35-167 | result and record are those of the specification for every argument; the new id is the old count |
| FileRecord.PNC.RenameDim | src/dispatchers/dimension.c:236-339 | likewise, with the driver not called if the name is the dimension's already |
| FileRecord.PNC.DefVar | src/dispatchers/variable.c:38-235 | likewise, and the id the driver gives out is the old count, as the source asserts |
| FileRecord.PNC.CacheVar | src/dispatchers/variable.c:207-233 | the new entry is appended, earlier entries survive the growth of the array, and the counter of record variables moves exactly if the entry is one |
| FileRecord.PNC.Reserve | src/dispatchers/variable.c:209-212 | the array has room for one more, its length rounded up to the chunk, with the same entries |
| FileRecord.PNC.RenameVar | src/dispatchers/variable.c:601-704 | result and record are those of the specification for every argument |
| FileRecord.PNC.DefVarFill | src/dispatchers/variable.c:241-284 | likewise, both refusals of the driver with their partial change included |
| FileRecord.PNC.CopyAtt | src/dispatchers/attribute.c:128-231 | likewise, within one file |
| FileRecord.PNC.RenameAtt | src/dispatchers/attribute.c:238-356 | likewise, for one process |
| FileRecord.PNC.DelAtt | src/dispatchers/attribute.c:363-448 | likewise |
| FileRecord.PNC.CountLarge | src/drivers/ncmpio/ncmpio_enddef.c:620-688 | one pass over the variables finds whether any of a kind is too large, whether only the last of the kind is, and whether there are others |
| FileRecord.PNC.CheckVlens | src/drivers/ncmpio/ncmpio_enddef.c:593-689 | the two passes accept the sizes exactly if they are legal: none too large but the last record variable, or the last variable of fixed size where there is no record variable, and none at all in the format with 64-bit sizes |
| FileRecord.PNC.DriverEnddef | src/drivers/ncmpio/ncmpio_enddef.c:910-1030 | the driver's steps, for every outcome of the file operations: what it returns, and that it stays in define mode exactly if a step before the writing of the header fails |
| FileRecord.PNC.Enddef | src/dispatchers/file.c:883-909 | result and record are those of the specification for every outcome of the driver's file operations |
| FileRecord.PNC.EnddefAlign | src/dispatchers/file.c:915-980 | likewise, with the check of the four alignments |
| FileRecord.PNC.Redef | src/dispatchers/file.c:986-1008 | likewise, with the header that the driver puts aside |
| FileRecord.PNC.BeginIndep | src/dispatchers/file.c:1548-1563 | likewise |
| FileRecord.PNC.EndIndep | src/dispatchers/file.c:1568-1583 | likewise, for a failure to write the number of records too |
| FileRecord.PNC.InqNumVars | src/dispatchers/file.c:1327-1390 | the numbers of fixed and record variables reported are those of the driver's metadata, off by what the record counter was off at the birth of the record: nothing for a created file |
| CheckMode.CheckDefineMode | src/binding/cxx/ncmpiCheck.cpp:85-89 | throws exactly on a read-only file, and otherwise returns in define mode |
| CheckMode.CheckDataMode | src/binding/cxx/ncmpiCheck.cpp:91-95 | returns in data mode unless the driver fails |
| CheckMode.DataModeGuardIff | src/binding/cxx/ncmpiCheck.cpp:91-95 | on several processes in safe mode, everybody comes back from the guard in data mode if and only if all were in the same mode before |
| CheckMode.FillRecUnguarded | src/dispatchers/variable.c:550-595 | the driver is called with arguments that the checks have refused if and only if safe mode is off and some check fails |
| CreateMode.ChoiceIsCommonIff | src/dispatchers/file.c:396-425 | all processes choose the same format if and only if the root's mode has a format flag or their defaults are equal |
| CreateMode.WhoComplains | src/dispatchers/file.c:318-336 | in safe mode everybody reports differing modes, and only differing ones; otherwise each process whose mode is not the root's |
| CreateMode.VersionRoundTripIff | src/dispatchers/file.c:1211-1235 | the mode reported of a file chooses its format again, under any default, except for NetCDF-4 formats that the library is built without |
| CreateMode.KeptModeIff | src/dispatchers/file.c:413-425 | exactly when the mode kept with a file chooses its format again |
| HandleTable.FileList.NewId | src/dispatchers/file.c:59-86 | succeeds exactly if a slot is free, and takes the lowest one |
| HandleTable.FileList.Delete | src/dispatchers/file.c:90-103 | frees the slot and lowers the counter, whether or not the slot was in use |
| HandleTable.FileList.CheckId | src/dispatchers/file.c:124-144 | rejects ids out of range and all ids while no file is open; anything else is accepted with whatever the slot holds |
| HandleTable.FileList.InqFilesOpened | src/dispatchers/file.c:1669-1696 | the ids of the open files, each once, all of them, in increasing order |
| HandleTable.FileList.Register | src/dispatchers/file.c:468-493 | a create or open that fails leaves the table as it was; one whose driver fails fatally leaves a file registered exactly if the modes had been found to differ |
| HandleTable.CounterDrift | src/dispatchers/file.c:59-103 | over any history the counter is the number of occupied slots less the number of deletions of free slots |
| HandleTable.CheckedIffLive | src/dispatchers/file.c:134-137 | the id check accepts exactly the live ids if and only if no file is open or all slots are taken |
| CStrings.Strtok | src/dispatchers/file.c:171-192 | the library function on a buffer: which bytes change, where the token is, and where the rest starts |
| CStrings.TokensSplit | src/dispatchers/file.c:185-187 | a delimiter separates the tokens before it from those after it |
| Hints.ParseStrtokR | src/dispatchers/file.c:167-198 | the variant with strtok_r, in place: the calls it makes are those of its reading of each text between semicolons, empty ones included |
| Hints.ParseStrtok | src/dispatchers/file.c:199-248 | the variant with strtok and strchr, in place: likewise, each hint read only up to the end of its first word |
| Hints.HintStrtokR | src/dispatchers/file.c:174-194 | one hint: skipped without an equals sign or with three tokens or more |
| Hints.HintStrtok | src/dispatchers/file.c:214-245 | one hint: cut off behind its first word, then one token before the equals sign and at most one after it |
| Hints.TokensOrSegments | src/dispatchers/file.c:172-195 | going by tokens or going by semicolons meets the same hints |
| Hints.AlikeIff | src/dispatchers/file.c:174-245 | the exact condition, in counts of tokens, under which the two variants treat a hint alike |
| Hints.SameEffectIff | src/dispatchers/file.c:154-165 | two lists of settings lead to the same info object from every user's object if and only if both or neither are empty and the last effective value of each key is the same |
| Hints.VariantsAgreeIff | src/dispatchers/file.c:167-248 | that condition for the calls that the two variants make for one variable; it holds, with the same calls, if every hint is treated alike |
| Hints.VariantsAgreeOnText | src/dispatchers/file.c:167-248 | the same in terms of the text: one info object if and only if both variants or neither make a call and, for each hint that they read differently and that no later hint read alike makes up for, the last values of its key are the same |
| Hints.RepeatedHint | src/dispatchers/file.c:214-227 | a hint that only one variant takes, followed by the same in plain form: different calls, one info object; without the repetition two |
| Hints.BlankBeforeEquals | src/dispatchers/file.c:214-227 | a key, a blank and an equals sign: one variant takes the hint, the other does not |
| Hints.RoundTrip | src/dispatchers/file.c:154-158 | printing well-formed hints joined by semicolons and parsing them in either way yields them, in order |
| Hints.EnvironmentOverrides | src/dispatchers/file.c:154-165 | the settings are the user's overridden by the hints, the last of a key counting |
| TwoLevelBarrier.Safe | examples/C/pthread.c:192-207 | in every interleaving a thread opens its neighbour's file only after the writer has written all of it and closed it, and no thread counts an error |
| TwoLevelBarrier.SafeIffFirstLeads | examples/C/pthread.c:194-204 | for the shift by one, all interleavings are safe if and only if the first thread of each process joins the outer barrier, or there is one process |
| TwoLevelBarrier.EachFileReadOnce | examples/C/pthread.c:203-205 | every file is read by exactly one thread |
| TwoLevelBarrier.NoDeadlock | examples/C/pthread.c:194-199 | some thread can move unless all have finished |
| TwoLevelBarrier.RunsEnd | examples/C/pthread.c:131-259 | every interleaving ends, after at most sixteen steps a thread |
| RankGrid.GridPoint | examples/C/transpose.c:117-123 | the loop finds the position in the process grid whose row-major number is the rank |
| RankGrid.RanksAreGridPoints | examples/C/transpose.c:117-123 | ranks and grid points correspond one to one, in any number of dimensions |
| RankGrid.BlocksTile | examples/C/transpose.c:130-136 | a cell lies in the block of its owner and of no other rank |
| RankGrid.BlockInside | examples/C/transpose.c:130-136 | no block sticks out of the array |
| Transpose.DotPermuted | examples/C/transpose.c:209-246 | permuting an index and the memory map alike addresses the same memory cell |
| Transpose.WriteIsTranspose | examples/C/transpose.c:209-246 | a transposed write puts the number of the untransposed position into every cell of its block, and changes no other |
| Transpose.TransposedFile | examples/C/transpose.c:204-246 | after writes by all ranks in any order the variable is the exact transposition of the array of row-major numbers, for any permutation of any number of dimensions |
| TransposeExample.Block | examples/C/transpose.c:119-136 | the loops compute the block of the rank, the global sizes and the size of the buffer |
| TransposeExample.Fill3 | examples/C/transpose.c:138-146 | the triple loop fills the buffer with the numbers of the block's cells |
| TransposeExample.SixMaps | examples/C/transpose.c:209-243 | the six hand-written starts, counts and memory maps are one permutation each of the starts, the counts and the strides |
| TransposeExample.RankWrites | examples/C/transpose.c:204-246 | what a rank does to the six variables is its transposed write of each |
| TransposeExample.SixVariables | examples/C/transpose.c:204-246 | in each of the six variables the cell of (z, y, x) holds its number in the global array |
| TransposeExample.ReadBackMatches | examples/C/transpose2D.c:216-231 | a rank that has written the transposed variable reads back what it expects, whatever the others have done |
| GhostCells.Fill | examples/C/ghost_cell.c:163-174 | the loops put the rank inside and another value on the border |
| GhostCells.VisitsInterior | examples/C/ghost_cell.c:196-204 | the memory map visits every interior cell exactly once and no ghost cell |
| GhostCells.GridPointOf | examples/C/ghost_cell.c:149-152 | quotient and remainder are the row-major grid point |
| GhostCells.FileHoldsOwners | examples/C/ghost_cell.c:196-204 | after writes by all ranks in any order every cell holds its owner, and no ghost value is in the file |
| GridFormula.InjectiveIff | benchmarks/C/aggregation.c:253-258 | the formula gives different ranks different grid points if and only if p1 divides p0 and shares no divisor with the quotient |
| GridFormula.TilesIff | benchmarks/C/write_block_read_column.c:161-164 | and exactly then every grid point has one rank |
| GridFormula.SquareTiles | benchmarks/C/aggregation.c:253-258 | square grids are good ones, and single columns |
| GridFormula.ThreeByTwoFails | benchmarks/C/aggregation.c:253-258 | in a grid of three by two, ranks 1 and 4 share a block |
| GridFormula.Injective3Iff | examples/C/collective_write.c:138-149 | in three dimensions the same condition on the first two decides |
| BlockCyclic.Schedule | examples/C/block_cyclic.c:207-232 | the loop emits the closed form of the schedule, last shorter blocks included |
| BlockCyclic.ColumnsTile | examples/C/block_cyclic.c:207-232 | the columns of all ranks are disjoint and cover the array exactly, whether or not the block length divides the number of columns |
| BlockCyclic.ReadsBack | examples/C/block_cyclic.c:285-328 | after all column writes, completed in any order, no zero is left and every rank reads its own mark from every column of its schedule |
| Partitions.Piece | benchmarks/C/write_block_read_column.c:247-257 | the adjusted start and count are a piece that ends where the next one starts, with sizes that differ by one at most |
| Partitions.PiecesTile | benchmarks/C/write_block_read_column.c:247-257 | every column is in the piece of exactly one rank |
| Partitions.Cyclic | examples/C/column_wise.c:194-207 | the loop emits every nprocs-th column from the rank on |
| Partitions.CyclicTiles | benchmarks/C/aggregation.c:263-275 | the cyclic columns of all ranks are disjoint and cover the array exactly |
| Partitions.EachPartReadOnce | benchmarks/C/aggregation.c:366-368 | the rotation has every part read by exactly one rank, and by another than its writer if there are two or more |
| Partitions.HalvesTile | benchmarks/C/aggregation.c:276-297 | two halves a row block tile the variable, also when its length is odd |
| Permute.TypeMapMoves | examples/tutorial/pnetcdf-permute.c:129-138 | the nested derived datatype takes every element at its transposed place: its type map is a permutation of the array |
| Permute.TransposeByHand | examples/tutorial/pnetcdf-permute.c:98-110 | the triple loop's transposed copy is what the derived datatype reads out of the array |
| SameView.RowBlocks | examples/C/vard_mvars.c:233-246 | the list of rows built by the loop has the type map of the subarray |
| SameView.ViewsTile | examples/C/vard_mvars.c:218-232 | the views of all ranks tile the array |

The assumptions behind the rows: MPI behaves as its standard says (MPI 3.1, section 5.13 for
collectives and section 4.1.2 for type maps); a broadcast releases the root at once and the others
when the root has come, an allreduce releases nobody before everybody has come; allreduce with MIN
yields the minimum; error codes are negative. Integers are unbounded where the source's `int` and
`MPI_Offset` do not overflow for the sizes in question. `put_varm` reads element idx of a block from
memory cell sum of idx[d] * imap[d].

## Left out

- The I/O drivers beyond their metadata: `Dispatch` uses the metadata functions of the default driver (src/drivers/ncmpio); file layout, request merging, burst buffering, synchronisation of the number of records and NetCDF-4 are not part of this model.
- What leaving define mode or the independent mode does to the file: laying out, checking the order, moving, writing and filling are outcomes, zero or an error each, that are the same on all processes; which of them the driver comes to is modelled.
- The driver's own collectives in ncmpi_enddef, and those of ncmpi_redef and ncmpi_end_indep_data, which synchronise the number of records; and the subfiles of ENABLE_SUBFILING.
- Program.EveryInterleaving: these collectives are not among its rounds. They follow the modelled ones of their call, on equal records, on all processes.
- FileRecord.PNC.EndIndep: the failures of the synchronisation other than one that all processes get to know, which is that of the root's writing; and the number of records is taken to be equal on all processes.
- FileRecord.PNC.BeginIndep: opening the file a second time does not fail.
- The writing of the header by a renaming or an attribute change in data mode, and its failures.
- What becomes of a process that has written past a buffer: a call that goes well has none, and for the others SafeMode.SafeCallDecides says what happens if the write has hit nothing else.
- Programs in which some processes leave ncmpi_del_att early are followed up to the end of the calls they meet in, not further.
- ncmpi_fill_var_rec: the rounds of its driver are not modelled, only whether it is called.
- The driver's failures for lack of memory or of attribute slots, and failures of MPI calls.
- Names: a character above 0x7f stands for one well-formed multi-byte sequence, so UTF-8 validity and normalisation are not modelled.
- FileRecord.PNC.CopyAtt: copies within one file; ncmpi_copy_att also copies between two open files.
- Hints.EnvironmentOverrides: MPI's limits on the length of keys and values are not modelled; a NULL key or value is refused without effect.
- ncmpi_set_fill, the inquiry functions that only pass a question on, sync, flush, abort, and all data access in the library itself.
- The strict-bound and create bits of a file's flags, which none of the modelled functions reads.
- The lifetime of memory: the argument structure that pthread.c shares with its threads, and the reading of more dimension ids than a process has passed; arguments are stable values.
- The locks of the handle table: each operation is one step of a history, in the order in which the lock is taken.
- Transposed variables and schedules are values of cells; the file format, alignment and collective buffering below them are not modelled.
- How MPI chooses process grids; results hold for any grid whose sizes multiply to the number of ranks.
- Error strings, exceptions, type wrappers, and the C++ and Fortran copies of the C examples, which repeat the same arithmetic.
