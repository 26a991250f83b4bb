# SCVMM adapter model

This project models the core of the System Center Virtual Machine Manager
adapter in `wrapanapi/systems/scvmm.py`, in Dafny:

- **The deserializer.** The manager answers a query with `ConvertTo-Xml` text.
  The model turns the parsed element tree into records, lists and scalars,
  as `parse_data`, `SCVMMDataHolderDict` and `SCVMMDataHolderList` do, and it
  models the XPath selections the listing methods run over the same tree.
- **The state vocabulary.** This covers `SCVM.state_map` and the status-string
  sets of `SCVMMSystem`.
- **The command sequencer.** This covers the methods of `SCVM` and
  `SCVMMSystem` that talk to the manager, including the
  `disconnect_dvd_drives` loop. Three of them are left out: `vm_creation_time`,
  `all_vms` and `vm_hardware_configuration` (see "Left out").

The WinRM session is a recording fake, the class `Scvmm.Session`:
- It appends every action it is given to its `log`.
- It answers from `remote`, a fixed function of the actions sent so far and
  the current action.

A PowerShell script is recorded as a `Commands.Command` token that names its
cmdlet and flags. The abstract actions of the base classes are recorded the
same way. These are `ensure_state`, `is_suspended`, `refresh`, `start_vm` and
`wait_vm_running`; a non-zero status means they raised.

`lxml.etree.fromstring` is the abstract function `System.parse`, which is
`None` for text that is not XML.

Every contract holds for every `remote` and every `parse`, with one
exception: `System.DisconnectDvdDrives` requires `DrivesDrain`, a condition
on `remote` (see "Left out"). Two orderings are kept as the predicate
`Commands.WellSequenced`, through the class invariant `System.Valid`. The
`System` constructor establishes `Valid`. Every method of `System` and `Vm`
keeps it, except four raw helpers that promise nothing about it, because given
a `Remove` or `Set` they would send it unguarded: `System.RunScript`
(`run_script`), `System.Perform` (a base-class action), `System.Step` (one
action of a plan) and `Vm.DoAction` (`_do_vm`). The sequencing operations
built on them keep `Valid`.
The orderings are:
- A `Remove` or `Set` of a VM comes right after `ensure_state(STOPPED)` on
  that VM.
- A template change the manager accepted is followed at once by the library
  refresh.

Files:
- `wrappers.dfy`: `Option` and `Result`.
- `text.dfy`: the Python 2 `str` behaviour the adapter relies on. This is
  `strip`, `lower`, `int()`, `translate(None, '{}')`, and the address regex
  `[0-9]+(?:.[0-9]+){3}`.
- `property_tree.dfy`: the element tree, `parse_data`, the data holders as
  specification functions with loop methods proved against them, and the
  XPath selections.
- `vm_states.dfy`: the state tables.
- `commands.dfy`: the command tokens, replies and failures. It also holds
  `Steps`, which runs a plan in order and stops at the first failing action,
  the orderings, the operation plans, and the DVD-loop bookkeeping.
- `scvmm.dfy`: the classes `Session`, `System` (`SCVMMSystem`) and `Vm`
  (`SCVM`).

Where the code and its written description differ, the model follows the code:
- `parse_data` has no `System.String` branch that returns the text. Every
  string whose text is not `none` falls off the end of the function and gives
  `None`; see `PropertyTree.ParseDataString`.
- `"Stopped"` is in `STATES_STOPPED` but has no `state_map` entry; see
  `VmStates.StoppedSpellingUnmapped`.
- A `Property` without a `Type` attribute raises a `KeyError`, which is
  modelled as `MissingAttribute`. There is no separate malformed-tree error.

## Model

| member | source | states |
|---|---|---|
| Text.Strip | wrapanapi/systems/scvmm.py:177 | `strip()`: no longer than its input, no whitespace at either end of the result, and empty exactly when the input is all whitespace (which slice it keeps: `Text.StripIsSlice`, `Text.StripPadded`) |
| Text.StripIsSlice | wrapanapi/systems/scvmm.py:177 | `strip()` returns a slice of its input with only whitespace before and after it |
| Text.StripPadded | wrapanapi/systems/scvmm.py:177 | whitespace, then a text that neither begins nor ends with whitespace, then whitespace, strips to exactly that text |
| Text.Lower | wrapanapi/systems/scvmm.py:439 | `lower()`: the same length, each character lower-cased |
| Text.ParseInt | wrapanapi/systems/scvmm.py:441 | `int()` on a text: surrounding whitespace ignored, an optional sign, optional whitespace, then decimal digits, `None` for the `ValueError` (characterized by `Text.ParseIntIffIntegerText`) |
| Text.ParseIntIffIntegerText | wrapanapi/systems/scvmm.py:441 | `int()` gives `n` exactly when the text is whitespace, then digits or a sign, optional whitespace and digits, then whitespace, with value `n`; so `"12abc"`, `"1 2"`, `"-"` and `"+-5"` raise |
| Text.DeleteBraces | wrapanapi/systems/scvmm.py:394 | `translate(None, '{}')`: no longer than its input, and no brace is left (pinned down by `Text.DeleteBracesChar` and `Text.DeleteBracesAppend`) |
| Text.DeleteBracesChar | wrapanapi/systems/scvmm.py:394 | on one character, a brace is deleted and any other character is kept |
| Text.DeleteBracesUnwraps | wrapanapi/systems/scvmm.py:394 | a brace-free text wrapped in braces comes back unwrapped |
| Text.FindsAddress | wrapanapi/systems/scvmm.py:406 | `re.findall(r'[0-9]+(?:.[0-9]+){3}', s)` is non-empty (characterized by `Text.FindsAddressIffJoined`) |
| Text.StripIdempotent | wrapanapi/systems/scvmm.py:307-310 | stripping an already stripped text changes nothing, so the second `strip()` in `does_template_exist` is a no-op |
| Text.StripClean | wrapanapi/systems/scvmm.py:177 | a text with no surrounding whitespace is its own `strip()` |
| Text.ParseShowInt | wrapanapi/systems/scvmm.py:441 | `int()` reads back every integer written in decimal, negative ones included |
| Text.ParseIntRefusesWords | wrapanapi/systems/scvmm.py:441 | `int()` fails on a stripped text that is empty, or that starts with something other than a sign or a digit |
| Text.ParseIntSpaceAfterSign | wrapanapi/systems/scvmm.py:441 | `int()` allows whitespace between the sign and the digits, so `int("- 5")` is `-5` |
| Text.DeleteBracesKeepsOthers | wrapanapi/systems/scvmm.py:394 | a text without braces is left unchanged by deleting braces |
| Text.DeleteBracesAppend | wrapanapi/systems/scvmm.py:394 | brace deletion works piece by piece: on a concatenation it is the concatenation of the deletions |
| Text.DeleteBracesIdempotent | wrapanapi/systems/scvmm.py:394 | deleting braces twice equals deleting them once |
| Text.FindsDottedQuad | wrapanapi/systems/scvmm.py:406 | the address pattern matches a dotted quad such as `10.0.0.1` |
| Text.FindsAnySeparator | wrapanapi/systems/scvmm.py:406 | the pattern's unescaped `.` matches any separator, so `1a2b3c4` counts as an address |
| Text.ShortTextHasNoAddress | wrapanapi/systems/scvmm.py:406 | a text shorter than seven characters holds no match |
| Text.FindsAddressIffJoined | wrapanapi/systems/scvmm.py:406 | the pattern finds a match exactly when some slice of the text is four digit runs joined by three single characters, none of them a newline |
| Text.DigitsThenJoined | wrapanapi/systems/scvmm.py:406 | a match found at a position spans a slice made of joined digit runs |
| Text.JoinedDigitsThen | wrapanapi/systems/scvmm.py:406 | a slice made of joined digit runs is a match starting at its first character |
| PropertyTree.ParseData | wrapanapi/systems/scvmm.py:434-443 | `parse_data`: `None` without text, a boolean for `System.Boolean`, `int()` for `System.Int*` with its `ValueError`, and `None` otherwise, the missing final `return` included (properties in the `ParseData*` rows) |
| PropertyTree.Entry | wrapanapi/systems/scvmm.py:448-459 | the key and value one `Property` child adds to a data-holder dictionary: a missing `Name` or `Type` raises, a parent becomes a nested dictionary or list, a leaf goes through `parse_data` (see `PropertyTree.EntryShape`) |
| PropertyTree.DictFold | wrapanapi/systems/scvmm.py:447-459 | the dictionary after the first `n` children: non-`Property` children are skipped, each entry overwrites its key, the first error ends the walk (see the `DictFold*` rows) |
| PropertyTree.DictOf | wrapanapi/systems/scvmm.py:445-459 | `SCVMMDataHolderDict(e)`: the record built by walking all children of `e` |
| PropertyTree.ListItem | wrapanapi/systems/scvmm.py:467-471 | the item one `Property` child adds to a data-holder list: `parse_data` of its type and text; a missing `Type` raises |
| PropertyTree.ListOf | wrapanapi/systems/scvmm.py:464-471 | `SCVMMDataHolderList(e)`: the list built from the `Property` children of `e`, in order (see the `ListFold*` rows) |
| PropertyTree.FirstObject | wrapanapi/systems/scvmm.py:430 | `xpath("./Object")[0]`, `None` for the `IndexError` (see `PropertyTree.FirstObjectIsEarliest`) |
| PropertyTree.FieldTexts | wrapanapi/systems/scvmm.py:194-198 | `xpath("./Object/Property[@Name='field']/text()")` (order and multiplicity in `PropertyTree.FieldTextsInOrder`) |
| PropertyTree.ParseDataNoText | wrapanapi/systems/scvmm.py:434-437 | a leaf without text is `None` whatever its type |
| PropertyTree.ParseDataOutcome | wrapanapi/systems/scvmm.py:434-443 | `parse_data` raises exactly for an integer type whose text `int()` refuses; otherwise it yields a scalar |
| PropertyTree.ParseDataBoolean | wrapanapi/systems/scvmm.py:438-439 | a boolean is true exactly when its lower-cased, stripped text is `true` |
| PropertyTree.ParseDataBooleanExamples | wrapanapi/systems/scvmm.py:438-439 | `" TRUE "` reads as true and `"false"` as false |
| PropertyTree.ParseDataInteger | wrapanapi/systems/scvmm.py:440-441 | every type starting with `System.Int` reads its text with `int()`, in both directions, and raises exactly when `int()` does |
| PropertyTree.ParseDataString | wrapanapi/systems/scvmm.py:442-443 | a `System.String` leaf gives `None` for every text |
| PropertyTree.ParseDataOtherTypes | wrapanapi/systems/scvmm.py:436-443 | every type other than `System.Boolean` and `System.Int*` falls off the end of `parse_data` and gives `None`, whatever the text |
| PropertyTree.ScalarRoundTrip | wrapanapi/systems/scvmm.py:434-443 | a boolean, integer or null, written with its type tag and text, reads back as itself |
| PropertyTree.BuildDict | wrapanapi/systems/scvmm.py:445-459 | the child-by-child loop returns the dictionary specification `DictOf`, error included |
| PropertyTree.BuildList | wrapanapi/systems/scvmm.py:464-471 | the append loop returns the list specification `ListOf`, error included |
| PropertyTree.ListStep | wrapanapi/systems/scvmm.py:467-471 | one child of the list walk: a `Property` appends its `parse_data` result, and anything else is skipped |
| PropertyTree.DictFoldErrorSticks | wrapanapi/systems/scvmm.py:447-459 | once a child raises, the whole dictionary walk fails with that error |
| PropertyTree.ListFoldErrorSticks | wrapanapi/systems/scvmm.py:467-471 | once a child raises, the whole list walk fails with that error |
| PropertyTree.DictFoldKeys | wrapanapi/systems/scvmm.py:447-459 | the record's keys are exactly the `Name`s of the `Property` children |
| PropertyTree.DictFoldLastWins | wrapanapi/systems/scvmm.py:448-459 | a repeated `Name` holds the value of its last `Property` |
| PropertyTree.DictFoldOutcome | wrapanapi/systems/scvmm.py:447-459 | the dictionary walk succeeds exactly when every `Property` child's entry does; otherwise it fails with the error of the first failing child |
| PropertyTree.EntryShape | wrapanapi/systems/scvmm.py:448-459 | a leaf goes through `parse_data`; a parent with named `Property` children becomes a record; any other parent becomes a list |
| PropertyTree.ListFoldContents | wrapanapi/systems/scvmm.py:467-471 | a list has one item per `Property` child, in order, each that child's `parse_data` result, so every item is a scalar |
| PropertyTree.ListFoldOutcome | wrapanapi/systems/scvmm.py:467-471 | the list walk succeeds exactly when every `Property` child has a type and a readable text |
| PropertyTree.ListRoundTrip | wrapanapi/systems/scvmm.py:464-471 | scalars serialized as a collection read back as the same list, in order |
| PropertyTree.ListFoldItems | wrapanapi/systems/scvmm.py:467-471 | a walk over `Property` children whose items are known yields exactly those items |
| PropertyTree.CollectionIsList | wrapanapi/systems/scvmm.py:451-455 | a non-empty collection of unnamed properties becomes a list entry, not a record |
| PropertyTree.EmptyCollectionIsNull | wrapanapi/systems/scvmm.py:451-459 | a collection with no items has no children, so it is read as a leaf and gives `None`, not an empty list: here the round trip fails |
| PropertyTree.FieldRoundTrip | wrapanapi/systems/scvmm.py:448-459 | a field holding a scalar or a non-empty list of scalars, serialized under its name, reads back as that name and value |
| PropertyTree.RecordRoundTrip | wrapanapi/systems/scvmm.py:445-459 | a record of such fields with distinct names, serialized and read back, has exactly those names, each holding its value |
| PropertyTree.FirstObjectIsEarliest | wrapanapi/systems/scvmm.py:430 | `xpath("./Object")[0]` is the earliest `Object` child, and it is missing exactly when there is none |
| PropertyTree.FieldTextsInOrder | wrapanapi/systems/scvmm.py:194-198 | the selection lists the text of every selected (object, property) pair exactly once, in document order, and nothing else; so there is one entry per selected property, duplicates kept |
| PropertyTree.FieldTextsEmpty | wrapanapi/systems/scvmm.py:290-295 | the selection is empty exactly when no property of any `Object` is selected |
| PropertyTree.FieldTextsFirst | wrapanapi/systems/scvmm.py:290-295 | `[0]` of a non-empty selection is the text of the first selected property of the first `Object` that has one |
| PropertyTree.FieldTextsMembers | wrapanapi/systems/scvmm.py:194-198 | the selection holds exactly the texts of the `Property` children named `field` of the top-level `Object`s |
| VmStates.StateOf | wrapanapi/systems/scvmm.py:44-51 | the `state_map` entry of a status, `Unknown` for a status the table lacks (see `VmStates.StateMapDomain`) |
| VmStates.StateMapDomain | wrapanapi/systems/scvmm.py:44-51 | the table maps exactly five statuses, and exactly `Missing` and `Creation Failed` map to the error state |
| VmStates.SteadySet | wrapanapi/systems/scvmm.py:134-139 | the steady statuses are running, paused and the two stopped spellings |
| VmStates.FailedIsNotSteady | wrapanapi/systems/scvmm.py:134-139 | the failed statuses are never steady and map to the error state |
| VmStates.SteadyStatesAgreeWithTable | wrapanapi/systems/scvmm.py:44-51 | no steady status maps to the error state, and running, paused and `PowerOff` map where their sets say |
| VmStates.StoppedSpellingUnmapped | wrapanapi/systems/scvmm.py:44-51 | `Stopped` is a stopped status with no table entry, so the table leaves it unknown |
| Commands.Steps | wrapanapi/systems/scvmm.py:87-101 | a method that calls scripts and actions one after another: each is sent in order, and the first non-zero status raises and ends the method (see the `Steps*` rows) |
| Commands.StepsSendPrefix | wrapanapi/systems/scvmm.py:87-101 | a sequence of scripts sends a prefix of its plan |
| Commands.StepsCharacterized | wrapanapi/systems/scvmm.py:87-101 | a sequence sends all of its actions when each succeeds; otherwise it sends up to and including the first that fails and raises that one's error |
| Commands.StepsUpTo | wrapanapi/systems/scvmm.py:326-341 | the replies determine the run: it stops exactly at the first failing action |
| Commands.StepsStopAtFailure | wrapanapi/systems/scvmm.py:326-341 | actions after a failing one are never sent |
| Commands.StepsKeepOrder | wrapanapi/systems/scvmm.py:87-101 | running a well-ordered plan keeps both orderings, whatever the replies |
| Commands.GuardAccepted | wrapanapi/systems/scvmm.py:87-90 | a `Remove` or `Set` is sent only right after an accepted `ensure_state(STOPPED)` on the same VM |
| Commands.PlansOrdered | wrapanapi/systems/scvmm.py:87-101 | the delete, rename and template-change plans are well ordered |
| Commands.DeleteRemovesStoppedVm | wrapanapi/systems/scvmm.py:87-90 | a VM is removed only after stopping it succeeded, and a removed template is always followed by the library refresh |
| Commands.RenameTakesNameWhenSet | wrapanapi/systems/scvmm.py:95-101 | the new name is adopted exactly when the guard and the `Set` were both accepted |
| Commands.CreateFlagsShape | wrapanapi/systems/scvmm.py:330-333 | `-CPUCount` is added exactly for a non-zero CPU count and `-MemoryMB` exactly for a non-zero size, in that order |
| Commands.DeployCreatesOnce | wrapanapi/systems/scvmm.py:335-341 | a deployment creates the VM once, as its first action, and a wait that fails ends it after create, enable and start |
| Commands.RoundsRemovals | wrapanapi/systems/scvmm.py:420-423 | `n` loop rounds issue exactly `n` drive removals |
| Commands.RoundCount | wrapanapi/systems/scvmm.py:420-423 | `n` rounds after a history add exactly `n` removals to it, with or without the final probe |
| Commands.RoundsArePlain | wrapanapi/systems/scvmm.py:420-423 | the loop issues only data queries and drive removals |
| Scvmm.ScriptOutput | wrapanapi/systems/scvmm.py:169-177 | a non-zero status raises with the status and stderr; otherwise the result is the stripped stdout, empty exactly when stdout is blank |
| Scvmm.ActionOutcome | wrapanapi/systems/scvmm.py:72-90 | a base-class action (`is_suspended`, `ensure_state`): a non-zero status raises, and `is_suspended`'s answer is a non-blank reply |
| Scvmm.Acknowledged | wrapanapi/systems/scvmm.py:65-70 | a script whose output the caller discards: it raises as `run_script` does, otherwise the caller goes on |
| Scvmm.Existence | wrapanapi/systems/scvmm.py:36-41 | `bool(result.strip())` of the lookup's output (see `Scvmm.ExistenceIffNonBlank`) |
| Scvmm.Selection | wrapanapi/systems/scvmm.py:194-198 | `etree.fromstring(output).xpath(...)` of a listing: a failing script raises, text that is not XML raises, otherwise the `field` texts (see `Scvmm.SelectionMembers`) |
| Scvmm.ExistenceIffNonBlank | wrapanapi/systems/scvmm.py:36-41 | the answer is yes exactly when the lookup succeeded and printed non-whitespace, and it raises exactly when the lookup failed |
| Scvmm.SelectionMembers | wrapanapi/systems/scvmm.py:194-198 | a selected text is a property text of one of the parsed root's objects, and vice versa |
| Scvmm.StatusOf | wrapanapi/systems/scvmm.py:290-295 | the status is the first selected `StatusString`; an empty selection raises |
| Scvmm.DataOf | wrapanapi/systems/scvmm.py:425-430 | `data`: the script's output parsed, its first `Object` read as a data-holder dictionary; a failing script, bad XML, a missing object or a malformed property raises (see `Scvmm.DataIsRecord`) |
| Scvmm.DataIsRecord | wrapanapi/systems/scvmm.py:425-430 | a VM's data is a record keyed by the names of its first object's properties |
| Scvmm.DvdProbe | wrapanapi/systems/scvmm.py:420 | `self.data(vm).VirtualDVDDrives is not None`; data without the attribute raises (see `Scvmm.DvdProbeMeaning`) |
| Scvmm.DvdProbeMeaning | wrapanapi/systems/scvmm.py:420 | the probe answers exactly when the data has `VirtualDVDDrives`, and says yes exactly when that field is not `None` |
| Scvmm.Addresses | wrapanapi/systems/scvmm.py:389-394 | the listing fails exactly when the script does; the result is the stripped output with every brace deleted, so it has no brace and is no longer than the stripped output |
| Scvmm.AddressesUnwrap | wrapanapi/systems/scvmm.py:389-394 | a listing printed as `{10.0.0.1}` with whitespace around it comes back as the bare address |
| Scvmm.AddressesKeepText | wrapanapi/systems/scvmm.py:389-394 | a brace-free listing comes back as printed, and the result has no braces left to delete |
| Scvmm.RoundOutcome | wrapanapi/systems/scvmm.py:420-422 | one round of the loop: the probe, then the removal when a drive is shown (see `Scvmm.RoundOutcomeMeaning`) |
| Scvmm.RoundOutcomeMeaning | wrapanapi/systems/scvmm.py:420-422 | a loop round removes a drive exactly when the probe shows one and the removal is accepted, ends the loop exactly when the probe shows none, and otherwise raises the probe's error or the removal's script error |
| Scvmm.DrainCountUnique | wrapanapi/systems/scvmm.py:413-423 | the replies fix the count: accepted rounds followed by a probe without a drive happen for one number of rounds only |
| Scvmm.AcceptedRoundsBound | wrapanapi/systems/scvmm.py:420-423 | under `DrivesDrain`, the loop's accepted rounds never exceed the bound |
| Scvmm.RoundAdvance | wrapanapi/systems/scvmm.py:420-423 | a round that removed a drive adds one accepted round to the log, and under `DrivesDrain` the count so far is below the bound |
| Scvmm.DrainsThenEnds | wrapanapi/systems/scvmm.py:420-423 | if `DrivesDrain` holds for some bound, the loop ends: some round after accepted ones raises or finds no drive |
| Scvmm.EndsThenDrains | wrapanapi/systems/scvmm.py:420-423 | a loop that ends after `n` accepted rounds meets `DrivesDrain` with the bound `n` |
| Scvmm.DrivesDrainIffLoopEnds | wrapanapi/systems/scvmm.py:420-423 | some bound makes `DrivesDrain` hold exactly when the loop ends, so it excludes only the managers on which the loop never ends |
| Scvmm.RefusedRemovalAdmitted | wrapanapi/systems/scvmm.py:175-176 | a manager that refuses the removal while a drive is shown makes the first round raise the removal's script error, and it meets `DrivesDrain` for every bound |
| Scvmm.Session.Send | wrapanapi/systems/scvmm.py:173 | the action is logged and the reply comes from the remote side, given the earlier actions |
| Scvmm.System.constructor | wrapanapi/systems/scvmm.py:145-153 | a system over a session whose log keeps both orderings starts out valid |
| Scvmm.System.RunScript | wrapanapi/systems/scvmm.py:169-177 | a script is one logged action, and its result is `ScriptOutput` of the reply |
| Scvmm.System.DoesTemplateExist | wrapanapi/systems/scvmm.py:307-310 | one lookup; the result is yes exactly when it printed something |
| Scvmm.System.DeleteTemplate | wrapanapi/systems/scvmm.py:182-192 | a missing template sends only the lookup; a found one is removed and then the library is refreshed, stopping at the first failure |
| Scvmm.System.DeployTemplate | wrapanapi/systems/scvmm.py:312-341 | a missing template raises after the lookup; otherwise create, enable, start, wait (900 by default) and refresh run in order, and the VM name is returned |
| Scvmm.System.Provision | wrapanapi/systems/scvmm.py:320-341 | the five deployment actions run in order, and a failure ends the run with that action's error |
| Scvmm.System.CloneVm | wrapanapi/systems/scvmm.py:297-305 | one started clone is requested, and the call raises exactly when the manager refuses |
| Scvmm.System.UpdateScvmmVirtualMachine | wrapanapi/systems/scvmm.py:343-351 | one VM refresh; raises exactly on a non-zero status |
| Scvmm.System.UpdateScvmmVmhost | wrapanapi/systems/scvmm.py:353-360 | one host refresh; raises exactly on a non-zero status |
| Scvmm.System.UpdateScvmmLibrary | wrapanapi/systems/scvmm.py:362-369 | one library refresh; raises exactly on a non-zero status |
| Scvmm.System.MarkAsTemplate | wrapanapi/systems/scvmm.py:371-380 | the template is created and the library is refreshed, in order, stopping at the first failure |
| Scvmm.System.ChangeTemplate | wrapanapi/systems/scvmm.py:189-190 | a template change followed by the library refresh, keeping both orderings |
| Scvmm.System.ListVm | wrapanapi/systems/scvmm.py:194-198 | one listing, whose result is the `Name` texts of its objects |
| Scvmm.System.ListHosts | wrapanapi/systems/scvmm.py:200-203 | one listing, whose result is the hosts' `Name` texts |
| Scvmm.System.ListCluster | wrapanapi/systems/scvmm.py:205-209 | one listing, whose result is the clusters' `Name` texts |
| Scvmm.System.ListTemplate | wrapanapi/systems/scvmm.py:250-253 | one listing, whose result is the templates' `Name` texts |
| Scvmm.System.ListNetwork | wrapanapi/systems/scvmm.py:258-262 | one listing, whose result is the networks' `Name` texts |
| Scvmm.System.GetVmsVmhost | wrapanapi/systems/scvmm.py:396-401 | one query, whose result is the VM objects' `VMHost` texts |
| Scvmm.System.VmStatus | wrapanapi/systems/scvmm.py:290-295 | one query, whose result is the first `StatusString` |
| Scvmm.System.Data | wrapanapi/systems/scvmm.py:425-430 | one query, whose result is the first object read as a data-holder dictionary |
| Scvmm.System.CurrentIpAddress | wrapanapi/systems/scvmm.py:389-394 | one query, whose result is the output with its braces deleted |
| Scvmm.System.GetIpAddress | wrapanapi/systems/scvmm.py:403-408 | refresh, then list the addresses; without a match the result is `None`, otherwise the addresses of a second listing |
| Scvmm.System.HasDvdDrive | wrapanapi/systems/scvmm.py:420 | one data query, answered by the probe |
| Scvmm.System.RemoveDvdDrive | wrapanapi/systems/scvmm.py:415-421 | one drive removal, whose result is the script output |
| Scvmm.System.DvdRound | wrapanapi/systems/scvmm.py:420-422 | one loop round: without a drive only the probe is sent; with one, the removal follows, and the round raises exactly when the probe or the removal fails |
| Scvmm.System.DisconnectDvdDrives | wrapanapi/systems/scvmm.py:413-423 | on success, every round before the last probe found a drive and had its removal accepted, the last probe shows none, and the count is the number of those rounds, each one probe and one removal; on failure, the earlier rounds were accepted and the failing round's probe or removal raised the returned error |
| Scvmm.Vm.Exists | wrapanapi/systems/scvmm.py:36-41 | one lookup; the result is yes exactly when it printed something |
| Scvmm.Vm.DoAction | wrapanapi/systems/scvmm.py:65-70 | one `{action}-SCVirtualMachine` call, true unless it raises |
| Scvmm.Vm.Power | wrapanapi/systems/scvmm.py:65-70 | a power action keeps both orderings |
| Scvmm.Vm.Start | wrapanapi/systems/scvmm.py:72-76 | a suspended VM is resumed, any other is started, and a failing suspension query raises |
| Scvmm.Vm.Stop | wrapanapi/systems/scvmm.py:78-79 | `-Shutdown` when graceful, `-Force` otherwise |
| Scvmm.Vm.Restart | wrapanapi/systems/scvmm.py:81-82 | one `Reset` |
| Scvmm.Vm.Suspend | wrapanapi/systems/scvmm.py:84-85 | one `Suspend` |
| Scvmm.Vm.Delete | wrapanapi/systems/scvmm.py:87-90 | stop, then remove, stopping at the first failure, and true when both succeed |
| Scvmm.Vm.Rename | wrapanapi/systems/scvmm.py:95-101 | stop, set the new name, then refresh under it; the VM takes the new name exactly when the `Set` succeeded |
| Scvmm.Vm.Clone | wrapanapi/systems/scvmm.py:103-114 | one clone request; on success, a new VM of that name on the same manager |
| Scvmm.Vm.EnableVirtualServices | wrapanapi/systems/scvmm.py:116-125 | one enable-services script, which raises exactly when the manager refuses |

## Left out

- The WinRM transport, credentials, `pre_script`, `dedent` and logging are left out. The session is the recording fake `Session`, whose replies come from the abstract `remote` function.
- lxml parsing is the abstract `System.parse`. JSON is not modelled.
- Script text is not modelled. Each script is a command token naming its cmdlet and flags. The source appends `-StartVM`, `-CPUCount` and `-MemoryMB` after the script's last newline; the tokens record the intended flags.
- The actions of the base classes (`ensure_state`, `is_suspended`, `refresh`, `start_vm`, `wait_vm_running`) are recorded as commands. Their reply decides whether they raise, and `is_suspended`'s answer is a non-blank reply. Their own behaviour lives outside this file.
- `enable_virtual_services(vm_name)` on the system is called by `deploy_template` but is not defined in this file. It is the `EnableServices` command.
- `vm_creation_time` (date parsing and time zones), `all_vms` (builds entity objects) and `vm_hardware_configuration` (JSON) are left out.
- `remove_host_from_cluster`, `disconnect` and `info` are left out: their bodies are empty.
- `create_vm` and `list_flavor`, which raise `NotImplementedError`, are left out.
- `with_vm` is left out: it is a context manager around `deploy_template` and a `delete_vm` that this file does not define.
- `strip`, `lower` and `int()` are modelled for ASCII only. `int()` accepts surrounding whitespace, an optional sign, and whitespace between the sign and the digits, but not Unicode digits.
- Dictionary ordering, element text tails and `__repr__` are left out. A data holder's `__dict__` is a `map`.
- `deploy_template`'s `vm_name=None` default is not modelled: the name is always given.
- Scvmm.System.DisconnectDvdDrives: requires `DrivesDrain` on the call's own rounds: once `drives` rounds have each found a drive and had its removal accepted, the next round does not remove another. A round that raises or finds no drive meets it, so a manager that refuses a removal is admitted (`Scvmm.RefusedRemovalAdmitted`). The source's `while` loop has no bound; `Scvmm.DrivesDrainIffLoopEnds` shows that the managers excluded are exactly those on which it never ends. The number of removals is not in the method's own contract; it follows from its log contract through `Commands.RoundCount`, and the bound through `Scvmm.AcceptedRoundsBound`.
- Scvmm.System.DeployTemplate: `timeout` is `None` when the keyword is absent, and the wait then gets 900. An explicit `timeout=None`, which the source passes on to `wait_vm_running` as `None`, is not modelled.
- Scvmm.Vm.DoAction: takes `params` as a required argument; the default `""` is the empty flag list. It does not promise `System.Valid`. Given `Remove` or `Set` it would send an unguarded mutation. `Vm.Power` and the guarded plans of `Vm.Delete` and `Vm.Rename` are the callers that keep it.
- Scvmm.Vm.Stop: takes `graceful` as a required argument; the source's default is `False`, the `-Force` case.
- Scvmm.Vm.Clone: takes `start_vm` as a required argument; the source's default is `True`.
- Scvmm.Vm.Delete: sends its `_do_vm` command through `System.Step`, not `Vm.DoAction`. It is the same command with the same output handling.
- Scvmm.Vm.Rename: sends its `_do_vm` command through `System.Step`, not `Vm.DoAction`, for the same reason.
- The `SCVM` properties `state`, `ip` and `creation_time`, and the method `cleanup`, are left out because their bodies are `pass`. The `name` property is the field `Vm.name`.
- `SCVM.exists`, `clone` and `enable_virtual_services` call `self.run_script`, while the constructor stores only `_run_script`. The model assumes the base class `Vm`, which this file does not define, forwards it to the system's `run_script`.
- Scvmm.System.Refresh and its three callers promise the orderings only when they held before the call. The source calls them on any history.
