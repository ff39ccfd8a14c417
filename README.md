# deep_go homework: verified models

This project models the sequential exercises of the deep_go homework repository in Dafny. The Go packages are independent of one another, and so are the Dafny modules:

- `TaskScheduler`: the indexed max-priority scheduler (`Tasks`, `Scheduler`). The sift-up and sift-down of Go's `container/heap` are written out, as that package performs them.
- `OrderedMaps`: the binary-search-tree ordered map with its size counter.
- `CircularQueues`: the fixed-capacity ring buffer over an array.
- `BitFields`: the 4-bit, 10-bit and 1-bit fields packed into `uint16`, `uint32` and `uint8` words.
- `GamePersons`: the game character built from functional options and read through getters.
- `MultiErrors`: `MultiError`, `QueueError` and `Append`.
- `Combinators`: the generic `Map`, `Filter` and `Reduce`.
- `Serializer`: the tag-driven `Serialize` and `parseProp`.
- `Allocator`: `Defragment`, with pointers as indices into the memory.
- `Tracer`: the pointer-chain `Walker` and `Trace`, with memory as a finite map from address to word.

Two shared modules support the others. `Wrappers` holds `Option` and `Result`; a `Result` is either a value or a Go panic with its message. `Decimal` holds the decimal rendering of integers (`%d`, `%v`).

Conventions:

- A Go nil slice is `None`. A non-nil slice, empty or not, is `Some`.
- A `panic` is the `Panic` case of a `Result`.
- Code that updates state in place is a class with `modifies` clauses. Loops are methods proved against specification functions.

## Model

| member | source | states |
|---|---|---|
| TaskScheduler.Parent | homework/goroutines_and_scheduler/homework_test.go:25-27 | a non-root slot's parent is an earlier slot, and the slot is its left or right child |
| TaskScheduler.HeapFromParts | homework/goroutines_and_scheduler/homework_test.go:25-27 | heap order holds everywhere once it holds except at k, and k agrees with its parent and its children |
| TaskScheduler.RootIsMax | homework/goroutines_and_scheduler/homework_test.go:25-27 | in a heap ordered by `Less` (greater priority first), no slot's priority exceeds the root's |
| TaskScheduler.SiftUpStep | homework/goroutines_and_scheduler/homework_test.go:25-33 | swapping a slot with a lower-priority parent moves the only heap violation up to the parent |
| TaskScheduler.SiftDownStep | homework/goroutines_and_scheduler/homework_test.go:25-33 | swapping a slot with its greatest child moves the only heap violation down to that child |
| TaskScheduler.GreaterChild | homework/goroutines_and_scheduler/homework_test.go:25-27 | the child that sift-down picks is a child of the slot, and no sibling has a greater priority |
| TaskScheduler.IdentifiersUnique | homework/goroutines_and_scheduler/homework_test.go:9-12 | while `indexes` maps each identifier to its slot, no two slots hold the same identifier |
| TaskScheduler.ChangeLeavesHeapExcept | homework/goroutines_and_scheduler/homework_test.go:57-63 | rewriting one slot of a heap leaves heap order broken at most at that slot |
| TaskScheduler.Tasks.constructor | homework/goroutines_and_scheduler/homework_test.go:14-19 | a new `Tasks` is empty and consistent |
| TaskScheduler.Tasks.Len | homework/goroutines_and_scheduler/homework_test.go:21-23 | the length is the number of slots |
| TaskScheduler.Tasks.Less | homework/goroutines_and_scheduler/homework_test.go:25-27 | slot i sorts before slot j exactly when it has the greater priority |
| TaskScheduler.Tasks.Swap | homework/goroutines_and_scheduler/homework_test.go:29-33 | the two slots are exchanged; `indexes` follows both identifiers; the recorded priorities do not change |
| TaskScheduler.Tasks.Push | homework/goroutines_and_scheduler/homework_test.go:35-39 | a task with a new identifier is appended, and `indexes` maps it to its slot |
| TaskScheduler.Tasks.Pop | homework/goroutines_and_scheduler/homework_test.go:41-46 | the last slot is removed and returned, and its identifier leaves `indexes` |
| TaskScheduler.Tasks.Empty | homework/goroutines_and_scheduler/homework_test.go:48-50 | true exactly when no identifier is recorded |
| TaskScheduler.Tasks.Exists | homework/goroutines_and_scheduler/homework_test.go:52-55 | true exactly when some slot holds the identifier |
| TaskScheduler.Tasks.ChangePriority | homework/goroutines_and_scheduler/homework_test.go:57-63 | a known identifier gets the new priority in its own slot; an unknown one changes nothing and reports failure |
| TaskScheduler.Up | homework/goroutines_and_scheduler/homework_test.go:35-39 | sift-up restores heap order when it is broken only at the start slot; it does not change the recorded priorities |
| TaskScheduler.SiftDownOnce | homework/goroutines_and_scheduler/homework_test.go:41-46 | one sift-down step either stops with the slot in order, or swaps with the greater child and moves the violation there |
| TaskScheduler.Down | homework/goroutines_and_scheduler/homework_test.go:41-46 | sift-down over the first n slots restores heap order there; it reports whether anything moved, and the slots past n are untouched |
| TaskScheduler.HeapPush | homework/goroutines_and_scheduler/homework_test.go:35-39 | `heap.Push`: the task is added, and heap order and index consistency are kept |
| TaskScheduler.HeapPop | homework/goroutines_and_scheduler/homework_test.go:41-46 | `heap.Pop`: returns the former root, which has the maximum priority; removes exactly that task and keeps heap order |
| TaskScheduler.HeapFix | homework/goroutines_and_scheduler/homework_test.go:57-63 | `heap.Fix`: heap order is restored after one slot changed, and the size and the recorded priorities are kept |
| TaskScheduler.Scheduler.constructor | homework/goroutines_and_scheduler/homework_test.go:74-76 | a new scheduler holds nothing |
| TaskScheduler.Scheduler.AddTask | homework/goroutines_and_scheduler/homework_test.go:78-85 | upsert: the identifier ends with the new priority; the size grows by one only for a new identifier |
| TaskScheduler.Scheduler.ChangeTaskPriority | homework/goroutines_and_scheduler/homework_test.go:87-92 | a known identifier gets the new priority and the identifiers are kept; an unknown one leaves `data` and `indexes` as they were |
| TaskScheduler.Scheduler.GetTask | homework/goroutines_and_scheduler/homework_test.go:94-99 | empty: `Task{0,0}` and nothing changes; otherwise a task of maximum priority, removed alone, so the size drops by one |
| TaskScheduler.GetUniqueMax | homework/goroutines_and_scheduler/homework_test.go:94-99 | when one identifier has the strictly greatest priority, GetTask returns exactly that task and keeps every other entry |
| TaskScheduler.ScenarioFiveTasks | homework/goroutines_and_scheduler/homework_test.go:101-113 | after TestScheduler's five AddTask calls, identifiers 1 to 5 are recorded with priorities 10 to 50 |
| TaskScheduler.ScenarioTopTwo | homework/goroutines_and_scheduler/homework_test.go:115-119 | the first two extractions are tasks 5 and 4 |
| TaskScheduler.ScenarioChangeThenExtract | homework/goroutines_and_scheduler/homework_test.go:101-129 | TestScheduler yields tasks 5, 4, then task 1 with priority 100, then task 3 |
| TaskScheduler.ScenarioRaisedPriorities | homework/goroutines_and_scheduler/homework_test.go:153-161 | after the three adds and the two changes, task 1 has priority 40, task 2 has 50 and task 3 has 30 |
| TaskScheduler.ScenarioChangeTaskPriority | homework/goroutines_and_scheduler/homework_test.go:153-170 | after raising task 2 to 50 and task 1 to 40, the tasks come out as 2, 1, 3 |
| TaskScheduler.ExtractLadder | homework/goroutines_and_scheduler/homework_test.go:136-139 | from tasks 1 to n with priorities 10 to 10n, n extractions yield the tasks from n down to 1 |
| TaskScheduler.ScenarioAddHighPriorities | homework/goroutines_and_scheduler/homework_test.go:131-140 | adding tasks 100 down to 1, then extracting 100 times, yields tasks 100 down to 1 |
| TaskScheduler.ScenarioAddLowPriorities | homework/goroutines_and_scheduler/homework_test.go:142-151 | adding tasks 1 up to 100, then extracting 100 times, yields tasks 100 down to 1 |
| TaskScheduler.ScenarioAddDuplicate | homework/goroutines_and_scheduler/homework_test.go:172-180 | adding identifier 1 three times keeps one entry with the last priority; the next GetTask gives the zero task |
| OrderedMaps.ElementsKeys | homework/maps/homewrok_test.go:53-72 | the keys of a tree's bindings are the keys stored in its nodes |
| OrderedMaps.ElementsOfNode | homework/maps/homewrok_test.go:59-71 | in a search tree, left keys are below the node key and right keys above it |
| OrderedMaps.InsertInto | homework/maps/homewrok_test.go:53-72 | insert returns a non-empty tree whose keys are the old keys plus the new one |
| OrderedMaps.InsertIntoCorrect | homework/maps/homewrok_test.go:53-72 | insert keeps the search-tree order and binds the key to the value; it counts 1 for an absent key and 0 for a present one |
| OrderedMaps.FindMin | homework/maps/homewrok_test.go:111-116 | findMin returns a node without a left child whose key is in the tree |
| OrderedMaps.FindMinCorrect | homework/maps/homewrok_test.go:111-116 | in a search tree, findMin holds the smallest key together with its own value |
| OrderedMaps.Find | homework/maps/homewrok_test.go:118-126 | a node that find returns holds the key searched for |
| OrderedMaps.FindCorrect | homework/maps/homewrok_test.go:118-126 | in a search tree, find succeeds exactly for bound keys and returns the bound value |
| OrderedMaps.EraseFrom | homework/maps/homewrok_test.go:74-100 | erase never adds a key |
| OrderedMaps.ReplaceByMinBst | homework/maps/homewrok_test.go:90-93 | replacing a two-child node by the right subtree's minimum keeps the order and removes only that node's key |
| OrderedMaps.EraseFromCorrect | homework/maps/homewrok_test.go:74-100 | erase keeps the order and removes only that key's binding; it counts 1 if the key was present, 0 if not |
| OrderedMaps.Each | homework/maps/homewrok_test.go:102-109 | every visited key is in the tree |
| OrderedMaps.EachKeys | homework/maps/homewrok_test.go:102-109 | the in-order walk visits exactly the tree's keys |
| OrderedMaps.EachAscending | homework/maps/homewrok_test.go:102-109 | on a search tree, the in-order walk visits keys in strictly ascending order |
| OrderedMaps.EachCount | homework/maps/homewrok_test.go:102-109 | on a search tree, the walk has one visit per key |
| OrderedMaps.EachValues | homework/maps/homewrok_test.go:102-109 | each visit passes the value bound to its key |
| OrderedMaps.OrderedMap.constructor | homework/maps/homewrok_test.go:22-24 | a new map is empty |
| OrderedMaps.OrderedMap.Insert | homework/maps/homewrok_test.go:26-33 | the key is bound to the value; the size grows by one only for an absent key |
| OrderedMaps.OrderedMap.Erase | homework/maps/homewrok_test.go:35-39 | the key's binding is removed and every other binding is kept; the size drops by one only if the key was present |
| OrderedMaps.OrderedMap.Contains | homework/maps/homewrok_test.go:41-43 | true exactly when the key is bound |
| OrderedMaps.OrderedMap.Size | homework/maps/homewrok_test.go:45-47 | the number of distinct keys bound |
| OrderedMaps.OrderedMap.ForEach | homework/maps/homewrok_test.go:49-51 | every bound key is visited exactly once, in ascending order, with its value |
| OrderedMaps.AscendingUnique | homework/maps/homewrok_test.go:146-152 | two ascending key lists with the same elements are equal, which pins down what ForEach yields |
| OrderedMaps.ScenarioSevenKeys | homework/maps/homewrok_test.go:128-137 | the test's seven inserts bind the keys 2, 4, 5, 10, 12, 14 and 15 |
| OrderedMaps.ScenarioEraseThree | homework/maps/homewrok_test.go:154-156 | erasing 15, 14 and 2 leaves the keys 4, 5, 10 and 12 |
| OrderedMaps.ReadBack | homework/maps/homewrok_test.go:146-152 | ForEach's keys are the expected ascending list, and Size is its length |
| OrderedMaps.ScenarioOrderedMap | homework/maps/homewrok_test.go:128-171 | the test's sizes (7, then 4) and ascending key lists |
| OrderedMaps.ScenarioEmptyThenOne | homework/maps/homewrok_test.go:173-182 | a new map has size 0, and one insert gives size 1 |
| OrderedMaps.ScenarioEraseLast | homework/maps/homewrok_test.go:184-189 | erasing the only key gives size 0 |
| OrderedMaps.ScenarioEraseOneChild | homework/maps/homewrok_test.go:191-197 | erasing a root with one child gives size 1 |
| OrderedMaps.ScenarioFourKeys | homework/maps/homewrok_test.go:200-204 | the four inserts bind the keys 2, 5, 6 and 7 |
| OrderedMaps.ScenarioEraseTwoChildren | homework/maps/homewrok_test.go:199-208 | erasing a root with two children leaves the keys 2, 6 and 7, in order, and size 3 |
| CircularQueues.WindowPush | homework/slices_and_arrays/homework_test.go:26-34 | writing at `(head+len) % cap` extends the queued window by that value |
| CircularQueues.WindowPop | homework/slices_and_arrays/homework_test.go:36-43 | advancing head modulo cap drops the window's first element |
| CircularQueues.ModDistinct | homework/slices_and_arrays/homework_test.go:26-34 | distinct offsets below cap land in distinct slots |
| CircularQueues.ModShift | homework/slices_and_arrays/homework_test.go:36-43 | advancing head by one modulo cap shifts every later position by one |
| CircularQueues.CircularQueue.constructor | homework/slices_and_arrays/homework_test.go:15-24 | a new queue has `size` zeroed slots, head 0 and nothing queued |
| CircularQueues.CircularQueue.Push | homework/slices_and_arrays/homework_test.go:26-34 | full: false and nothing changes; otherwise true, the value is written at `(head+len) % cap` alone, len grows and the contents gain the value at the back |
| CircularQueues.CircularQueue.Pop | homework/slices_and_arrays/homework_test.go:36-43 | empty: false and nothing changes; otherwise true, head advances modulo cap, len drops and the contents lose their first element |
| CircularQueues.CircularQueue.Front | homework/slices_and_arrays/homework_test.go:45-50 | -1 when empty, otherwise the first queued value |
| CircularQueues.CircularQueue.Back | homework/slices_and_arrays/homework_test.go:52-58 | -1 when empty, otherwise the last queued value |
| CircularQueues.CircularQueue.Empty | homework/slices_and_arrays/homework_test.go:60-62 | true exactly when nothing is queued |
| CircularQueues.CircularQueue.Full | homework/slices_and_arrays/homework_test.go:64-66 | true exactly when the queued count equals the capacity |
| CircularQueues.ScenarioFill | homework/slices_and_arrays/homework_test.go:68-84 | Pop on the new queue is refused; three pushes fill it with 1, 2 and 3; a fourth push is refused |
| CircularQueues.ScenarioCircularQueue | homework/slices_and_arrays/homework_test.go:68-109 | the test's array states ([1,2,3], then [4,2,3] after the wrap), Front 2, Back 4, and the final refused Pop |
| BitFields.IndicesAreRanges | homework/structs/types.go:81-88 | IsValid accepts exactly the four small indices (0 to 3) and the three medium indices (0 to 2) |
| BitFields.FlagsAreLowBits | homework/structs/types.go:101-108 | IsValid accepts exactly the six one-bit flags below 64 |
| BitFields.SmallNumberIsValid | homework/structs/types.go:81-88 | one of the four declared small indices (characterised by `IndicesAreRanges`) |
| BitFields.BooleanIsValid | homework/structs/types.go:101-108 | one of the six declared flags (characterised by `FlagsAreLowBits`) |
| BitFields.MediumNumberIsValid | homework/structs/types.go:118-125 | one of the three declared medium indices (characterised by `IndicesAreRanges`) |
| BitFields.SmallMask | homework/structs/types.go:13-14 | the 4-bit mask of a valid index lies inside the 16-bit word |
| BitFields.MediumMask | homework/structs/types.go:36-37 | the 10-bit mask of a valid index lies inside bits 0 to 29 of the word |
| BitFields.SmallNumbersGet | homework/structs/types.go:18-24 | panics "invalid index" exactly for an invalid index; otherwise a value below 16 |
| BitFields.SmallNumbersSet | homework/structs/types.go:6-16 | panics on a value outside 0 to 10 (checked first), then on an invalid index; otherwise succeeds |
| BitFields.SmallNumbersRoundTrip | homework/structs/types.go:6-24 | Get after Set returns the value stored |
| BitFields.SmallNumbersKeepsOtherBits | homework/structs/types.go:13-15 | Set changes no bit outside the index's 4-bit field |
| BitFields.SmallNumbersFrame | homework/structs/types.go:6-24 | Set at one index leaves Get at every other index unchanged |
| BitFields.SmallValueBits | homework/structs/types.go:13-15 | a value from 0 to 10 fits the 4-bit field unchanged |
| BitFields.SmallFieldBits | homework/structs/types.go:13-15 | clearing and or-ing a 4-bit field stores exactly the new bits and keeps the rest of the word |
| BitFields.MediumNumbersGet | homework/structs/types.go:41-47 | panics "invalid index" exactly for an invalid index; otherwise a value below 1024 |
| BitFields.MediumNumbersSet | homework/structs/types.go:29-39 | panics on a value outside 0 to 1000 (checked first), then on an invalid index; otherwise succeeds |
| BitFields.MediumNumbersRoundTrip | homework/structs/types.go:29-47 | Get after Set returns the value stored |
| BitFields.MediumNumbersKeepsOtherBits | homework/structs/types.go:36-38 | Set changes no bit outside the index's 10-bit field |
| BitFields.MediumNumbersFrame | homework/structs/types.go:29-47 | Set at one index leaves Get at every other index unchanged |
| BitFields.MediumValueBits | homework/structs/types.go:36-38 | a value from 0 to 1000 fits the 10-bit field unchanged |
| BitFields.MediumFieldBits | homework/structs/types.go:36-38 | clearing and or-ing a 10-bit field stores exactly the new bits and keeps the rest of the word |
| BitFields.MediumOtherField | homework/structs/types.go:36-46 | writing one 10-bit field does not change what another field reads |
| BitFields.BooleansGet | homework/structs/types.go:63-68 | panics "invalid index" exactly for an invalid flag |
| BitFields.BooleansSet | homework/structs/types.go:52-61 | panics "invalid index" exactly for an invalid flag, otherwise succeeds |
| BitFields.BooleansRoundTrip | homework/structs/types.go:52-68 | Get after Set returns the value stored, and no other bit changes |
| BitFields.BooleansFrame | homework/structs/types.go:52-68 | Set of one flag leaves Get of every other flag unchanged |
| GamePersons.ToInt32 | homework/structs/homework_test.go:20-26 | `int32(v)` is congruent to v modulo 2^32, and equal to v inside the int32 range |
| GamePersons.ToUint32 | homework/structs/homework_test.go:28-32 | `uint32(v)` is congruent to v modulo 2^32, and equal to v inside the uint32 range |
| GamePersons.CopyInto | homework/structs/homework_test.go:13-18 | `copy` overwrites the first min(41, len) bytes and keeps the rest |
| GamePersons.SetMedium | homework/structs/homework_test.go:34-44 | a medium-field option succeeds exactly for values 0 to 1000 |
| GamePersons.SetSmall | homework/structs/homework_test.go:46-68 | a small-field option succeeds exactly for values 0 to 10 |
| GamePersons.Apply | homework/structs/homework_test.go:11-104 | an option succeeds exactly when it is admissible (non-empty name, values in their field ranges) |
| GamePersons.Zero | homework/structs/homework_test.go:125 | the struct's zero value NewGamePerson starts from (read back by `ZeroObserved`) |
| GamePersons.ApplyAll | homework/structs/homework_test.go:126-128 | the options applied left to right, stopping at the first panic (the reference `NewGamePerson` is proved against) |
| GamePersons.NewGamePerson | homework/structs/homework_test.go:124-130 | the options are applied left to right to the zero person |
| GamePersons.Name | homework/structs/homework_test.go:132-135 | 42 bytes: the byte kept in the medium field, then the 41-byte array |
| GamePersons.X | homework/structs/homework_test.go:137-139 | the stored x, a value in the int32 range |
| GamePersons.Y | homework/structs/homework_test.go:141-143 | the stored y, a value in the int32 range |
| GamePersons.Z | homework/structs/homework_test.go:145-147 | the stored z, a value in the int32 range |
| GamePersons.Gold | homework/structs/homework_test.go:149-151 | the stored gold, a value in the uint32 range |
| GamePersons.Mana | homework/structs/homework_test.go:153-155 | a value below 1024 |
| GamePersons.Health | homework/structs/homework_test.go:157-159 | a value below 1024 |
| GamePersons.Respect | homework/structs/homework_test.go:161-163 | a value below 16 |
| GamePersons.Strength | homework/structs/homework_test.go:165-167 | a value below 16 |
| GamePersons.Experience | homework/structs/homework_test.go:169-171 | a value below 16 |
| GamePersons.Level | homework/structs/homework_test.go:173-175 | a value below 16 |
| GamePersons.HasHouse | homework/structs/homework_test.go:177-179 | true exactly when the house bit of the flag word is set |
| GamePersons.HasGun | homework/structs/homework_test.go:181-183 | true exactly when the gun bit of the flag word is set |
| GamePersons.HasFamily | homework/structs/homework_test.go:185-187 | true exactly when the family bit of the flag word is set |
| GamePersons.Type | homework/structs/homework_test.go:189-200 | always one of the three declared person types |
| GamePersons.Observe | homework/structs/homework_test.go:132-200 | every getter's view of a person; the name is 42 bytes |
| GamePersons.After | homework/structs/homework_test.go:11-104 | the reference effect of each admissible option on the getters, stated without bits (related to `Apply` by `ApplyObserved`) |
| GamePersons.ApplyObserved | homework/structs/homework_test.go:11-104 | each admissible option changes exactly the getters it targets, as the reference `After` says |
| GamePersons.PlainObserved | homework/structs/homework_test.go:20-32 | coordinates and gold change X, Y, Z or Gold and nothing else |
| GamePersons.MediumOptionObserved | homework/structs/homework_test.go:34-44 | mana and health change their own getter and nothing else |
| GamePersons.SmallOptionObserved | homework/structs/homework_test.go:46-68 | respect, strength, experience and level change their own getter and nothing else |
| GamePersons.FlagOptionObserved | homework/structs/homework_test.go:70-86 | house, gun and family raise their own flag and nothing else |
| GamePersons.NameObserved | homework/structs/homework_test.go:13-18 | the name option changes only what Name returns |
| GamePersons.StoredNameReadsBack | homework/structs/homework_test.go:13-18 | after WithName, Name starts with the name's first min(42, len) bytes, and the rest are the old ones |
| GamePersons.StoreNameKeepsAttributes | homework/structs/homework_test.go:13-18 | storing the first byte in the medium field keeps mana and health |
| GamePersons.MediumObserved | homework/structs/homework_test.go:34-44 | setting mana or health reads back and keeps the other medium fields |
| GamePersons.SmallObserved | homework/structs/homework_test.go:46-68 | setting one small field reads back and keeps the other three |
| GamePersons.FlagObserved | homework/structs/homework_test.go:70-86 | raising a flag makes its getter true and keeps the other flags and the type |
| GamePersons.TypeObserved | homework/structs/homework_test.go:88-104 | the type option changes only what Type returns |
| GamePersons.TypeFlagsCleared | homework/structs/homework_test.go:88-96 | clearing the three type flags leaves none set, so Type reads Builder |
| GamePersons.TypeFlagRaised | homework/structs/homework_test.go:88-104 | after clearing, exactly the flag of t is raised (none for an unknown t), and house, gun and family are kept |
| GamePersons.FlagsKept | homework/structs/homework_test.go:88-104 | writing a type flag keeps house, gun and family |
| GamePersons.ApplyAllObserved | homework/structs/homework_test.go:124-130 | NewGamePerson succeeds exactly when every option is admissible, and then reads as the options applied in order |
| GamePersons.NameRoundTrip | homework/structs/homework_test.go:13-18 | for a 42-byte name, Name returns it after WithName |
| GamePersons.CoordinatesRoundTrip | homework/structs/homework_test.go:20-26 | coordinates in the int32 range read back unchanged |
| GamePersons.AfterAllStep | homework/structs/homework_test.go:124-130 | applying a suffix of the options is applying its first, then the rest |
| GamePersons.TestOptionsAdmissible | homework/structs/homework_test.go:205-231 | every option of TestGamePerson is admissible |
| GamePersons.TestOptionsSteps0 | homework/structs/homework_test.go:205-231 | the first three test options set the name, coordinates and gold |
| GamePersons.TestOptionsSteps3 | homework/structs/homework_test.go:205-231 | the next three set mana, health and respect |
| GamePersons.TestOptionsSteps6 | homework/structs/homework_test.go:205-231 | the next three set strength, experience and level |
| GamePersons.TestOptionsSteps9 | homework/structs/homework_test.go:205-231 | the last three raise house and family and set the Builder type |
| GamePersons.TestOptionsObserved | homework/structs/homework_test.go:205-246 | the test's options give exactly the values the test asserts, with HasGun false |
| GamePersons.ScenarioGamePerson | homework/structs/homework_test.go:202-247 | TestGamePerson: NewGamePerson of its options reads back every asserted value |
| GamePersons.ZeroObserved | homework/structs/homework_test.go:124-126 | the zero person reads all zero, flags false, type Builder |
| Decimal.NatToString | homework/errors/homework_test.go:42 | `%d` of a count: a non-empty string of decimal digits |
| Decimal.NatToStringValue | homework/errors/homework_test.go:42 | the digits spell the number back, and only zero starts with '0' (no leading zeros) |
| Decimal.IntToString | homework/generics_and_reflection/homework_test.go:38 | `%v` of an int: a non-empty string with a leading '-' exactly when the number is negative |
| MultiErrors.Texts | homework/errors/homework_test.go:46-48 | the message of each error, in order |
| MultiErrors.MultiTextOf | homework/errors/homework_test.go:40-51 | a multi-error's message is the message format applied to its errors' messages |
| MultiErrors.NoMessages | homework/errors/homework_test.go:40-45 | no errors: "0 errors occured:\n" |
| MultiErrors.OneMessage | homework/errors/homework_test.go:40-51 | one error: "1 errors occured:\n\t* " + message + "\n" |
| MultiErrors.MultiTextListed | homework/errors/homework_test.go:40-51 | N > 0 errors: the count header, one "\t* " item per message, then one "\n" |
| MultiErrors.ItemsAppend | homework/errors/homework_test.go:46-48 | one more error adds one "\t* " item at the end |
| MultiErrors.ItemsConcat | homework/errors/homework_test.go:46-48 | the items of two lists are the items of each, in order |
| MultiErrors.TwoMessages | homework/errors/homework_test.go:124-131 | two errors give "2 errors occured:\n\t* error 1\t* error 2\n" |
| MultiErrors.RealErrorMessage | homework/errors/homework_test.go:148-153 | one error "real error" gives "1 errors occured:\n\t* real error\n" |
| MultiErrors.QueueUnwrap | homework/errors/homework_test.go:27-34 | QueueError.Unwrap is a queue of the remaining errors exactly when more than one is left, and nil otherwise |
| MultiErrors.MultiUnwrap | homework/errors/homework_test.go:53-58 | MultiError.Unwrap, over the multi-error's list: nil exactly when the list is empty, otherwise a QueueError over the same list, whose message is the first error's |
| MultiErrors.Text | homework/errors/homework_test.go:20-25 | `Error()` of each dynamic type: a QueueError reports its first error's message, or "" when empty; a multi-error the format MultiTextOf pins down; a plain or wrapping error its own text |
| MultiErrors.Unwrap | homework/errors/homework_test.go:27-58 | `errors.Unwrap`: a %w wrapper gives its inner error, a QueueError and a MultiError call their own Unwrap, a plain error gives nil |
| MultiErrors.UnwrapTimes | homework/errors/homework_test.go:155-171 | repeated `errors.Unwrap`, staying nil once nil is reached; UnwrapChain gives each step's result |
| MultiErrors.UnwrapChain | homework/errors/homework_test.go:20-34 | the k-th unwrap of a multi-error shows the k-th message, and one more unwrap than there are errors gives nil |
| MultiErrors.QueueChain | homework/errors/homework_test.go:27-34 | each unwrap of the queue drops the first error |
| MultiErrors.FindMulti | homework/errors/homework_test.go:82-85 | `errors.As` finds a multi-error argument's own errors, and nothing in a plain message or a QueueError |
| MultiErrors.AddAsWritten | homework/errors/homework_test.go:78-88 | add as written: nil adds nothing, a plain error adds itself, and when `errors.As` finds a multi-error the type assertion on the argument itself panics unless the argument is that multi-error; WrappedMultiPanics and AddAsWrittenAgrees state it |
| MultiErrors.WrappedMultiPanics | homework/errors/homework_test.go:78-88 | as written, add panics on a multi-error wrapped with %w |
| MultiErrors.AddAsWrittenAgrees | homework/errors/homework_test.go:78-88 | as written, add panics exactly when As finds a multi-error that is not the argument itself; otherwise it appends what Contribution says |
| MultiErrors.Contribution | homework/errors/homework_test.go:78-88 | nil adds nothing; a multi-error adds its elements; any other error adds itself |
| MultiErrors.WrappedMultiFlattens | homework/errors/homework_test.go:82-85 | corrected add flattens a wrapped multi-error into its elements |
| MultiErrors.FlattenConcat | homework/errors/homework_test.go:90-97 | appending two argument lists flattens each, in order |
| MultiErrors.FlattenCons | homework/errors/homework_test.go:90-97 | the first argument contributes first |
| MultiErrors.NilSkipped | homework/errors/homework_test.go:78-81 | a nil argument anywhere changes nothing |
| MultiErrors.FlattenCount | homework/errors/homework_test.go:78-97 | the error count is the non-nil plain arguments plus the sizes of the multi-error arguments |
| MultiErrors.MultiError.constructor | homework/errors/homework_test.go:36-38 | a new MultiError holds no errors |
| MultiErrors.MultiError.AsError | homework/errors/homework_test.go:36-38 | the MultiError seen as an error carries its list |
| MultiErrors.MultiError.Add | homework/errors/homework_test.go:78-88 | the corrected add of the Findings row: appends the argument's Contribution. It differs from the code only on a wrapped multi-error, where the code panics (AddAsWritten) |
| MultiErrors.MultiError.Error | homework/errors/homework_test.go:40-51 | the loop builds exactly the message format over the errors' messages |
| MultiErrors.Append | homework/errors/homework_test.go:90-97 | a fresh MultiError holding the flattened arguments, first argument first, built with the corrected add; an argument that wraps a multi-error makes the code panic instead (AddAsWritten) |
| MultiErrors.ScenarioTwoErrors | homework/errors/homework_test.go:124-131 | TestMultiError's message |
| MultiErrors.ScenarioNoArguments | homework/errors/homework_test.go:134-139 | Append(nil) reports 0 errors |
| MultiErrors.ScenarioOnlyNils | homework/errors/homework_test.go:141-146 | Append of nils only reports 0 errors |
| MultiErrors.OneAmongNils | homework/errors/homework_test.go:148-150 | nils around one real error keep only that error |
| MultiErrors.ScenarioOneAmongNils | homework/errors/homework_test.go:148-153 | one real error among nils gives "1 errors occured:\n\t* real error\n" |
| MultiErrors.ScenarioUnwrap | homework/errors/homework_test.go:155-171 | successive unwraps of three appended errors show errors 1 to 3, then nil |
| MultiErrors.ScenarioUnwrapRecursive | homework/errors/homework_test.go:173-193 | successive unwraps show errors 1 to 4, then nil |
| Combinators.Mapped | homework/functions/homework_test.go:14-18 | the same length, with the action applied at each position |
| Combinators.Filtered | homework/functions/homework_test.go:25-31 | the accepted elements in order (characterised by `FilteredSound`, `FilteredComplete`, `FilteredPartition`) |
| Combinators.FoldLeft | homework/functions/homework_test.go:35-39 | the accumulator after feeding every element, first to last (characterised by `FoldLeftConcat`, `FoldLeftSnoc`) |
| Combinators.Map | homework/functions/homework_test.go:10-19 | nil stays nil; otherwise the result has the input's length and `action(data[i])` at each i |
| Combinators.Filter | homework/functions/homework_test.go:21-32 | nil stays nil; otherwise the accepted elements in order, as `Filtered` defines |
| Combinators.Reduce | homework/functions/homework_test.go:34-40 | the left fold from initial; nil folds nothing |
| Combinators.FilteredConcat | homework/functions/homework_test.go:25-31 | filtering distributes over concatenation, keeping order |
| Combinators.FilteredSound | homework/functions/homework_test.go:25-31 | every kept element is accepted and comes from the input |
| Combinators.FilteredComplete | homework/functions/homework_test.go:25-31 | every accepted input element is kept |
| Combinators.FilteredPartition | homework/functions/homework_test.go:25-31 | what a predicate keeps plus what its negation keeps is the input, counting repeats |
| Combinators.FilteredSnoc | homework/functions/homework_test.go:25-31 | a last element is kept exactly when accepted |
| Combinators.FoldLeftConcat | homework/functions/homework_test.go:35-39 | folding a concatenation folds the second part from the first part's result |
| Combinators.FoldLeftSnoc | homework/functions/homework_test.go:35-39 | the last element is fed to the action last |
| Combinators.EvenNumbers | homework/functions/homework_test.go:102-108 | the even elements of 1..5 are [2, 4] |
| Combinators.PositiveNumbers | homework/functions/homework_test.go:109-115 | the positive elements of [-1, -2, 1, 2] are [1, 2] |
| Combinators.SumOfNumbers | homework/functions/homework_test.go:142-157 | summing 1..5 from any start adds 15 |
| Combinators.ScenarioMap | homework/functions/homework_test.go:42-82 | TestMap's four cases |
| Combinators.ScenarioFilter | homework/functions/homework_test.go:84-124 | TestFilter's four cases |
| Combinators.ScenarioReduce | homework/functions/homework_test.go:126-167 | TestReduce's four cases |
| Serializer.Split | homework/generics_and_reflection/homework_test.go:55 | `strings.Split` always yields at least one part |
| Serializer.JoinSplit | homework/generics_and_reflection/homework_test.go:55 | joining the parts with the separator gives back the string |
| Serializer.SplitJoin | homework/generics_and_reflection/homework_test.go:55 | splitting the join of separator-free parts gives back the parts |
| Serializer.SplitWhole | homework/generics_and_reflection/homework_test.go:55-58 | a string without the separator is one part |
| Serializer.SplitFirst | homework/generics_and_reflection/homework_test.go:55 | the text before the first separator is the first part |
| Serializer.SplitWholeIff | homework/generics_and_reflection/homework_test.go:55-58 | fewer than two parts exactly when there is no comma |
| Serializer.PiecesHaveNoSeparator | homework/generics_and_reflection/homework_test.go:55 | no part contains the separator |
| Serializer.Quote | homework/generics_and_reflection/homework_test.go:65 | `%q` output is enclosed in double quotes |
| Serializer.ParseProp | homework/generics_and_reflection/homework_test.go:54-66 | a tag without a comma gives (prop, false) with the whole tag as key; the flag is false exactly then; a panic reads "unknown property" and the quoted prop |
| Serializer.ParsePropFirstTwoDecide | homework/generics_and_reflection/homework_test.go:54-66 | with three or more pieces (any text after the second comma) only the first two decide: (b, true), (a, true) or the panic quoting the whole tag |
| Serializer.ParsePropKeyThenOmitempty | homework/generics_and_reflection/homework_test.go:62-64 | "k,omitempty" gives (k, true) |
| Serializer.ParsePropOmitemptyThenKey | homework/generics_and_reflection/homework_test.go:59-61 | "omitempty,k" gives (k, true) |
| Serializer.ParsePropUnknown | homework/generics_and_reflection/homework_test.go:65 | two parts, neither "omitempty", panic with the quoted prop |
| Serializer.FieldOutcome | homework/generics_and_reflection/homework_test.go:33-41 | an untagged field is skipped; a tag parseProp rejects panics |
| Serializer.SerializedAsWritten | homework/generics_and_reflection/homework_test.go:23-52 | the output as the loop writes it, field by field, with the newline decided by the field's index (the reference `Serialize` is proved against) |
| Serializer.Serialized | homework/generics_and_reflection/homework_test.go:43-49 | the intended output: the emitted lines joined by "\n" with no trailing newline (related to the written form by `WrittenVersusIntended`) |
| Serializer.Serialize | homework/generics_and_reflection/homework_test.go:23-52 | the loop produces exactly `SerializedAsWritten`, the field-by-field definition, which is the intended `Serialized` output unless the struct ends with a skipped field |
| Serializer.PanicPersists | homework/generics_and_reflection/homework_test.go:32-50 | a panic at one field is the outcome of the whole call |
| Serializer.TerminatedJoin | homework/generics_and_reflection/homework_test.go:43-49 | each line followed by "\n" is the lines joined by "\n" plus a final "\n" |
| Serializer.JoinSnoc | homework/generics_and_reflection/homework_test.go:43-49 | one more line is joined after a "\n" |
| Serializer.WrittenBeforeLast | homework/generics_and_reflection/homework_test.go:32-50 | before the last field, every emitted line is followed by "\n" |
| Serializer.AsWrittenWhenIntended | homework/generics_and_reflection/homework_test.go:46-49 | unless the struct ends with a skipped field, the output as written is the intended one |
| Serializer.WrittenVersusIntended | homework/generics_and_reflection/homework_test.go:46-49 | the output as written equals the intended one, plus a stray "\n" exactly when the last field is skipped after some line |
| Serializer.LastSkipped | homework/generics_and_reflection/homework_test.go:33-41 | a skipped last field leaves the text ending in "\n" |
| Serializer.LastEmitted | homework/generics_and_reflection/homework_test.go:43-49 | an emitted last field ends the text without "\n" |
| Serializer.TrailingNewline | homework/generics_and_reflection/homework_test.go:46-49 | as written, a skipped last field leaves "a=x\n" |
| Serializer.NoTrailingNewline | homework/generics_and_reflection/homework_test.go:46-49 | corrected, the same fields give "a=x" |
| Serializer.SerializedLines | homework/generics_and_reflection/homework_test.go:43-49 | corrected, splitting the output at "\n" gives back exactly the emitted `key=value` lines |
| Serializer.WrittenEmit | homework/generics_and_reflection/homework_test.go:43-49 | an emitted field appends `key=value`, then "\n" unless it is the last field by index |
| Serializer.WrittenSkip | homework/generics_and_reflection/homework_test.go:33-41 | a skipped field appends nothing |
| Serializer.FourWritten | homework/generics_and_reflection/homework_test.go:32-50 | four fields, the second possibly skipped, give their lines joined by "\n" |
| Serializer.PersonOutcomes | homework/generics_and_reflection/homework_test.go:14-19 | Person's four tags emit name, age and married, and skip an empty address |
| Serializer.PersonSerialized | homework/generics_and_reflection/homework_test.go:68-101 | a Person serializes to its `key=value` lines, without the address line when it is empty |
| Serializer.ScenarioNotStruct | homework/generics_and_reflection/homework_test.go:24-27 | a non-struct input panics with "expected struct type, actual: int" |
| Allocator.Identity | homework/allocator/homework_test.go:21 | the i-th pointer refers to cell i |
| Allocator.Defragmented | homework/allocator/homework_test.go:13-27 | the memory after both loops: moved bytes below the pointer count, zero above; the same length as before |
| Allocator.Moved | homework/allocator/homework_test.go:14-22 | the first loop keeps the memory's length and touches no cell past the pointers handled |
| Allocator.Defragment | homework/allocator/homework_test.go:13-27 | the memory becomes `Defragmented` of its old contents; every byte past the last pointer is zero; pointer i refers to cell i |
| Allocator.MovedInOrder | homework/allocator/homework_test.go:20 | when no pointer is below its own cell, each handled cell gets the byte its pointer originally referred to |
| Allocator.IncreasingNotBelow | homework/allocator/homework_test.go:29-60 | strictly increasing pointers are never below their own cell |
| Allocator.DefragmentedInOrder | homework/allocator/homework_test.go:20-26 | with strictly increasing pointers, cell i holds the byte pointer i referred to, and the rest is zero |
| Allocator.MovedIdle | homework/allocator/homework_test.go:17-19 | pointers that already refer to their own cells move nothing |
| Allocator.DefragmentedIdle | homework/allocator/homework_test.go:63-81 | compacted memory with a zero tail is left exactly as it is |
| Allocator.DefragmentIdempotent | homework/allocator/homework_test.go:63-81 | defragmenting again through the updated pointers changes nothing |
| Allocator.SwappedPointers | homework/allocator/homework_test.go:20 | with pointers out of order, the second copy reads a cell already overwritten |
| Allocator.ScenarioDefragmentation | homework/allocator/homework_test.go:29-61 | the four 0xFF bytes at 0, 5, 10 and 15 end in cells 0 to 3, the rest zero, pointers 0 to 3 |
| Allocator.ScenarioDefragmentationTwice | homework/allocator/homework_test.go:63-81 | compacted memory and pointers stay as they are |
| Tracer.Walked | homework/garbage_collector/homework_test.go:12-24 | the walk only adds addresses of the memory, includes a nonzero start, and never adds 0 |
| Tracer.WalkedAll | homework/garbage_collector/homework_test.go:34-42 | walking from every stack word only adds addresses of the memory |
| Tracer.Follow | homework/garbage_collector/homework_test.go:21-23 | dereferencing n times from a pointer gives a pointer |
| Tracer.Walker.constructor | homework/garbage_collector/homework_test.go:35 | a new walker has visited nothing |
| Tracer.Walker.Add | homework/garbage_collector/homework_test.go:12-24 | the visited set becomes `Walked`; 0 or a visited address changes nothing; the set only grows and includes a nonzero start |
| Tracer.Walker.Slice | homework/garbage_collector/homework_test.go:26-32 | the visited addresses, each once |
| Tracer.Trace | homework/garbage_collector/homework_test.go:34-42 | the result holds exactly the nonzero addresses on some stack word's dereference chain, each once |
| Tracer.FlattenIndex | homework/garbage_collector/homework_test.go:37-39 | every stack word has a position in the stacks walked in order |
| Tracer.FlattenSlot | homework/garbage_collector/homework_test.go:37-39 | every position of that walk is some stack word |
| Tracer.WalkedWithin | homework/garbage_collector/homework_test.go:12-24 | Add only adds what it had visited or what lies on the chain from its start |
| Tracer.WalkedClosed | homework/garbage_collector/homework_test.go:12-24 | a visited set closed under dereference stays closed after Add |
| Tracer.FollowStays | homework/garbage_collector/homework_test.go:21-23 | a chain never leaves a set closed under dereference |
| Tracer.WalkedExactly | homework/garbage_collector/homework_test.go:12-24 | from a closed set, Add adds exactly the chain from its start |
| Tracer.TracedClosed | homework/garbage_collector/homework_test.go:34-42 | Trace's visited set is closed under dereference |
| Tracer.TracedWithin | homework/garbage_collector/homework_test.go:34-42 | every traced address lies on some stack word's chain |
| Tracer.TracedCovers | homework/garbage_collector/homework_test.go:34-42 | every address on some stack word's chain is traced |
| Tracer.TracedExactly | homework/garbage_collector/homework_test.go:34-42 | traced exactly when on some stack word's chain |
| Tracer.ChainsWithin | homework/garbage_collector/homework_test.go:54-85 | a closed set holding every stack word holds every chain |
| Tracer.TestChains | homework/garbage_collector/homework_test.go:44-85 | in the test's memory and stacks, the chains reach exactly 10 to 13 and 20 to 23 |
| Tracer.ScenarioTrace | homework/garbage_collector/homework_test.go:44-87 | TestTrace: exactly those eight addresses, each once |

## Left out

- The concurrency exercises (`sync_primitives`, `channels`, `contexts`) and the dependency-injection container (`interfaces`) are not part of this model. Their behaviour rests on goroutines, timing, runtime type switches and pointer identity.
- `MultiError.Is` and `MultiError.As` (homework/errors/homework_test.go:60-76) are left out. They delegate to the dynamic type matching of Go's `errors` package. `FindMulti` stands in for the one `errors.As` call that `add` makes.
- Go's reflection and `fmt.Sprintf("%v")` in `Serialize` are not modelled. A struct is a list of fields, each an optional `properties` tag and an already-formatted value; any other value is its kind's name.
- Quote: the model escapes double quotes, backslashes, newlines and tabs as Go's `%q` does. Go's escapes for other control and non-printable characters are not modelled.
- The unsafe pointers of `Defragment` and `Walker.Add` are not modelled as raw memory. A pointer is an index into the byte array, and memory is a finite map from address to word. The `unsafe.Sizeof(GamePerson{}) <= 64` layout assertion is not modelled either.
- Defragment: requires at most as many pointers as bytes, and every pointer inside the memory, where Go would panic on an out-of-range index. It also requires the two arrays to be distinct, which Go's types guarantee.
- Trace: requires every stack word to be 0 or an address of the memory, and every word stored there to be 0 or such an address. Go would read arbitrary memory otherwise.
- Tracer.Walker.Slice: Go ranges over a map, whose order is unspecified. The loop picks any remaining element, so the contract fixes the elements but not their order.
- OrderedMaps.InsertInto and OrderedMaps.EraseFrom: the in-place updates of tree nodes are modelled on values, as functions that return the new subtree. The nodes are never shared, so aliasing is not captured. `OrderedMap` still holds the root and the `size` field and reassigns them in `Insert` and `Erase`.
- OrderedMaps: the map's keys are `int`. TestOrderedMap_HappyPaths' "add an element" inserts the string key "10", which the scenario models as the integer 10. Its float, string and bool values are modelled as `int` values, and no test reads a value back.
- BitFields: the `Set` methods return the new word instead of overwriting the receiver through a pointer.
- GamePersons: the options are functions from the person before to the person after, rather than closures writing through a pointer. Nothing else can see the person while NewGamePerson builds it.
- The generic constraints (`constraints.Ordered`, `QueueElement`) are not modelled: keys, values and queue elements are `int`, or a type parameter where the code is generic.
- `container/heap` is not called. Its Push, Pop and Fix are written out as `HeapPush`, `HeapPop` and `HeapFix`, with the package's sift-up and sift-down.
- Combinators.Map: Go's `int` is 64 bits, so `Increment` and `Square` in the tests can wrap around. The model uses unbounded integers, and the tests stay far from the limits.
- Combinators.Reduce: the same holds for the sums. 64-bit wrap-around is not modelled.
- Tracer: `uintptr` words are natural numbers, with no 64-bit limit. TestTrace's addresses come from the Go runtime, so the model gives them fixed stand-ins: the five heap words at 10 to 14, and the four pointer variables at 20 to 23.
- MultiErrors.MultiError.Add: models the corrected add of the Findings row. On an argument that wraps a `*MultiError` with %w, Go's add panics at the type assertion `err.(*MultiError)`, while the model appends the wrapped multi-error's errors. MultiErrors.AddAsWritten models the code as written.
- MultiErrors.Append: it adds through MultiError.Add, so it has the same correction. Where the model returns the flattened errors, the code panics.
- MultiErrors.MultiUnwrap: `(*MultiError).Unwrap` is modelled as a function of the multi-error's list, not as a method of the object. It reads the same list that MultiError.AsError carries.
- CircularQueues.CircularQueue.constructor: the capacity is a `nat`. Go's `make([]int, size)` panics on a negative size, and the model has no such input.
- OrderedMaps.OrderedMap.ForEach: returns the ordered list of (key, value) visits instead of calling `action(key, value)` on each. A callback's own effects are captured only as that trace; the tests' callback appends the keys, and ReadBack models that.
- MultiErrors.MultiError.AsError: a `*MultiError` placed inside another error is modelled by the value of its list at that moment. Later `Add` calls on the same object are not seen through the copy.
- MultiErrors.Append: nil arguments are dropped, as Go does. A nil interface stored directly inside `Errors` cannot arise through `Append`, so it is not modelled.
- Serializer.PersonSerialized: TestSerialization's literal Person values are stated symbolically, for any name, address, age and married. The concrete strings are instances of the proved lemma.
- TaskScheduler.Tasks.Less: Go's `sort.Interface` methods take `int` indices, which are natural numbers here, and the callers only pass in-range slots.

## Findings

| source | as written | input that shows it | evidently intended | confidence | as-written member | corrected member |
|---|---|---|---|---|---|---|
| homework/errors/homework_test.go:78-88 | `add` checks for a multi-error with `errors.As`, which looks through `%w` wrappers, but then type-asserts `err.(*MultiError)` on the argument itself | `Append(nil, fmt.Errorf("context: %w", Append(nil, errors.New("error 1"))))` panics in the type assertion | append the elements of the multi-error that `errors.As` found | not executed | MultiErrors.AddAsWritten (shown by MultiErrors.WrappedMultiPanics) | MultiErrors.Contribution (used by MultiErrors.MultiError.Add; shown by MultiErrors.WrappedMultiFlattens) |
| homework/generics_and_reflection/homework_test.go:46-49 | the newline is omitted only after the field whose index is last, not after the last line written | a struct with `A string` tagged `properties:"a"` = "x" and `B string` tagged `properties:"b,omitempty"` = "" serializes to "a=x\n" | no newline after the last line written | not executed | Serializer.Serialize (as `SerializedAsWritten`; shown by Serializer.TrailingNewline and Serializer.WrittenVersusIntended) | Serializer.Serialized (shown by Serializer.NoTrailingNewline and Serializer.SerializedLines) |
