# dicey: a verified model of its core

Dicey is an IPC library in C: clients talk to a server over a pipe, the server keeps a registry of objects, plugins do
work for it, and values travel as trees of typed arguments. This project models the parts of it where the state is
intricate and proves, for every input and every run, what those parts are for.

| file | models |
|---|---|
| `HashTable.dfy` | the chained hash table of `src/sup/hashtable.c`: chains through one cell array, holes, growth, rehashing, iteration |
| `Registry.dfy` | the object registry of `src/ipc/server/registry.c`: one path table, aliases, reference counts, the final sweep |
| `Typedescr.dfy` | the type descriptor parser of `src/wirefmt/typedescr.c` |
| `Validate.dfy` | the value checker of `src/wirefmt/value-validate.c`, a second walker over the same text |
| `RequestRing.dfy`, `RingSearch.dfy`, `PendingReqs.dfy` | the server's ring of pending requests, `src/ipc/server/pending-reqs.c`: window, holes and compaction; the binary search with its 64-bit bounds; the operations and their runs |
| `Client.dfy` | the client's sequence numbers and waiting list, `src/ipc/client/client.c` and `waiting-list.c` |
| `Base64.dfy` | the encoder and decoder of `samples/util/src/base64.c` |
| `Plugins.dfy` | the jobs handed to plugins, `src/ipc/server/plugins-work.c` and `plugins.c` |
| `Queue.dfy` | the bounded queue of `src/ipc/queue.c`, with its parked producers and consumers |
| `Builders.dfy`, `Messages.dfy` | the value and message builders of `src/wirefmt/builders.c` and the deep copy of `src/wirefmt/packet-args.c` |
| `Wrappers.dfy`, `Arith.dfy`, `Strings.dfy` | options, error codes, and a few facts about division and concatenation |

`dafny verify dfyconfig.toml` checks the whole project.

## What is proved

- Every run of the hash table answers what a plain map answers. The bucket chains ascend and partition the cells and
  rehashing preserves the map. However long the run, the load is below 75% after every operation as long as there are
  fewer than 42,949,672 entries, because the next prime always suffices, so a rehash never starts another one. A set
  then fails exactly when its bucket has no hole and the full array cannot grow within 32 bits.
- Every run of the registry, in which an object is removed by one name only when it has no other, returns the codes
  that a plain directory of names gives, the paths to an object are always its main path and its aliases, its count is
  their number, and the final sweep takes the count of every object the run made to exactly zero.
- The descriptor parser and a printer of signatures undo each other, and the value checker accepts exactly the values
  that fit, in step with the parser.
- Base64 decoding undoes encoding for every non-empty input and skips every character outside the alphabet, and the
  encoder's buffer is always large enough and exactly full in one family of lengths.
- In every run of the plugin host each job's callback is called exactly once. An answer is accepted exactly when it is
  the first to its id and the plugin is still there, and reaches the job the id was given to.
- In every run of a client connection a reply goes to the sender of its number or to nobody who waits for it. In every
  run of the server's ring the gate expects the number that the client draws next, through any number of wrap-arounds
  and whatever has become of the ring, so it never refuses a client.
- The binary search over the ring either ends within 130 turns or never, for every ring and every number. In a full
  ring its outcome depends on nothing but the capacity, how many numbers are lower, and what stands there; the oldest
  request is always found.
- In every run of calls on a message builder, with any number of value builders that each fill the slot they were lent
  in one go, a packet holds exactly the last path, selector, number and value set since the message was begun. While
  the slot is lent no call but the holder's and a discard changes the message.

Six laws that one would expect turn out to hold under a condition only. The model keeps the code's behaviour and
states the exact condition, each time as an if-and-only-if:

- *The queue is a FIFO.* `dicey_queue_push` computes the new tail before it waits, so a parked producer that another
  push overtakes stores its item where nobody looks (`Queue.OvertakenItemIsLost`). A run is a run of a FIFO exactly
  when no producer is woken after a number of other pushes that is not a multiple of 128 (`Queue.RunRefines`).
- *The ring is a list of requests.* Completing the newest request moves `end` forward instead of back, and requests
  added after it can hide older ones from the search: `PendingReqs.NewestCompletedGoesAstray` is such a run. Adding to
  a full ring that is at most 80% live compacts it without moving `end`. Numbers that start over meet slots that
  remember larger ones. A search never leaves a hole with the sought number, and in a full ring or below the window its
  unsigned bounds wrap around: with the first twelve requests pending, completing one of the last four never returns
  (`PendingReqs.FullRingNeverReturns`). `PendingReqs.Steady` is the condition on the ring and the operation;
  `PendingReqs.StepIsFaithful` and `PendingReqs.RunIsFaithful` prove it exact, for one operation and for whole runs.
  In a full ring it is a condition on the capacity and the rank of the number; below the window it is that the search,
  which takes at most 130 turns to show it, ends.
- *A value is accepted or rejected.* A tuple with too few elements is neither: one of the checker's assertions stops it,
  exactly when everything before it fits (`Validate.JudgeMeansFits`, `Validate.ShortTupleAsserts`).
- *Removing a path keeps the registry consistent.* `dicey_registry_remove_object` does exactly when the path is the
  only name of its object (`Registry.CutIsSound`, and `Registry.DroppingOneOfTwo` for an object with an alias).
- *A lent slot is filled by its holder only.* Discarding a message does not reset the value builder that holds its
  slot. Such an orphan can still fill, and is told that it succeeded, while another builder holds the slot of the next
  message (`Messages.OrphanFills`, and `Messages.OrphanRun` for the shortest run). A fill by a builder that does not
  hold the slot is refused exactly when the builder is not an orphan (`Messages.FillByAnother`).
- *The calls that build a tree leave that tree.* The item count is 16 bits wide, so they do exactly when no list has
  more than 65535 children (`Builders.BuiltIsTheTree`, and `Builders.TooManyToCount` for a tuple of 65536).

Two readings of the code differ from its documentation. The header says that the elements of an array argument are of
its element type; the builder checks this for elements that are set but not for lists that are started in an array, and
`Builders.Fits` says which trees are let through. The header of the hash table allows null values
(`include/dicey/core/hashtable.h:43`), yet `dicey_hashtable_contains` denies a key that is stored with one;
`HashTable.Handle.Contains` says so.

## Model

| member | source | states |
|---|---|---|
| HashTable.Djb2 | src/sup/hashtable.c:143-157 | the shift-and-add loop with 32-bit truncation at every step computes the key read in base 33, truncated once |
| HashTable.BucketFindEntry | src/sup/hashtable.c:102-141 | a chain walk finds the key if any cell of the bucket holds it, otherwise the last cell and a hole of that bucket if it has one |
| HashTable.ChainsPartition | src/sup/hashtable.c:102-141 | following the offsets from a bucket gives strictly ascending cells, exactly those of that bucket |
| HashTable.KeyOnItsChain | src/sup/hashtable.c:102-182 | a stored key sits in exactly one cell, on the chain of its own hash |
| HashTable.HashGetEntryForSet | src/sup/hashtable.c:163-182 | the entry found is the key's only cell, and a hole offered for it belongs to its own bucket |
| HashTable.AppendKeepsLinks | src/sup/hashtable.c:311-351 | linking a fresh cell behind the last one of a bucket keeps all chains linked, ascending and complete |
| HashTable.WriteKeepsLinks | src/sup/hashtable.c:376-425 | writing or erasing a key or value leaves every chain as it was |
| HashTable.GrowKeeps | src/sup/hashtable.c:283-309 | blank cells behind the array change neither chains nor contents |
| HashTable.HashUpdate | src/sup/hashtable.c:376-387 | overwriting gives the map with that key's value replaced and no other change |
| HashTable.HashFill | src/sup/hashtable.c:412-425 | reusing a hole gives the map with the new key, one more entry, and no new cell |
| HashTable.HashPunch | src/sup/hashtable.c:533-557 | removal gives the map without the key and keeps all chains |
| HashTable.GrowOverflow | src/sup/hashtable.c:288-295 | the 32-bit comparison catches exactly the capacities whose product wraps |
| HashTable.HashGrow | src/sup/hashtable.c:283-309 | growth fails exactly on overflow and otherwise keeps all cells in front of half as many blank ones |
| HashTable.HashBucketAppend | src/sup/hashtable.c:311-351 | appending adds exactly the new key, growing when full, and otherwise leaves everything as it was |
| HashTable.LoadFactor | src/sup/hashtable.c:353-357 | the truncated percentage reaches the threshold exactly when the wrapped product reaches 75 times the buckets |
| HashTable.NextPrimeSuffices | src/sup/hashtable.c:42-49 | whenever a table below the threshold, with fewer entries than the percentage can count, is due for a rehash, there is a next prime and the load stays below the threshold with it while all entries are moved |
| HashTable.HashNew | src/sup/hashtable.c:188-208 | a fresh table of a given prime is empty and well linked |
| HashTable.HashSet | src/sup/hashtable.c:359-435 | the result, the old value and the new map are those of a map update and failure changes nothing; below the entry bound the load stays below 75%, at most one rehash takes place, and failure is exactly a full bucket in a full array that cannot grow |
| HashTable.HashSetNew | src/sup/hashtable.c:389-435 | the same for a key that is not there, by a hole, a new cell or a rehash |
| HashTable.HashRehashAndSetNew | src/sup/hashtable.c:223-281 | rehashing preserves the whole map plus the new key; below the entry bound it always succeeds, with exactly the next prime, a load below 75%, and no more overflow cells than entries |
| HashTable.SpareIsNotCramped | src/sup/hashtable.c:283-309 | a table with no more overflow cells than entries, below the entry bound, can always grow |
| HashTable.IterNext | src/sup/hashtable.c:463-501 | a step stops at the next stored entry and skips only holes |
| HashTable.IterationIsExact | src/sup/hashtable.c:463-501 | the cells an iterator stops at hold every stored key once, with its value, and nothing else |
| HashTable.Iterate | src/sup/hashtable.c:456-501 | driving the iterator from start to end gives exactly the stored entries |
| HashTable.TableSet | src/sup/hashtable.c:559-575 | the same through a null pointer, which allocates the first table |
| HashTable.TableGet | src/sup/hashtable.c:507-531 | the value last set and not removed, or null |
| HashTable.TableRemove | src/sup/hashtable.c:533-557 | the removed value or null, and the map without that key |
| HashTable.Handle.Set | src/sup/hashtable.c:559-575 | the caller's table is updated in place to the map with the new value |
| HashTable.Handle.Get | src/sup/hashtable.c:507-531 | reads the map |
| HashTable.Handle.Contains | src/sup/hashtable.c:503-505 | true exactly for a key stored with a value that is not null |
| HashTable.Handle.Remove | src/sup/hashtable.c:533-557 | removes from the map in place and returns what was there |
| HashTable.Handle.Size | src/sup/hashtable.c:577-579 | the entry count is the size of the map |
| HashTable.Run | src/sup/hashtable.c:359-579 | every run from the empty table answers like a map, the load after every operation is below 75% while the entries are below the bound, and no set fails in a run within it |
| HashTable.ReadsLastWrite | src/sup/hashtable.c:359-579 | in every run that agrees with a map, reading a key gives the value last stored under it, and null if it was never stored or has been removed since |
| Registry.Object.AddTraits | src/ipc/server/registry.c:416-441 | stops with the right code at the first trait that is unknown or already there, otherwise adds exactly the listed ones |
| Registry.MadeIsSound | src/ipc/server/registry.c:204-238 | entering a new object keeps the names of every object equal to its main path and aliases, with the count their number |
| Registry.NamedIsSound | src/ipc/server/registry.c:668-697 | a new alias with one more reference keeps that invariant |
| Registry.UnnamedIsSound | src/ipc/server/registry.c:944-955 | removing an alias with its reference keeps it |
| Registry.BaredIsSound | src/ipc/server/registry.c:894-911 | removing all aliases keeps it |
| Registry.GoneIsSound | src/ipc/server/registry.c:147-168 | removing an object with all its names keeps it and leaves the object freed |
| Registry.SameMain | src/ipc/server/registry.c:807-813 | two paths have the same main path exactly when they lead to the same object |
| Registry.Registry.Create | src/ipc/server/registry.c:408-455 | a new object is entered with exactly its traits, or freed when a trait is refused |
| Registry.Registry.Add | src/ipc/server/registry.c:396-508 | code and directory are those of adding a name; malformed, taken and bad-trait paths change nothing |
| Registry.Registry.Alias | src/ipc/server/registry.c:635-698 | the alias leads where the path does, with all five refusals told apart |
| Registry.Registry.RemovePath | src/ipc/server/registry.c:122-133 | drops exactly that path and one reference of its object |
| Registry.Registry.Unalias | src/ipc/server/registry.c:931-956 | takes away an alias and refuses a main path |
| Registry.Registry.DropAliases | src/ipc/server/registry.c:149-158 | every alias is found in the table and dropped, and the count comes down to one without reaching zero |
| Registry.Registry.RemoveAllAliases | src/ipc/server/registry.c:876-912 | takes exactly the other paths of the object out of the table, and insists on being given the main one |
| Registry.Registry.Delete | src/ipc/server/registry.c:135-169 | through any name, removes exactly the names of that object, whose count ends at zero |
| Registry.CutIsSound | src/ipc/server/registry.c:914-929 | dropping one path keeps the invariant exactly when it is the only name of its object |
| Registry.DroppingOneOfTwo | src/ipc/server/registry.c:914-929 | with one alias, dropping either path leaves an unsound registry: without the main path, the alias leads to an object whose main path leads nowhere |
| Registry.Registry.RemoveObject | src/ipc/server/registry.c:914-929 | the public removal, with that exact condition for the registry staying valid; then nothing but that name is gone from the directory |
| Registry.Registry.Deinit | src/ipc/server/registry.c:370-381 | the sweep never dereferences a freed object and takes every object ever made to a count of zero |
| Registry.CountIsNames | src/ipc/server/registry.c:370-381 | in a sound store the count of an object is the number of paths the sweep will find for it |
| Registry.Registry.IsAlias | src/ipc/server/registry.c:857-874 | a path is an alias exactly when it is nobody's main path |
| Registry.Registry.MainPath | src/ipc/server/registry.c:807-813 | the main path of whatever the path leads to |
| Registry.Registry.ElementEntry | src/ipc/server/registry.c:747-788 | an element is found under any name of an object exactly when the object has the trait and the trait the element, and comes with the main path |
| Registry.StaysClosed | src/ipc/server/registry.c:396-956 | after any operation every main path in the directory still leads to its own object, where an object is removed by name only if it has no other |
| Registry.UnaliasUndoesAlias | src/ipc/server/registry.c:635-698 | an alias that was accepted can be taken away again, which restores the directory |
| Registry.DeleteTakesAllNames | src/ipc/server/registry.c:135-169 | deleting through two names of an object is the same, and equals removing its aliases and then the main path |
| Registry.AliasesGone | src/ipc/server/registry.c:876-912 | the aliases of an object can be removed exactly through its main path, which is then its only name; unaliasing a former alias finds nothing, and the names of other objects are unchanged |
| Registry.AddIsFound | src/ipc/server/registry.c:396-455 | an object is added exactly under a free, well-formed path with different known traits, and is found there with those and the introspection trait; every other path is unchanged |
| Registry.FirstBadTrait | src/ipc/server/registry.c:416-441 | the first trait that is unknown or already there decides which code is returned |
| Registry.AliasTwice | src/ipc/server/registry.c:642-669 | aliasing the same object again gives EEXIST; an alias of another object, a main path and the path itself give EINVAL |
| Registry.MalformedIsRefused | src/ipc/server/registry.c:103-120 | every operation refuses exactly the paths that are empty, do not start with a slash or end in one, and a well-formed path that is not there is not found |
| Registry.RemoveIsDelete | src/ipc/server/registry.c:914-929 | for an object with a single name, removing it by that name has the code and the effect of deleting it |
| Registry.Run | src/ipc/server/registry.c:370-956 | every run in which an object is removed by name only if it has no other returns the codes of the directory, and after the sweep every one of the objects made, as many as additions that got past the path checks, has a count of zero |
| Typedescr.ReadUndoesPrint | src/wirefmt/typedescr.c:84-148 | reading a printed signature followed by any text gives the signature and stops exactly at that text |
| Typedescr.ReadIsSound | src/wirefmt/typedescr.c:84-148 | whatever is read off the front is the printing of one well-formed signature |
| Typedescr.PrintIsPrefixFree | include/dicey/core/typedescr.h:71-96 | a text starts with at most one signature |
| Typedescr.Spelled | include/dicey/core/type.h:160-195 | the brackets, braces and parentheses of the printing and the seventeen leaf characters, spelled out |
| Typedescr.MatchExact | src/wirefmt/typedescr.c:36-48 | succeeds exactly when the tag is next, and moves just past it |
| Typedescr.SkipWhitespace | src/wirefmt/typedescr.c:50-56 | skips white space only, up to the first other character |
| Typedescr.SpacesAre | src/wirefmt/typedescr.c:50-56 | white space is the blank and the characters 9 to 13 |
| Typedescr.ParseArray | src/wirefmt/typedescr.c:84-92 | accepts exactly an array signature and stops behind its bracket |
| Typedescr.ParsePair | src/wirefmt/typedescr.c:94-106 | accepts exactly a pair signature and stops behind its brace |
| Typedescr.ParseTuple | src/wirefmt/typedescr.c:108-124 | accepts exactly a non-empty tuple signature and stops behind its parenthesis |
| Typedescr.ParseType | src/wirefmt/typedescr.c:126-148 | accepts exactly the texts that start with a signature, and the end of the text |
| Typedescr.InView | src/wirefmt/typedescr.c:150-168 | moves the view past exactly one printed signature, or leaves it alone |
| Typedescr.ParseArrow | src/wirefmt/typedescr.c:68-80 | consumes optional white space, the arrow and optional white space, and finds what follows them |
| Typedescr.Parse | src/wirefmt/typedescr.c:174-220 | a value exactly for the empty text or one printed signature; functional exactly for two of them around an arrow, with the two views being the two printings |
| Validate.JudgeMeansFits | src/wirefmt/value-validate.c:61-146 | the checker accepts exactly the values that fit, and an assertion stops it exactly when a tuple runs out with nothing wrong before |
| Validate.PlainFits | src/wirefmt/value-validate.c:61-146 | without variants and arrays of containers, a value fits exactly the signature that it has by itself |
| Validate.RunningOutIsShort | src/wirefmt/value-validate.c:100-120 | so a value without a short tuple is judged by fitting alone |
| Validate.ShortTupleAsserts | src/wirefmt/value-validate.c:115-116 | a tuple of one against a signature of two is stopped by an assertion |
| Validate.CheckSig | src/wirefmt/value-validate.c:61-146 | on a text that starts with a signature the walker gives that verdict, and on acceptance it stops right behind the signature |
| Validate.CheckArray | src/wirefmt/value-validate.c:71-98 | judges the element type only and steps over the whole element signature |
| Validate.CheckTuple | src/wirefmt/value-validate.c:100-120 | judges element by element, in step with the signature, including both length mismatches |
| Validate.CheckPair | src/wirefmt/value-validate.c:122-140 | judges both halves in order |
| Validate.JudgeDecides | src/wirefmt/value-validate.c:61-146 | a value without a short tuple is accepted if it fits and rejected if not |
| Validate.CanBeReturnedFrom | src/wirefmt/value-validate.c:148-179 | an error may be returned from anything; any other value is accepted exactly when it fits the output side, and stopped by an assertion exactly when a tuple runs out |
| Validate.IsCompatibleWith | src/wirefmt/value-validate.c:181-208 | the same against the whole value signature or the input side; what is no descriptor is rejected |
| RequestRing.LivePunch | src/ipc/server/pending-reqs.c:61-81 | emptying a live slot removes that request and keeps the order of the others |
| RequestRing.InvalidatedIsOk | src/ipc/server/pending-reqs.c:61-81 | the live requests lose exactly the completed one and the ring stays ordered, exactly unless the newest is completed alone; also in a full ring |
| RequestRing.Compact | src/ipc/server/pending-reqs.c:172-196 | one walk around a full ring moves exactly the live requests together, in order, also in place |
| RequestRing.GrownIsOk | src/ipc/server/pending-reqs.c:139-204 | growing gives an ordered ring with the same live requests and no holes |
| RequestRing.FullIsSmall | src/ipc/server/pending-reqs.c:154-166 | an ordered full ring has no more slots than there are 32-bit numbers, so growth stays within bounds |
| RequestRing.AddedIsOk | src/ipc/server/pending-reqs.c:243-284 | adding the next number makes the live requests grow by exactly that one and keeps the order if and only if the ring is not full, nothing is pending or more than 80% of the slots are live, and the number follows; the buffer grows by half in the last case only |
| RequestRing.AddedOver | src/ipc/server/pending-reqs.c:172-196 | compacting in place and adding leaves the new request alone |
| RequestRing.SkippedIsOk | src/ipc/server/pending-reqs.c:347-364 | skipping a number keeps the order exactly when no slot remembers a larger one |
| RingSearch.TotalLenIsRight | src/ipc/server/pending-reqs.c:87-93 | the computed window length is right exactly when the ring is not full |
| RingSearch.SearchIsRight | src/ipc/server/pending-reqs.c:106-133 | inside an ordered window, across wrap-around and holes, a live number is found at its own offset, a missing one reported, and a hole with that number never left |
| RingSearch.EndsSoonOrNever | src/ipc/server/pending-reqs.c:106-133 | for every ring and number, also when the bounds wrap around 64 bits, the search ends within 130 turns or never |
| RingSearch.FoundIsLive | src/ipc/server/pending-reqs.c:106-133 | wherever the search stops, it stops at a live request with the sought number |
| RingSearch.BelowEverythingNeverEnds | src/ipc/server/pending-reqs.c:106-133 | the search for a number below every slot's never ends |
| RingSearch.FullSearch | src/ipc/server/pending-reqs.c:87-133 | in a full ordered ring the outcome of the search depends only on the capacity, the number of lower slots, and whether the next one holds the number, live or not |
| RingSearch.OldestIsFound | src/ipc/server/pending-reqs.c:87-133 | the oldest slot of a full ring, if live, is found for every capacity |
| RingSearch.OutOfReachNeverEnds | src/ipc/server/pending-reqs.c:87-133 | in a full ring the search never ends for a number that every slot one less than a power of two from the start, up to the 63rd, is below |
| RingSearch.SearchSeq | src/ipc/server/pending-reqs.c:106-133 | the loop gives that result, and is still going on exactly when it never ends |
| PendingReqs.AddIsFaithful | src/ipc/server/pending-reqs.c:243-284 | adding does what it does to a list, and leaves an ordered ring, exactly when it is steady |
| PendingReqs.SkipIsFaithful | src/ipc/server/pending-reqs.c:347-364 | the same for skipping |
| PendingReqs.CompleteIsFaithful | src/ipc/server/pending-reqs.c:286-307 | the same for completing, including full rings, by capacity and rank, and numbers below the window |
| PendingReqs.OldestCompletes | src/ipc/server/pending-reqs.c:286-307 | a live request in the oldest slot of an ordered ring can always be completed, also when the ring is full |
| PendingReqs.StepIsFaithful | src/ipc/server/pending-reqs.c:228-364 | from an ordered ring any operation follows the list exactly when it is steady |
| PendingReqs.RunIsFaithful | src/ipc/server/pending-reqs.c:228-364 | a run follows the list at every step exactly when every operation is steady in the ring it meets, and then gives its codes and its requests |
| PendingReqs.NewestCompletedGoesAstray | src/ipc/server/pending-reqs.c:61-133 | after two requests, the newer completed, and two more, the oldest is pending and reported missing |
| PendingReqs.FullNeverReturns | src/ipc/server/pending-reqs.c:87-133 | completing a number out of reach in a full ordered ring never returns |
| PendingReqs.FullRingNeverReturns | src/ipc/server/pending-reqs.c:61-133 | after adding the requests 2 to 24, which fill the ring, completing 18, 20, 22 or 24 never returns although it is pending |
| PendingReqs.Handle.Apply | src/ipc/server/pending-reqs.c:243-364 | the server's pointer is updated in place, like the request list when the operation is steady |
| PendingReqs.Run | src/ipc/server/pending-reqs.c:243-364 | the operations are carried out as far as they return, with the codes of the list if all are steady |
| Client.NthAdvances | src/ipc/client/client.c:95-113 | client and server advance alike, over even numbers from 2 to 0xFFFFFFFE and back to 2 |
| Client.NthRepeats | src/ipc/client/client.c:101-113 | two numbers are equal exactly when a multiple of 2^31 - 1 lies between them |
| Client.GateExpectsNth | src/ipc/server/pending-reqs.c:228-364 | after every run of adding, skipping and completing on the ring, through any number of wrap-arounds, the gate expects the number the client draws next |
| Client.GateTakesTheClient | src/ipc/server/pending-reqs.c:228-284 | the gate never refuses numbers presented in the order in which the client draws them |
| Client.ClientState.ResetSeq | src/ipc/client/client.c:95-99 | the numbers start over |
| Client.ClientState.NextSeq | src/ipc/client/client.c:101-113 | gives the next number of the cycle |
| Client.ClientState.RemoveSeq | src/ipc/client/waiting-list.c:35-54 | takes exactly the first entry with that number |
| Client.ClientState.RemoveTask | src/ipc/client/waiting-list.c:56-81 | takes exactly the first entry of that task |
| Client.ClientState.GotPacket | src/ipc/client/client.c:326-393 | a hello or response reaches the first waiting task with its number, a signal is signalled, anything else is dropped |
| Client.TrackSend | src/ipc/client/client.c:132-161 | a task whose packet goes out, which for a request means that it was written, waits for exactly that number behind those that wait already |
| Client.TrackStep | src/ipc/client/client.c:132-393 | every event keeps the waiting list equal to the packets that are neither answered nor given up |
| Client.Run | src/ipc/client/client.c:681-709 | in every run of a connection a packet goes out exactly for the connection and for every request that was written, every signal and nothing else is signalled, a reply is delivered only to the sender of its number, and a dropped reply was waited for by nobody |
| Client.DeliveredOnce | src/ipc/client/client.c:326-393 | a task gets at most one reply, and none after it has ended |
| Client.DrawnCounts | src/ipc/client/client.c:101-113 | the number of a request is the next of the cycle after those of all requests and goodbyes before it, written or not |
| Client.OutstandingAreDistinct | src/ipc/client/client.c:101-161 | if nothing is outstanding for a full cycle, waiting numbers are distinct at every moment |
| Client.ReplyReachesSender | src/ipc/client/client.c:326-393 | then a response or greeting reaches exactly the task whose outstanding packet carries its number |
| Base64.TableIsAlphabet | samples/util/src/base64.c:15 | the table is the alphabet in order |
| Base64.DecodeTable | samples/util/src/base64.c:111-118 | the decoding table inverts it, with the padding character valued zero, and every byte that is neither padding nor in the table is invalid |
| Base64.ValuesAreTheTable | samples/util/src/base64.c:111-118 | a character has a value exactly if it is the padding, valued zero, or in the table, valued by its place |
| Base64.TripleUndoesQuad | samples/util/src/base64.c:52-55 | four characters give back the three bytes they encode |
| Base64.TripleUndoesTail | samples/util/src/base64.c:66-80 | the padded group gives back its one or two bytes, with one pad character for each missing byte |
| Base64.KeepUndoesFlow | samples/util/src/base64.c:59-63 | dropping what is not a symbol undoes the line feeds |
| Base64.BlocksUndoBody | samples/util/src/base64.c:139-173 | decoding block by block undoes encoding group by group, across all three tail lengths |
| Base64.RoundTrip | samples/util/src/base64.c:29-178 | decoding the encoding of any non-empty byte string returns it; the empty one does not decode |
| Base64.JunkIsSkipped | samples/util/src/base64.c:120-143 | a character that is neither in the table nor padding, inserted anywhere in any text, does not change what it decodes to |
| Base64.OneBlock | samples/util/src/base64.c:139-173 | four symbols give three bytes less one for each padding, and three or four paddings are refused |
| Base64.PaddingEnds | samples/util/src/base64.c:157-172 | nothing behind a block with padding counts |
| Base64.BlockByBlock | samples/util/src/base64.c:139-156 | without padding every four symbols give three bytes, and what follows is decoded by itself |
| Base64.EncodingHasLines | samples/util/src/base64.c:59-88 | line feeds stand behind every 72 characters and at the end, and nowhere else |
| Base64.OverflowIsCaught | samples/util/src/base64.c:34-40 | the size comparison rejects every length whose product wraps |
| Base64.BufferIsTight | samples/util/src/base64.c:34-90 | what is written fits, exactly full for lengths 3k+1 whose last line is not full and for no other |
| Base64.EncodingLength | samples/util/src/base64.c:50-90 | the length of the encoding with its terminator is what the bound counts |
| Base64.AllocationFor | samples/util/src/base64.c:34-45 | the allocation is refused exactly on overflow |
| Base64.EncodeGroups | samples/util/src/base64.c:50-64 | the main loop writes the encoding of all whole groups with its line feeds, inside the buffer |
| Base64.Encode | samples/util/src/base64.c:29-92 | the buffer ends up holding exactly the encoding |
| Base64.CountValid | samples/util/src/base64.c:120-125 | counts the characters that are symbols |
| Base64.DecodeBlocks | samples/util/src/base64.c:131-177 | the loop fills the buffer with the decoding of the symbols, stops at padding and refuses too much of it |
| Base64.Decode | samples/util/src/base64.c:104-178 | returns the decoding, or nothing for a wrong symbol count or padding |
| Plugins.Server.FindByName | src/ipc/server/plugins.c:931-953 | the first plugin of that name in the client list |
| Plugins.Server.IssueWork | src/ipc/server/plugins-work.c:411-478 | the job is entered under the next id, or its callback called with the reason; a client is turned away untouched |
| Plugins.Server.PopJob | src/ipc/server/plugins-work.c:544-562 | the first entry with that id |
| Plugins.Server.ReportWorkDone | src/ipc/server/plugins-work.c:609-629 | an answer is accepted exactly when a job with that id is pending, wherever in the list; it then calls that job's callback and takes it off the list |
| Plugins.Server.Deinit | src/ipc/server/plugins.c:152-187 | teardown cancels every pending job once, in order |
| Plugins.StaysOrdered | src/ipc/server/plugins-work.c:445-466 | pending ids stay distinct, ascending and below the next one |
| Plugins.StepTally | src/ipc/server/plugins-work.c:292-478 | every event leaves every job called or pending as often as before, except the one it brings |
| Plugins.EveryMoment | src/ipc/server/plugins-work.c:411-629 | at every moment of every run each job taken on was called once or is pending once, and pending ids are distinct |
| Plugins.AnsweredOnce | src/ipc/server/plugins-work.c:609-629 | an id is answered at most once in the life of its plugin |
| Plugins.AnswerReachesItsJob | src/ipc/server/plugins-work.c:609-629 | an answer to the id of a job handed over is accepted if and only if no answer to that id came before and the plugin was not torn down since, and then calls the callback of that job |
| Plugins.AnswerFinds | src/ipc/server/plugins-work.c:544-562 | an answer is accepted exactly when some job waits under that id |
| Plugins.GoneForGood | src/ipc/server/plugins.c:152-187 | a plugin that was torn down never comes back in its place |
| Plugins.IssueTakes | src/ipc/server/plugins-work.c:411-478 | a job is handed over exactly when no client asked for it, a plugin has that name and nothing fails; otherwise its callback is told the code at once, except for a client's |
| Plugins.EveryCallIsRight | src/ipc/server/plugins-work.c:306-629 | in every run every call of a callback tells why its job was refused, the value of an answer to the id the job waited under, or, when the plugin went away with the job waiting, that it was cancelled |
| Plugins.Run | src/ipc/server/plugins-work.c:306-629 | after teardown every job taken on had its callback called exactly once and no other callback was called; the calls of the teardown say that the job was cancelled |
| Queue.CommitAppends | src/ipc/queue.c:97-100 | storing an item appends it exactly when the tail computed before waiting is still the next one; the asserted null slot is there |
| Queue.TakenDropsFirst | src/ipc/queue.c:71-74 | taking the head returns the oldest item, drops exactly it and nulls its slot |
| Queue.OvertakenItemIsLost | src/ipc/queue.c:82-106 | the push of an overtaken producer reports its item as queued, but the contents are those from before, slot by slot, and a later push fails the assertion |
| Queue.StepRefines | src/ipc/queue.c:58-106 | a step of a thread is a step of a FIFO of 127 items exactly when it wakes no overtaken producer |
| Queue.RunRefines | src/ipc/queue.c:58-106 | a whole run is a run of that FIFO exactly under the same condition |
| Queue.FifoConserves | src/ipc/queue.c:58-106 | what was in the queue and what was pushed is what was popped and what is left, in order |
| Queue.FullAndEmpty | src/ipc/queue.c:58-106 | at every event of a run a push is stored exactly while fewer than 127 more items were pushed than popped and a pop served exactly while there are more; otherwise the call waits or is refused, as the caller chose |
| Queue.ParkedIsWoken | src/ipc/queue.c:58-106 | a thread whose last answer was to wait can only be woken, and no other can |
| Queue.PushAgrees | src/ipc/queue.c:82-106 | a push that has not been overtaken does to the ring, its answer and the parked threads what it does to a FIFO of 127 items |
| Queue.PopAgrees | src/ipc/queue.c:58-80 | a pop does to the ring, its answer and the parked threads what it does to the FIFO |
| Queue.Lane.Count | src/ipc/queue.c:108-110 | the size formula is the item count |
| Queue.Run | src/ipc/queue.c:58-110 | every interleaving that wakes no overtaken producer loses, repeats and reorders nothing |
| Builders.ValueBuilder.ListStart | src/wirefmt/builders.c:125-147 | starts an empty list in a pending builder; in any other state EINVAL and nothing changes |
| Builders.ValueBuilder.Grow | src/wirefmt/builders.c:50-62 | a larger block with the same children |
| Builders.ValueBuilder.Next | src/wirefmt/builders.c:466-512 | hands out a blank slot behind the children, keeps those, counts in 16 bits; a third slot of a pair and a wrong state are refused with nothing changed |
| Builders.ValueBuilder.Set | src/wirefmt/builders.c:561-588 | fills the slot with a copy of the value, refusing a wrong state and a wrong kind with nothing changed |
| Builders.ValueBuilder.ArrayEnd | src/wirefmt/builders.c:427-450 | the slot becomes the array of the children handed out |
| Builders.ValueBuilder.TupleEnd | src/wirefmt/builders.c:594-616 | the slot becomes the tuple of the children handed out |
| Builders.ValueBuilder.PairEnd | src/wirefmt/builders.c:518-559 | the slot becomes the pair, once there are two children |
| Builders.ListCopy | src/wirefmt/packet-args.c:33-53 | the copied list equals the list |
| Builders.Dup | src/wirefmt/packet-args.c:149-197 | the recursive copy equals the argument |
| Builders.Build | src/wirefmt/builders.c:420-616 | the start, next, set and end calls for a tree succeed exactly when its leaves fit their arrays, and leave the built tree in the slot and nothing else |
| Builders.BuiltIsTheTree | src/wirefmt/builders.c:466-512 | the built tree is the tree exactly when every list has at most 65535 children |
| Builders.TooManyToCount | src/wirefmt/builders.c:466-512 | a tuple of 65536 leaves comes out empty |
| Builders.BuildAndSet | src/wirefmt/builders.c:420-616 | building a countable tree call by call and setting it in one call give the same, the tree itself |
| Builders.PairByCalls | src/wirefmt/builders.c:469-559 | a pair cannot be ended with no or one child, takes no third, and then is made of its two children |
| Messages.MessageBuilder.Begin | src/wirefmt/builders.c:149-162 | opens an unused builder with nothing but the operation; any other is refused and left alone |
| Messages.MessageBuilder.ValueStart | src/wirefmt/builders.c:310-336 | lends a fresh blank slot to one value builder, after which every other call is refused |
| Messages.MessageBuilder.ValueEnd | src/wirefmt/builders.c:338-358 | takes the slot back from the builder that holds it and from no other |
| Messages.MessageBuilder.SetValue | src/wirefmt/builders.c:281-304 | sets a copy of the value; a value without a type is refused and the old value lost all the same |
| Messages.MessageBuilder.Build | src/wirefmt/builders.c:164-204 | an open message with a path, a selector, a real operation, and a value exactly unless it is a get, becomes a packet of exactly what was set; otherwise the code says why and nothing changes |
| Messages.PacketMessage | src/wirefmt/builders.c:360-418 | the message of one call has exactly the given parts; an operation that is not a real one and a packet that cannot be crafted leave none, each with its code |
| Messages.PacketByCalls | src/wirefmt/builders.c:149-616 | a message whose value is built call by call through the lent slot has exactly the given parts, and the tree itself exactly when every list has at most 65535 children |
| Messages.PacketIsWhole | src/wirefmt/builders.c:78-90 | in every run a packet has a path, a selector and a real operation, and a value exactly unless it is a get |
| Messages.BuildWaits | src/wirefmt/builders.c:164-176 | in every run a build is answered EAGAIN if and only if the message is open and lacks one of them, has a value it should not have, or crafting says so |
| Messages.OpenTakesAll | src/wirefmt/builders.c:149-358 | in every run a message takes paths, selectors, numbers, values and lends its slot exactly between begin and build or discard while the slot is not lent, and cannot be begun twice |
| Messages.LastOneWins | src/wirefmt/builders.c:149-358 | the last call that sets a part wins and leaves the other parts alone, and a new message starts with none |
| Messages.ReadyOrphan | src/wirefmt/builders.c:206-219 | a builder that does not hold the slot can fill exactly when the message was discarded under it before it filled, and it has not been started or filled since |
| Messages.FillByAnother | src/wirefmt/builders.c:561-588 | a fill by a builder that does not hold the slot is refused if and only if that builder is not such an orphan, and leaves the message untouched either way |
| Messages.OrphanFills | src/wirefmt/builders.c:206-219 | from every history with an unfilled slot, a discard, a new message and its slot lent to another let the first builder fill with success, and the new message stays blank |
| Messages.OrphanRun | src/wirefmt/builders.c:206-219 | two value builders and six calls are enough |
| Messages.RefusedWhileLent | src/wirefmt/builders.c:149-358 | while the slot is lent, every call but the holder's and a discard leaves the message untouched, and returns EINVAL exactly unless it is the fill of an orphan |
| Messages.Run | src/wirefmt/builders.c:149-358 | in every sequence of calls, a fill of the slot being one of them, each gets the code its history deserves, and a packet comes out exactly of a successful build, with the last path, selector, number and value that were set or filled in by the holder since the message was begun |

## Left out

- Memory allocation failures and the reclaiming of memory: allocation always succeeds, except where the code refuses a size it computed; frees show only as reference counts and dropped sequences.
- HashTable: the cell array and the table record are values that the operations return changed, and only the caller's pointer is an object updated in place, so aliasing of entries and of key strings is not captured.
- HashTable.Run: that no set fails is promised for 42,949,672 operations, not entries, because a cell that was appended is only given back by a rehash; with 42,949,672 entries or more the 32-bit percentage wraps and nothing is promised about the load.
- RequestRing: the 64-bit wrap of the occupation percentage and of a grown capacity, which rings of 32-bit numbers do not reach; the ring is a value that the operations return changed, and only the server's pointer is an object updated in place, so pointers into the ring are not captured.
- PendingReqs.Steady: for a number below a window that does not fill the ring, the outcome of the search is not described otherwise than by running it, for at most 130 turns; in a full ring it is a function of capacity, rank and sight, which is evaluated in closed form for the oldest slot and for numbers out of reach only.
- `dicey_pending_requests_prune`, which passes an index where an offset is expected.
- Client.Run: one connection at a time, with task ids used once; reconnecting, timeouts and the buffering of partial packets are not modelled.
- Base64: characters are unsigned, so the sign of `char` when it indexes the table is not modelled; shifts and masks are written as divisions and remainders.
- Registry: registering traits, the built-in objects and the trait-set form of adding an object, whose existence check has no effect; elements are names only.
- Plugins: the client records are values in the list the server updates, so nothing is said about pointers to them; job ids are unbounded, so the wrap of the 64-bit counter is not modelled; spawning, handshakes, timers and processes are left out, and a plugin has its name from the start.
- Plugins.Server.IssueWork: the outcomes of crafting the packet, growing the work list and raising the packet are given by the event.
- Queue: mutex and condition variable are modelled by steps in any order, so fairness and missed wake-ups are not.
- Messages.MessageBuilder.Build: the outcome of writing the packet bytes is given by the caller, and the packet is the record of what it was written from.
- Messages.Run: the calls with which a value builder fills its slot are one step; a message call between two of them is refused and changes neither builder (`Messages.RefusedWhileLent`), and a fill that is ended or discarded in the middle is modelled only where it stopped at a leaf of the wrong kind.
- Messages.OrphanFills: the slot that an orphan fills is memory that the discard freed; the model only says what the call returns and that it does not reach the message.
- Builders: writes through a child builder after its parent has ended; the copy of an empty list on a platform where an empty allocation is null.
- Typedescr, Validate: the cursor that the code advances in place is passed in and returned.
- Validate: the decoding of values from bytes, including errors met while decoding.
- The binary packet format, `value_list_to_arg`, the event loops, and everything that is input and output: libuv, XML and JSON loaders, the samples apart from base64, the Python bindings.
- The client slot list, the shared packet and the chunk buffer: small helpers without state shared between operations.
