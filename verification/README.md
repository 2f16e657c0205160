# Verified model of an Avalanche node's codec, shared memory, peer network and services

This project models, in Dafny, the parts of an Avalanche node in which many data structures must agree
with each other, and proves what they promise for all inputs, all histories and all interleavings.

`dafny verify dfyconfig.toml` checks everything.

## What is modelled

**The codec** (`Bytes`, `KeyOrder`, `Codec`, `RoundTrip`, `PlainKeys`, `Canonical`, `Encodable`, `Wire`, `Packer`,
`Spans`, `Marshal`, `Unmarshal`, `Sizing`, `Registries`, `Manager`). `Codec` gives the wire format as a pair of functions
over a datatype of Go types and one of values. The packer-based `marshal`, `unmarshal` and `size` are methods
with the source's loops, buffer and offset, proved against those functions; the map branch packs its keys, sorts
ranges over the buffer, rewinds and repacks in place. `Spans` is the room a walk that fails takes up before it
does. `Encodable` says which values marshal, and `Wire` where each part of a value stands in the bytes and why
reading stops, both told from the types, values and bytes alone. Round trip, canonical form and prefix-freeness are
theorems about the functions, and come back as theorems about the codec manager.

**Atomic shared memory** (`SharedState`, `Confluence`, `SharedMemory`, `History`, `LockTable`, `LockRuns`,
`ConcurrentMemory`). One store with tombstones and trait lists; the confluence of its puts and removes; the
assignment of stores to directions; `Apply` as an all-or-nothing method; histories of calls by all chains; and
the reference-counted lock table as a protocol of small steps between any number of concurrent calls. The last
module joins them: concurrent `Apply` calls and readers, from the single lock to the memory they leave. A call
that was refused on what it read takes no more locks, and one that was not can always compute its writes, so no
execution gets stuck.

**Peer discovery** (`Sampler`, `Bloom`, `Tracker`, `TrackerRuns`, `FilterRuns`, `GossipList`, `Gossip`,
`IPTracker`). The
tracker's state and transitions with the invariants that tie its four maps together, the same read off the
event history, the filter's quota and coverage, peer-list replies, and quiescence between two trackers. The
tracker and the gossipable list are also given as classes with the source's loops and swap-remove.

**The peer life cycle** (`Network`, `NetworkRuns`, `PeerNetwork`). Every section the network runs under its
lock, and every call it makes to the tracker and to the router, is a step; all interleavings are considered.
A peer's own calls follow each other: `Connected` is called at most once and returns before the one call of
`Disconnected` (network/peer/peer.go:358-369, 1131-1140). Whether the tracker wants a connection is arbitrary
at every step.

**Services** (`Genesis`, `Parts`, `GenesisSupply`, `Health`, `Worker`, `Index`, `Router`, `ApiRouter`, `IDBits`).
Genesis allocations as a stream of coins, health gauges against a recount, the container index across crashes,
the aliases of the API router, and bit-range comparison of IDs.

## Modelling decisions

- Integers are unbounded; 64-, 32- and 16-bit wrap-around and overflow checks are written out where the source
  has them (type numbers, genesis sums, integer fields).
- Chain IDs, node IDs and subnet IDs are numbers in the order of their bytes. Hashes that name something (shared
  IDs, gossip IDs) stand for what is hashed.
- A Go map is a finite map; where the source ranges over one, the order is a parameter or an arbitrary choice.
- A Go value is a tree; a map value is the list of its entries in the order `MapKeys` hands them out. Types are
  finite trees, with recursion through interfaces only. A value that does not fit its type, which Go rules out, is
  an error of its own; with little space it may be reported as that.
- The sort of map keys is stable in the model; the unstable sort of the source differs only for keys with equal
  bytes, for which the result is rejected on reading either way.
- The type stack is handed down as a set; the source adds and removes the same types around each call.
- Random draws, clocks, signatures, dial results and the outcome of making a new filter are parameters.
- A lock object carries the ID it was made for and a serial number, which only tell objects apart.

## Properties that hold conditionally

Some expected properties hold only under a condition, which is then proved to be exact, most of them beside a
concrete case in which the property fails.

- A marshalled value reads back if and only if no map in it has two keys with equal bytes
  (`RoundTrip.DecodeEncode`). Keys that differ only in what is not serialized collide
  (`PlainKeys.CollidingKeys`); types whose map keys serialize everything never do (`PlainKeys.TypesDecide`).
- A chain's outbound store is its peer's inbound store if and only if the two chains differ
  (`SharedMemory.Directions`).
- All interleavings of puts and removes succeed if and only if no key is put twice and none is removed twice
  (`Confluence.AllInterleavingsSucceed`).
- Announcing a connection keeps the gossip lists exact if and only if the node is not already connected with a
  gossiped subnet it no longer syncs (`Tracker.ConnectExact`, `TrackerRuns.ReconnectBreaks`); the network never
  does that (`NetworkRuns.TrackerExact`).
- A recorded IP is covered by the filter unless a reset it needed failed (`TrackerRuns.UpdateCovers`,
  `TrackerRuns.FailedResetUncovers`).
- A sender repeats no IP the receiver took in, as long as the node's additions to the filter are not used up
  (`Gossiping.NoRepeat`, `Gossiping.UsedUpIsRepeated`).
- A valid configuration has a genesis if and only if it stakes at least one coin for each staker and the offsets do
  not use up the whole stake duration (`GenesisSupply.FromConfig`, `GenesisSupply.ExitedIff`); validation lets the
  others through (`GenesisSupply.ValidAndRefused`), and the source indexes past the groups or the platform chain
  refuses them.
- Health gauges equal their recount if and only if every registration is clean (`Health.ExactIffClean`,
  `Health.RepeatedTagBreaks`, `Health.LateTagBreaks`).
- Aliases of an API route always have its endpoints, but adding an endpoint or an alias keeps the handlers the same
  if and only if nothing the aliases lead to has another (`Router.AddRouterClosesIff`, `Router.AddAliasClosesIff`,
  `Router.HandlersCanDiffer`, `Router.NewAliasCanDiffer`).

## Where code and documentation differ

The model follows the code.

- network/ip_tracker.go:128-132 says an IP is gossipable only if the node connected with its latest IP; the code
  also lists a node that connected with an older one, with the newest IP it knows.
- indexer/index.go:202-204 allows fetching zero containers; the code refuses zero.
- codec/reflectcodec/type_codec.go:401 means to treat byte arrays like byte slices but tests the kind of the array
  instead of its elements, so arrays are marshalled element by element; the bytes are the same.
- codec/manager.go:133 returns the packer's bytes next to the call that appends to them; the model takes the bytes
  after the call.

## Model

| member | source | states |
|---|---|---|
| `Bytes.FromBEToBE` | utils/wrappers/packing.go:77-143 | big-endian words of 1, 2, 4 or 8 bytes read back as the number that was packed |
| `Bytes.ToBEFromBE` | utils/wrappers/packing.go:77-143 | packing the number read from a word gives the same bytes |
| `Bytes.WordAt` | utils/wrappers/packing.go:77-143 | byte i of a word is its digit to the base 256, the most significant first |
| `Bytes.LessIs` | codec/reflectcodec/type_codec.go:464-468 | key order is lexicographic: a proper beginning comes first, and otherwise the first byte that differs decides |
| `Codec.UnwrapWrap` | codec/reflectcodec/type_codec.go:310-333 | the conversion of a signed or unsigned integer to its unsigned word and back loses nothing, for values in the range of the type |
| `Codec.WrapUnwrap` | codec/reflectcodec/type_codec.go:522-569 | every word is the word of the integer it is read as |
| `Codec.Decode` | codec/reflectcodec/type_codec.go:516-744 | terminates on all bytes (registered types not on the type stack, then type structure, then elements left) and never reads past the input |
| `Codec.StackGrows` | codec/reflectcodec/type_codec.go:638-656 | the measure behind that termination: an interface value of a registered type not on the stack leaves fewer such types |
| `KeyOrder.OrderSorts` | codec/reflectcodec/type_codec.go:464-468 | the sort of the map branch is a permutation of the indices and leaves the keys in non-decreasing byte order |
| `KeyOrder.OrderStrict` | codec/reflectcodec/type_codec.go:464-468 | sorted keys strictly increase if and only if no two keys have the same bytes |
| `RoundTrip.DecodeEncode` | codec/reflectcodec/type_codec.go:304-744 | every value that marshals, followed by any suffix, unmarshals at the same type to the same serialized data and stops exactly at the suffix, if and only if the keys of each map in it have different bytes; otherwise unmarshalling reports unsorted keys |
| `RoundTrip.ChainIsStrict` | codec/reflectcodec/type_codec.go:715-725 | comparing each key with the one before accepts exactly the strictly increasing sequences of keys |
| `PlainKeys.TypesDecide` | codec/reflectcodec/type_codec.go:424-493 | if the key types of all maps, registered types included, serialize everything (no untagged field, pointer, slice or map in a key), every value that marshals and whose maps have no key twice satisfies the condition of the round trip |
| `PlainKeys.PlainReadsBack` | codec/reflectcodec/type_codec.go:304-744 | so for such types every value reads back as its data, from its bytes and any suffix: a condition on the types alone |
| `PlainKeys.CollidingKeys` | codec/reflectcodec/type_codec.go:424-493 | a concrete map whose two keys differ only in a field that is not serialized: it marshals, and its bytes are refused as unsorted |
| `Canonical.EncodeDecode` | codec/reflectcodec/type_codec.go:516-744 | whatever bytes are accepted, the value read from them marshals to exactly the bytes consumed |
| `Canonical.DecodedIsCanonical` | codec/reflectcodec/type_codec.go:516-744 | a value that was read marshals, has no two equal keys, and reads back as itself |
| `Canonical.NormKeepsBytes` | codec/reflectcodec/type_codec.go:304-497 | resetting what is not serialized (untagged fields, nil slices and maps) does not change the bytes |
| `Canonical.SameBytesSameData` | codec/reflectcodec/type_codec.go:304-497 | two values of a type have the same bytes if and only if they read back as the same value |
| `Canonical.PrefixFree` | codec/reflectcodec/type_codec.go:304-744 | no encoding of a type is a proper prefix of another encoding of that type |
| `Canonical.MapOrderIrrelevant` | codec/reflectcodec/type_codec.go:424-493 | the order in which a map hands out its keys does not show in its bytes |
| `Encodable.EncodesIff` | codec/reflectcodec/type_codec.go:304-497 | a value marshals if and only if its type and its own data say so: nothing nil but slices and maps, lengths within 16 and 31 bits, every interface value of a registered type that implements the interface and is not being marshalled already, no tagged field unexported, no element or entry that takes no bytes |
| `Encodable.EmptyIff` | codec/reflectcodec/type_codec.go:391-397 | a value that marshals takes no bytes if and only if all that is serialized of it is arrays and structs of nothing |
| `Encodable.NilIsEmpty` | codec/reflectcodec/type_codec.go:365-382 | nil slices and nil maps of every type are written as four zero bytes |
| `Encodable.ErrorIsReason` | codec/reflectcodec/type_codec.go:304-497 | the error of a value that does not marshal names something that is wrong with it somewhere in what is serialized |
| `Wire.IntBytes` | codec/reflectcodec/type_codec.go:310-333 | an integer is its two's complement in exactly the bytes of its width, the most significant first |
| `Wire.LeafBytes` | codec/reflectcodec/type_codec.go:334-339 | a bool is one byte, and a string two bytes of length and its own bytes |
| `Wire.HeldBytes` | codec/reflectcodec/type_codec.go:340-364 | a pointer is written as its target, an interface value as the four-byte ID of its type and then the value |
| `Wire.SeqBytes` | codec/reflectcodec/type_codec.go:365-412 | an array is the bytes of its elements in order, and a slice their number in four bytes before that |
| `Wire.StructBytes` | codec/reflectcodec/type_codec.go:413-423 | a struct is the bytes of its tagged fields in the order of declaration, and nothing for the others |
| `Wire.MapBytes` | codec/reflectcodec/type_codec.go:424-493 | a map is the number of entries in four bytes and then every entry once, key before value, none behind one with larger key bytes |
| `Wire.ZeroIs` | codec/reflectcodec/type_codec.go:657-669 | the zero value left in a field that is not read: no number, no text, no reference, in every place of an array or struct |
| `Wire.UntaggedReadZero` | codec/reflectcodec/type_codec.go:657-669 | every field that is not serialized reads back as that |
| `Wire.LeafErrors` | codec/reflectcodec/type_codec.go:522-637 | when integers, bools and strings are not read, and that the reason is too few bytes or a byte that is no bool |
| `Wire.IfaceErrors` | codec/reflectcodec/type_codec.go:638-656 | the four reasons not to read an interface value, in their order, and otherwise what reading the value gives |
| `Wire.InnerErrors` | codec/reflectcodec/type_codec.go:614-681 | pointers, arrays and structs add no error of their own but that of an unexported tagged field |
| `Wire.CountErrors` | codec/reflectcodec/type_codec.go:576-592 | a count that is cut off or above 31 bits is refused for that reason, and no other |
| `Wire.ElemsStop` | codec/reflectcodec/type_codec.go:600-631 | elements are read up to the first that cannot be read or, in a slice, takes no bytes, and the error is that one's |
| `Wire.FieldsStop` | codec/reflectcodec/type_codec.go:657-669 | fields are read up to the first tagged one that cannot be read, and the error is that one's |
| `Wire.EntriesStop` | codec/reflectcodec/type_codec.go:697-740 | entries are read up to the first whose key or value cannot be read, whose key is not above the one before or which takes no bytes, and the error says which |
| `Packing.Packer.constructor` | utils/wrappers/packing.go:42-51 | a packer over given bytes, at offset zero and without error |
| `Packing.Packer.Expand` | utils/wrappers/packing.go:261-275 | the buffer is lengthened just as far as needed, keeps what is before the offset, and stays as it is beyond; past the limit an error is set |
| `Packing.Packer.PackFixedBytes` | utils/wrappers/packing.go:170-178 | writes over the buffer at the offset and keeps the stale bytes beyond, or sets the error |
| `Packing.Packer.PackWord` | utils/wrappers/packing.go:54-143 | the four word packers: the big-endian bytes of the number at the offset, or the error |
| `Packing.Packer.PackStr` | utils/wrappers/packing.go:217-226 | a two-byte length and the bytes, or invalid input for strings that are too long |
| `Packing.Packer.UnpackFixedBytes` | utils/wrappers/packing.go:182-191 | the next bytes and a moved offset, or an error and an offset left alone |
| `Packing.Packer.UnpackWord` | utils/wrappers/packing.go:65-143 | the number of the next word, or an error |
| `Packing.OverwriteTwice` | codec/reflectcodec/type_codec.go:304-497 | two writes one after the other are one write of both |
| `Packing.OverwriteAgain` | codec/reflectcodec/type_codec.go:470-491 | writing over a first pass that is not longer leaves no trace of it |
| `Packing.OverwriteAt` | utils/wrappers/packing.go:170-178 | byte by byte: the new text at its place, everything else as it was, and no byte more than needed |
| `Marshalling.Marshal` | codec/reflectcodec/type_codec.go:304-497 | the bytes of the specification encoding are written over the buffer at the offset, for every type; a value without an encoding gives the reason if and only if there is room for what the walk packs before it meets it, and lack of space otherwise |
| `Marshalling.MarshalIface` | codec/reflectcodec/type_codec.go:346-364 | interface values: registered prefix, then the dynamic value, refusing recursion through the same type |
| `Marshalling.MarshalSlice` | codec/reflectcodec/type_codec.go:365-399 | slices: count, then elements, refusing zero-length elements |
| `Marshalling.MarshalBytes` | codec/reflectcodec/type_codec.go:384-389 | the byte-slice shortcut writes what the element-by-element loop would |
| `Marshalling.MarshalElems` | codec/reflectcodec/type_codec.go:390-412 | the loop over elements writes their encodings one after the other |
| `Marshalling.MarshalFields` | codec/reflectcodec/type_codec.go:413-423 | the loop over serialized fields writes their encodings one after the other |
| `Marshalling.MarshalKeys` | codec/reflectcodec/type_codec.go:446-462 | the first pass over the keys leaves them one after the other and remembers where each lies |
| `Marshalling.MarshalSorted` | codec/reflectcodec/type_codec.go:470-491 | the second pass writes each key and value in key order, over the stale bytes of the first pass, nested maps included |
| `Marshalling.MarshalMap` | codec/reflectcodec/type_codec.go:424-493 | packing keys, sorting the ranges over the buffer, rewinding and repacking gives exactly the count and the encoded pairs sorted by key bytes |
| `Unmarshalling.Unmarshal` | codec/reflectcodec/type_codec.go:516-744 | reading from the buffer gives the specification's value and offset, or its error, for every type |
| `Unmarshalling.UnmarshalIface` | codec/reflectcodec/type_codec.go:638-656 | interface values: known prefix, a type that implements the interface, no recursion |
| `Unmarshalling.UnmarshalElems` | codec/reflectcodec/type_codec.go:599-631 | the loop over elements reads them one after the other, refusing zero-length elements of slices |
| `Unmarshalling.UnmarshalBytes` | codec/reflectcodec/type_codec.go:593-625 | the byte-slice shortcut reads what the element-by-element loop would |
| `Unmarshalling.UnmarshalFields` | codec/reflectcodec/type_codec.go:657-669 | the loop over serialized fields reads them and leaves the others zero |
| `Unmarshalling.UnmarshalEntries` | codec/reflectcodec/type_codec.go:682-744 | the loop over map entries accepts strictly increasing keys and non-empty pairs only |
| `Sizing.ConstLength` | codec/reflectcodec/type_codec.go:94-290 | a constant size depends on the type alone: every value of such a type marshals to that many bytes |
| `Sizing.Size` | codec/reflectcodec/type_codec.go:94-290 | whenever a value marshals, its size is exactly the number of bytes written, and is called constant if and only if the type says so |
| `Sizing.SizeElems` | codec/reflectcodec/type_codec.go:144-199 | measuring one element and multiplying equals the element-by-element sum |
| `Sizing.SizeFields` | codec/reflectcodec/type_codec.go:200-219 | the sum over the serialized fields, constant if all are |
| `Sizing.SizeMap` | codec/reflectcodec/type_codec.go:220-290 | each of the four cases of constant and varying keys and values gives the bytes written for the map |
| `Registries.PutIs` | codec/linearcodec/codec.go:65-77 | exactly the type that had the number before loses its own, and all others keep theirs |
| `Registries.PutExtends` | codec/linearcodec/codec.go:65-77 | numbering a new type keeps every earlier number if and only if the number was free |
| `Registries.EncodeExtends` | codec/linearcodec/codec.go:65-94 | registrations that keep earlier numbers keep the bytes of every value that marshalled before |
| `Registries.PrefixBytes` | codec/hierarchycodec/codec.go:104-116 | the two shorts of a hierarchical prefix are the four bytes of the combined number |
| `Registries.LinearCodec.constructor` | codec/linearcodec/codec.go:41-49 | an empty registry whose numbers start at zero |
| `Registries.LinearCodec.SkipRegistrations` | codec/linearcodec/codec.go:57-61 | the next number advances with 32-bit wrap-around |
| `Registries.LinearCodec.RegisterType` | codec/linearcodec/codec.go:65-77 | types and numbers stay a bijection; a type is numbered once; earlier numbers stay if and only if the number was free |
| `Registries.HierarchyCodec.constructor` | codec/hierarchycodec/codec.go:48-56 | an empty registry at group zero |
| `Registries.HierarchyCodec.SkipRegistrations` | codec/hierarchycodec/codec.go:64-68 | the next number of the group advances with 16-bit wrap-around |
| `Registries.HierarchyCodec.NextGroup` | codec/hierarchycodec/codec.go:71-77 | the next group starts at number zero, with 16-bit wrap-around |
| `Registries.HierarchyCodec.RegisterType` | codec/hierarchycodec/codec.go:80-97 | types and prefixes stay a bijection; earlier prefixes stay if and only if the prefix was free |
| `Manager.UnmarshalMarshal` | codec/manager.go:113-174 | Unmarshal undoes Marshal, version included, if and only if map keys have different bytes |
| `Manager.MarshalUnmarshal` | codec/manager.go:113-174 | what Unmarshal accepts marshals, with the version it was read with, to the same bytes |
| `Manager.AcceptedIffMarshalled` | codec/manager.go:113-174 | Unmarshal accepts exactly the byte strings Marshal produces from values without equal keys |
| `Manager.Envelope` | codec/manager.go:113-134 | a value that encodes is marshalled if and only if two bytes and the encoding fit the limit, as the version and then the encoding |
| `Manager.Refusals` | codec/manager.go:113-174 | which calls are refused before the codec is asked, and for which of the reasons, both ways |
| `Manager.CodecManager.RegisterCodec` | codec/manager.go:82-91 | one codec per version; a second one is refused |
| `Manager.CodecManager.Size` | codec/manager.go:93-110 | the size of what Marshal would return, version prefix included, whenever it returns something |
| `Manager.CodecManager.Marshal` | codec/manager.go:113-134 | the version and the encoding, if they fit the limit, and otherwise the one error the source returns |
| `Manager.CodecManager.Unmarshal` | codec/manager.go:138-174 | the version and the value, and an error for too much input, an unknown version, or bytes left over |
| `SharedState.State.Value` | chains/atomic/state.go:56-73 | a value is found if and only if it is present and not a tombstone |
| `SharedState.State.SetValue` | chains/atomic/state.go:81-118 | annihilates a tombstone, refuses a second put, and otherwise stores the element and lists its key under each trait |
| `SharedState.State.RemoveValue` | chains/atomic/state.go:148-177 | leaves a tombstone for a missing key, refuses a second remove, and otherwise deletes the element and delists it |
| `SharedState.State.AppendTraitKeys` | chains/atomic/state.go:241-268 | the keys of one trait from the start key on, without repeats, up to the limit, and the last of them that was looked at |
| `SharedState.State.GetKeys` | chains/atomic/state.go:197-239 | one page over the sorted traits; where it ends is the trait and key at which the limit was reached, or else the last key listed under the last trait looked at |
| `SharedState.PutIndexed` | chains/atomic/state.go:81-118 | a put keeps every trait list equal to the visible keys with that trait |
| `SharedState.RemoveIndexed` | chains/atomic/state.go:148-177 | so does a remove |
| `SharedState.FirstPage` | chains/atomic/state.go:197-268 | a first page has no repeats, only visible keys with a requested trait, at most the limit, and all such keys if it is not full |
| `SharedState.FromIs` | chains/atomic/state.go:241-268 | the keys looked at begin at the first place of the start key, or at the front if there is none or it is not listed |
| `SharedState.CollectIs` | chains/atomic/state.go:241-268 | the keys taken from a list are those not taken before, in order, cut off where the limit is reached |
| `SharedState.PageEnds` | chains/atomic/state.go:197-239 | for every page with a limit that looks at a trait: the last trait and the last key are those at which it stopped |
| `SharedState.EmptyPage` | chains/atomic/state.go:197-239 | a page without room, or with no trait to look at, has no new keys; in the second case it ends where it was told to start |
| `SharedState.Refusals` | chains/atomic/state.go:81-177 | a put is refused if and only if the key is visible, a remove if and only if it was removed before, each with its own error |
| `Confluence.PutFinal` | chains/atomic/state.go:81-118 | a put of a new key takes the order-free description of a store to that of one more put, whether or not the key was removed before |
| `Confluence.RemoveFinal` | chains/atomic/state.go:148-177 | a remove of a key not removed before does the same, whether or not it was put before |
| `Confluence.RunFinal` | chains/atomic/state.go:74-177 | with every key put and removed at most once, any order of puts and removes succeeds; a key is visible iff put and not removed, a tombstone iff removed and not put, and each trait lists exactly the visible keys with it, newest first |
| `Confluence.FinalUnique` | chains/atomic/state.go:74-177 | that description fits one store only |
| `Confluence.Confluent` | chains/atomic/state.go:74-177 | two interleavings of the same puts and the same removes end in the same store |
| `Confluence.AllInterleavingsSucceed` | chains/atomic/state.go:81-177 | every interleaving succeeds if and only if no key is put twice and none is removed twice |
| `SharedMemory.Directions` | chains/atomic/prefixes.go:20-65 | one chain's outbound store is the other's inbound store, for any two different chains and only then, and no two directions share a store |
| `SharedMemory.Layout` | chains/atomic/prefixes.go:20-65 | the chain with the smaller ID reads from the first store of a pair and writes to the second |
| `SharedMemory.Memory.Get` | chains/atomic/shared_memory.go:65-83 | the values under all the keys, or not found if one of them is not visible |
| `SharedMemory.Memory.Indexed` | chains/atomic/shared_memory.go:85-113 | a page of keys with the value of each; the lookup of a listed key never fails |
| `SharedMemory.ApplyPeer` | chains/atomic/shared_memory.go:132-156 | one request: its removes on the inbound store, then its puts on the outbound store, and no other store |
| `SharedMemory.Memory.Apply` | chains/atomic/shared_memory.go:115-165 | all stores of the call and the batches are changed together if every store accepts its operations, whatever the order of the peers; otherwise nothing changes |
| `History.SlotParts` | chains/atomic/prefixes.go:20-65 | a store sees the exports of one chain and the imports of the other, interleaved, and nothing else |
| `History.EveryCallApplies` | chains/atomic/shared_memory.go:115-165 | in any history of calls by all chains in which each direction puts and removes a key at most once, no call is refused |
| `History.HistoryIndexed` | chains/atomic/shared_memory.go:115-165 | in every history, refused calls included, the trait lists of every store agree with its values at every moment |
| `History.Delivered` | chains/atomic/shared_memory.go:65-165 | after such a history a chain finds exactly what the other exported and it has not imported, with its values and traits |
| `History.OrderOfChainsIrrelevant` | chains/atomic/shared_memory.go:115-165 | what such a history leaves in memory does not depend on how the calls of the chains interleave |
| `LockRuns.Memory.MakeLock` | chains/atomic/memory.go:71-82 | registers for the lock of an ID, which is made if there is none |
| `LockRuns.Memory.ReleaseLock` | chains/atomic/memory.go:88-101 | deregisters, drops the lock with the last registration, and panics for an unknown ID |
| `LockTable.StepInv` | chains/atomic/memory.go:53-101 | every step of every call keeps the invariant: counts equal registrations, registered locks are the ones in the table, holders own their locks, data read stays current |
| `LockTable.MutualExclusion` | chains/atomic/memory.go:53-101 | at most one call is between the return of GetSharedDatabase and its releaseLock for a shared ID, although lock objects come and go |
| `LockTable.NoPanic` | chains/atomic/memory.go:64-101 | releaseLock always finds its entry, returns the lock that was taken, and the unlock that follows is of a locked lock |
| `LockTable.CommitSeesCurrent` | chains/atomic/shared_memory.go:132-165 | when a call commits, everything it read under its locks is still what is stored |
| `LockRuns.RunInv` | chains/atomic/memory.go:53-101 | no step of any run panics, and every state of it satisfies the invariant |
| `LockRuns.HolderWaitsHigher` | chains/atomic/shared_memory.go:116-127 | who holds a lock another call waits for is not done, and if it waits, waits for a greater ID |
| `LockRuns.NoDeadlock` | chains/atomic/shared_memory.go:115-136 | in every reachable state some call can take a step, unless and only unless all are done |
| `LockRuns.RunsEnd` | chains/atomic/memory.go:53-101 | every run ends: it has no more steps than its calls had left at the start |
| `LockRuns.MaximalRun` | chains/atomic/memory.go:53-101 | a run that cannot go on has finished every call and left the lock table empty |
| `LockRuns.Serializable` | chains/atomic/shared_memory.go:115-165 | the database after any run is what the committed calls leave when run alone, one after the other, in the order of their commits |
| `History.ApplyOutcome` | chains/atomic/shared_memory.go:115-165 | what the contract of Apply allows is a step of such a history |
| `ConcurrentMemory.CommitApplies` | chains/atomic/shared_memory.go:132-165 | a call that writes what it computed from data that is still current takes all the stores through its operations, and no other store |
| `ConcurrentMemory.PickedOnce` | chains/atomic/shared_memory.go:115-165 | calls that put and remove no key twice form a once-each history in whatever order and whichever of them commit |
| `ConcurrentMemory.HistorySofar` | chains/atomic/shared_memory.go:115-165 | at every moment of every concurrent execution, refused calls and readers included, the database is that of a history of the calls committed so far, in the order of their commits |
| `ConcurrentMemory.NoneLeaves` | chains/atomic/shared_memory.go:115-165 | in no interleaving of the locking steps is such a call refused |
| `ConcurrentMemory.ExecutionSofar` | chains/atomic/memory.go:53-101 | at every moment of such an execution the calls that are past their locked part are exactly those that committed, each once |
| `ConcurrentMemory.WritesExist` | chains/atomic/shared_memory.go:132-165 | a call that was refused on nothing it read can compute what it writes, so it is never stuck before its commit |
| `ConcurrentMemory.GoesOnUnlessDone` | chains/atomic/shared_memory.go:65-165 | in every state of every concurrent execution, refused calls and readers included, some call has a step it takes, unless and only unless all calls are done |
| `ConcurrentMemory.Completes` | chains/atomic/shared_memory.go:115-165 | every execution can be continued to one in which all calls are done |
| `ConcurrentMemory.ConcurrentDelivery` | chains/atomic/shared_memory.go:65-165 | any number of concurrent Apply calls that put and remove no key twice, among any readers, in any interleaving of their locking steps: an execution in which no call has a step left that it would take has committed every call, left no lock, and shows each chain exactly what was exported to it and not imported by it, each element with its value, its traits and its place in the trait lists |
| `ConcurrentMemory.ReadsAreCurrent` | chains/atomic/shared_memory.go:65-113 | at every moment a concurrent Get or Indexed holds its lock, the store it reads is that of the history of the calls committed by then, with trait lists that agree with its values |
| `ConcurrentMemory.ReadIsAtomic` | chains/atomic/shared_memory.go:65-113 | everything such a call reads, it reads from one and the same store |
| `ConcurrentMemory.ReaderFinds` | chains/atomic/shared_memory.go:65-113 | where no key is put or removed twice, it finds exactly the keys exported by the calls committed by then and imported by none of them |
| `GossipList.GossipableSubnet.SetGossipableIP` | network/ip_tracker.go:137-146 | the list, as a map, gets the IP of the node, and list and index map stay inverse |
| `GossipList.GossipableSubnet.RemoveGossipableIP` | network/ip_tracker.go:148-167 | the list loses exactly the node; the last IP moves into the gap and list and index map stay inverse |
| `GossipList.GossipableSubnet.GetGossipableIPs` | network/ip_tracker.go:172-200 | extends a reply by wanted IPs of new nodes up to the limit, and if it is not full misses no wanted node, whatever is drawn |
| `Sampler.Uniform.Next` | utils/sampler/uniform_replacer.go:58-69 | draws a number not drawn before, until all were |
| `Sampler.Shuffle` | utils/sampler/uniform_replacer.go:58-69 | moving the first number into the place of the drawn one takes exactly that one out |
| `Bloom.Filter.Add` | utils/bloom/filter.go:62-75 | sets exactly the bits of the hash, so the filter contains it and everything it contained before |
| `Bloom.Filter.Contains` | utils/bloom/filter.go:120-134 | true if and only if every bit of the hash is set, although the test stops early |
| `Bloom.ProbesAre` | utils/bloom/filter.go:62-134 | the bits of a hash: for each seed the hash so far is rotated by 17 and combined with the seed, and its remainder by the number of bits is set |
| `Tracker.TrackManuallyExact` | network/ip_tracker.go:242-247 | tracking a node by request keeps the lists exact |
| `Tracker.TrackAndAllowExact` | network/ip_tracker.go:410-477 | adding a validator, known or not, connected or not, keeps the lists exact |
| `Tracker.GossipExact` | network/ip_tracker.go:254-264 | configuring a node to be gossiped keeps the lists exact |
| `Tracker.AddIPExact` | network/ip_tracker.go:311-324 | learning an IP keeps the lists exact: every list with the node shows the newer IP |
| `Tracker.ConnectExact` | network/ip_tracker.go:344-382 | announcing a connection keeps the lists exact if and only if the node was not already connected with a subnet it is gossiped for and no longer syncs |
| `Tracker.DisconnectExact` | network/ip_tracker.go:393-408 | losing a connection keeps the lists exact |
| `Tracker.RemovedExact` | network/ip_tracker.go:481-522 | removing a validator keeps the lists exact, with its early returns and its deletion of empty subnets and nodes |
| `TrackerRuns.RunExact` | network/ip_tracker.go:242-522 | in every reachable state: listed iff gossipable, connected and syncing; the listed IP is the tracked one, never missing and never older than on connecting; tracked only by request or as a validator |
| `TrackerRuns.ReconnectBreaks` | network/ip_tracker.go:344-357 | a concrete history in which a validator is announced a second time while connected, without its subnet: it stays listed, and the lists are not exact |
| `TrackerRuns.ListedByHistory` | network/ip_tracker.go:311-522 | the gossip list of a subnet, read off the events: nodes configured for it or added and not removed since, whose current session syncs it |
| `TrackerRuns.TrackedByHistory` | network/ip_tracker.go:242-522 | a node is tracked if and only if it was requested or is active for some subnet |
| `TrackerRuns.WantedByHistory` | network/ip_tracker.go:100-106 | a connection is wanted if and only if the node was requested or is active for a subnet the local node tracks |
| `TrackerRuns.NewestByHistory` | network/ip_tracker.go:311-460 | the IP on record of a node, read off the events: the newest heard since it is followed, beginning with that of its connection |
| `TrackerRuns.AnswerByHistory` | network/ip_tracker.go:311-324 | after every history AddIP returns true if and only if the IP is newer than that and the connection is wanted |
| `FilterRuns.FilterNext` | network/ip_tracker.go:524-551 | what recording an IP does to the filter: nothing, one more addition, or a new filter of exactly the known IPs |
| `FilterRuns.NothingUnheard` | network/ip_tracker.go:242-608 | after every history everything in the filter was heard, its count is the sum of its additions, and no node has more entries than additions |
| `TrackerRuns.UpdateCovers` | network/ip_tracker.go:524-551 | recording an IP puts it into the filter or finds both additions used, if and only if there was room, the reset it asked for succeeded, or it was there |
| `TrackerRuns.RunCovered` | network/ip_tracker.go:524-608 | no node ever has more than two additions; if the resets asked for succeed, every known IP is in the filter or its node has used both |
| `TrackerRuns.FailedResetUncovers` | network/ip_tracker.go:534-547 | a concrete history in which a failed reset leaves a known IP out of the filter with additions unused |
| `IPTracking.NewFilter` | network/ip_tracker.go:576-608 | the loop over the tracked nodes fills a new filter with exactly the known IPs, one addition each |
| `IPTracking.IPTracker.constructor` | network/ip_tracker.go:43-80 | an empty tracker for the subnets the local node tracks |
| `IPTracking.IPTracker.ResetBloom` | network/ip_tracker.go:557-608 | a new filter with the known IPs, or nothing when none can be made |
| `IPTracking.IPTracker.UpdateMostRecentTrackedIP` | network/ip_tracker.go:524-551 | records the IP, then leaves the filter alone, resets it, or adds to it |
| `IPTracking.IPTracker.LearnIP` | network/ip_tracker.go:359-382 | compares timestamps and records a first or newer IP |
| `IPTracking.IPTracker.SetGossipableIP` | network/ip_tracker.go:384-390 | the loop over subnets lists the IP exactly where the node may be gossiped |
| `IPTracking.IPTracker.Connected` | network/ip_tracker.go:344-357 | the whole effect of a connection |
| `IPTracking.IPTracker.AddIP` | network/ip_tracker.go:311-324 | the whole effect of a verified IP, and whether the connection is wanted |
| `IPTracking.IPTracker.Disconnected` | network/ip_tracker.go:393-408 | the loop over subnets delists the node exactly where it was synced |
| `IPTracking.IPTracker.AddTrackableID` | network/ip_tracker.go:419-448 | the record of the node, with the connection's IP if it was not tracked before |
| `IPTracking.IPTracker.AddGossipableID` | network/ip_tracker.go:450-477 | the subnet is made if missing, gets the node, and lists its IP if it is connected and syncing |
| `IPTracking.IPTracker.OnValidatorAdded` | network/ip_tracker.go:410-415 | both, for a validator |
| `IPTracking.IPTracker.ManuallyTrack` | network/ip_tracker.go:242-247 | a node tracked by request |
| `IPTracking.IPTracker.ManuallyGossip` | network/ip_tracker.go:254-264 | a node configured for a subnet, tracked by request too if the subnet is tracked locally |
| `IPTracking.IPTracker.OnValidatorRemoved` | network/ip_tracker.go:481-522 | the removal with its early returns, and empty subnets and nodes dropped |
| `IPTracking.IPTracker.Peers` | network/network.go:558-598 | a reply has at most the limit, pairwise distinct nodes, none the requester or in its filter, only listed IPs of allowed requested subnets, and if it is not full exactly the nodes of all such IPs, whatever the sampling and map order |
| `Gossiping.ReplyMeans` | network/ip_tracker.go:610-650 | in a reachable state every IP of a reply is the tracked IP of a connected node that validates and syncs an allowed requested subnet |
| `Gossiping.ReplyMisses` | network/ip_tracker.go:610-650 | a reply with room left has the tracked IP of every connected node that validates and syncs an allowed requested subnet and is not excluded |
| `Gossiping.VerifiedByHistory` | network/ip_tracker.go:282-300 | after every history an IP is worth verifying if and only if it is newer than the newest heard of a node that is followed, or wanted unless all are tracked |
| `Gossiping.ReplyTaken` | network/network.go:509-517 | after a whole reply is taken in, every IP in it that was of use, not outdated and had additions left is in the receiver's filter, resets in between included |
| `Gossiping.NoRepeat` | network/README.md:188-208 | asked again with that filter, the unchanged sender repeats none of those IPs, whatever it draws |
| `Gossiping.UsedUpIsRepeated` | network/README.md:175-175 | with both additions of a node used and no reset due, a newer IP taken in from a reply does not enter the filter, and the unchanged sender, asked again with exactly that filter, repeats it in every reply that is not cut short |
| `Gossiping.UsedUpStays` | network/ip_tracker.go:524-551 | over a whole reply without a reset, a node that used both additions gets no entry into the filter |
| `Network.StepPeers` | network/network.go:456-536 | every step keeps every peer filed under its node, on one side only; connecting and connected stay disjoint |
| `Network.MarkConnectedPeers` | network/network.go:456-476 | a peer that finishes its handshake is always marked as connecting: the unexpected path is never taken |
| `Network.SeeDisconnectedPeers` | network/network.go:524-536 | a peer that disconnects finds itself on exactly the side it is on |
| `Network.ClosingOnlyShrinks` | network/network.go:1069-1128 | once closing is set no step lets a node newly into either set |
| `Network.StepTargets` | network/network.go:841-880 | every step keeps: a target not stopped is the current one of its node, current targets are not stopped, and no connected node has one |
| `Network.WakeTargets` | network/network.go:923-941 | also for a loop that was stopped and wakes nevertheless, and removes the current target |
| `Network.SingleDialer` | network/network.go:901-1014 | at most one loop that was not stopped dials a node, and none dials a connected node |
| `Network.StepDialed` | network/network.go:841-1014 | exactly who is dialed after each step, whatever the step |
| `Network.StepSameTargets` | network/network.go:841-1014 | a step leaves the targets and loops of all nodes it is not about as they were |
| `Network.StepLoops` | network/network.go:911-1014 | what each dial loop does next: a loop goes on to dial if and only if its node is wanted and on neither side |
| `Network.StepMembers` | network/network.go:456-536 | exactly who is connecting, who is connected and whether the network is closing after each step |
| `NetworkRuns.StepSpoken` | network/network.go:456-495 | what the tracker and the router were told about a node always says how far its peer is |
| `NetworkRuns.StepCounted` | node/beacon_manager.go:28-45 | every step keeps the counter equal to the number of beacons the router has been told are connected |
| `NetworkRuns.RunInv` | network/network.go:456-536 | all of this in every reachable state of every interleaving |
| `NetworkRuns.LifeCycle` | network/network.go:456-495 | per node the calls to the tracker strictly alternate, and so do the primary-network calls to the router; the beacon counter is exact, and enough beacons were reached iff some connecting beacon found enough connected |
| `NetworkRuns.NextInRuns` | network/network.go:456-1014 | the same at every moment of every run |
| `NetworkRuns.NoneEnterAfterClosing` | network/network.go:1141-1172 | from the moment of closing on, whoever is in a set was in one then |
| `NetworkRuns.AlternatingIsPossible` | network/ip_tracker.go:344-408 | alternating calls are what the tracker needs: a connection is never announced for a connected node |
| `NetworkRuns.TrackerExact` | network/network.go:456-495 | so in every interleaving of the network the tracker's gossip lists are exact |
| `PeerNetwork.PeerSets.Upgrade` | network/network.go:1069-1128 | starts a peer unless closing or already connecting or connected |
| `PeerNetwork.PeerSets.Connected` | network/network.go:456-476 | moves the peer over, stopping and dropping the node's target |
| `PeerNetwork.PeerSets.DisconnectedFromConnecting` | network/network.go:841-861 | drops the peer, and replaces or stops the node's target |
| `PeerNetwork.PeerSets.DisconnectedFromConnected` | network/network.go:867-878 | drops the peer, and dials again if wanted |
| `PeerNetwork.PeerSets.ManuallyTrack` | network/network.go:677-697 | dials unless connected or already dialing |
| `PeerNetwork.PeerSets.Track` | network/network.go:727-749 | stops the old target and dials the new one, unless not added or connected |
| `PeerNetwork.PeerSets.Wake` | network/network.go:923-949 | stops the current target if the node is not wanted, exits if it is connecting or connected, dials otherwise |
| `PeerNetwork.PeerSets.StartClose` | network/network.go:1141-1160 | sets closing and stops and drops every target, one after the other |
| `PeerNetwork.PeerSets.StopTracking` | network/tracked_ip.go:70-74 | the target is stopped, once and for all |
| `PeerNetwork.PeerSets.Dial` | network/network.go:901-909 | a fresh target becomes the current one and gets a loop |
| `PeerNetwork.BeaconManager.Connected` | node/beacon_manager.go:28-38 | counts a beacon and signals when enough are connected |
| `PeerNetwork.BeaconManager.Disconnected` | node/beacon_manager.go:40-45 | uncounts a beacon |
| `Genesis.SplitUnlock` | genesis/genesis.go:497-529 | one unlock is spread over groups so that every closed group holds exactly the node weight, the coins stay in order, and each piece keeps its place in the schedule |
| `Genesis.SplitAllocation` | genesis/genesis.go:490-534 | one allocation likewise, with its address and locktimes |
| `Genesis.SplitAllocations` | genesis/genesis.go:477-537 | exactly numSplits groups if anything is staked and one otherwise; all but the last hold floor(total/numSplits) consecutive coins and the last the rest, every coin with its address and locktime, in order, without 64-bit overflow; no group has two pieces of one unlock |
| `Genesis.HowMany` | genesis/genesis.go:485-537 | why no group is missing when something is staked |
| `Genesis.UnlockedOneEach` | genesis/genesis.go:356-416 | the outputs of a list of allocations: one for each unlock at its place, with its amount, locktime and address, and no other |
| `GenesisSupply.InitialSupply` | genesis/config.go:146-162 | the sum of all amounts, and an overflow error if and only if it does not fit 64 bits |
| `GenesisSupply.Exchange` | genesis/genesis.go:290-310 | the X-chain holders are the initial amounts that are not zero, each as often as it is allocated, ordered by amount and address; together they hold the initial amounts |
| `GenesisSupply.OneList` | genesis/config.go:60-65 | contents and order leave only one list of holders, whatever the sort does with equal ones |
| `GenesisSupply.PositiveIs` | genesis/genesis.go:365-369 | leaving out what is zero keeps all else, each once, in order |
| `GenesisSupply.SelectIs` | genesis/genesis.go:356-364 | the allocations whose address stakes, or does not: exactly those, each once, in order |
| `GenesisSupply.GrantsIs` | genesis/genesis.go:290-305 | how often the X-chain grants an amount to an address: once for each place at which the configuration allocates it, and never nothing |
| `GenesisSupply.Platform` | genesis/genesis.go:356-382 | the P-chain outputs are exactly the unlocks of the allocations that are not staked whose amount is not zero, one output each, in order |
| `GenesisSupply.StakeOf` | genesis/genesis.go:397-416 | the stake of a validator has exactly one output for each unlock of its group, in order, those of amount zero included |
| `GenesisSupply.Ends` | genesis/genesis.go:384-389 | when each staker ends, with the nanosecond durations in 64 bits |
| `GenesisSupply.EndIs` | genesis/genesis.go:384-389 | in the range of the clock, one offset before the staker before |
| `GenesisSupply.BuildPlatform` | vms/platformvm/api/static_service.go:197-283 | the first empty output, or the first validator whose weight overflows or is zero or whose staking has ended, is refused for that reason, and nothing else is |
| `GenesisSupply.SplitWeights` | genesis/genesis.go:477-535 | every group of the split has a coin if and only if there is one for each staker; otherwise the first group is empty |
| `GenesisSupply.FromConfig` | genesis/genesis.go:272-469 | there is a genesis if and only if the supply fits, there are stakers, at least one coin is staked for each of them, and none of them ends at once; otherwise each of the five reasons exactly when it applies. Then X-chain holdings, P-chain outputs and stakes add up to the initial supply, and each of the three is what the configuration says: one output for each unlock that is not staked and not zero, and one in its stake for each unlock of a group |
| `GenesisSupply.ValidAndRefused` | genesis/genesis.go:118-185 | configurations that pass validation and have no genesis: nothing staked by two stakers or by one, one coin staked by two, and offsets that use up the whole duration |
| `GenesisSupply.ExitedIff` | genesis/genesis.go:153-169 | of the offsets that pass validation, with a duration the clock can hold, exactly those that use up the whole duration let a staker end at once |
| `Health.RegisterExact` | api/health/worker.go:77-125 | a registration keeps every gauge equal to its recount if and only if it is clean: no repeated tag for an ordinary check; no unseen tag for an application check while one is failing |
| `Health.RanKeeps` | api/health/worker.go:220-269 | a run of a check keeps the gauges exact |
| `Health.RunExact` | api/health/worker.go:77-322 | over every history of clean registrations each gauge equals the number of failing checks with its tag or the application tag |
| `Health.FirstUnclean` | api/health/worker.go:276-322 | the first registration that is not clean shows in the gauges at once |
| `Health.ExactIffClean` | api/health/worker.go:77-322 | a history is exact all along if and only if every registration in it is clean |
| `Health.RepeatedTagBreaks` | api/health/worker.go:276-322 | a concrete history in which a check lists a tag twice and is counted twice |
| `Health.LateTagBreaks` | api/health/worker.go:276-322 | a concrete history in which a tag first seen with an application check misses the failing application check before it |
| `Health.ZeroIffHealthy` | api/health/worker.go:143-170 | the gauge of a registered tag is zero if and only if Results reports the tag healthy |
| `Health.RegisterRefusals` | api/health/worker.go:77-125 | a registration is refused for the reserved tag if and only if it lists it, and otherwise as a duplicate if and only if its name is taken |
| `Health.ResultsByHistory` | api/health/worker.go:220-269 | after every history the result of a check is its last answer since it was registered, and its number of contiguous failures the length of the longest failing end of those answers |
| `Health.TagsByHistory` | api/health/worker.go:77-125 | after every history a tag lists exactly the registered checks that came with it, and the tag for all lists all of them |
| `HealthWorker.ReportedByHistory` | api/health/worker.go:143-170 | after every history Results reports a check if and only if it is registered and all are asked for, or it came with a tag that is asked for or with the application tag |
| `HealthWorker.Worker.constructor` | api/health/worker.go:54-75 | no checks, and zero for the two standing tags |
| `HealthWorker.Worker.RegisterCheck` | api/health/worker.go:77-125 | the whole effect of a registration, and the refusals that change nothing |
| `HealthWorker.Worker.CheckRan` | api/health/worker.go:236-269 | the whole effect of an answer under the lock |
| `HealthWorker.Worker.UpdateMetrics` | api/health/worker.go:276-322 | the loops over all tags or over the tags of the check |
| `HealthWorker.Worker.Results` | api/health/worker.go:143-170 | the results of exactly the checks with a requested tag or the application tag, healthy iff none fails, which is iff every requested tag is healthy; in an exact state, iff the gauge of every requested tag is zero |
| `HealthWorker.GaugesTell` | api/health/worker.go:143-170 | in an exact state all requested gauges are zero if and only if all requested tags are healthy, whether or not they are registered |
| `Index.RunIndexes` | indexer/index.go:62-161 | after every history of accepts, crashes before the commit and restarts, numbers and IDs are inverse bijections on 0..next-1 in the order of first acceptance |
| `Index.AcceptIndexes` | indexer/index.go:111-161 | a new container gets the next number; accepting one again changes nothing |
| `Index.NumbersStay` | indexer/index.go:111-161 | a container keeps its number whatever happens later |
| `Index.Indexer.constructor` | indexer/index.go:62-96 | the index resumes from what was committed, so an index over a disk that holds a sequence of containers holds that sequence |
| `Index.Indexer.Accept` | indexer/index.go:111-161 | the three writes and the commit, unless the container is known; an index that holds a sequence then holds it with the container at its end |
| `Index.Indexer.GetContainerByIndex` | indexer/index.go:167-200 | the container accepted at that number, or that there is none |
| `Index.Indexer.GetContainerRange` | indexer/index.go:205-237 | exactly the requested slice, clipped at the end, and the three errors for the arguments; when the last position wraps around 64 bits, as many empty containers as were asked for |
| `Index.Indexer.GetIndex` | indexer/index.go:240-245 | the number of a container, inverse to fetching by number |
| `Index.Indexer.GetContainerByID` | indexer/index.go:247-257 | the accepted container with the ID, or not found |
| `Index.Indexer.GetLastAccepted` | indexer/index.go:261-271 | the container accepted last, or that none was |
| `Router.ForceAdd` | api/server/router.go:81-110 | terminates on every alias graph, cyclic ones included: each call leaves fewer known bases without the endpoint |
| `Router.ForceAddIs` | api/server/router.go:81-110 | nothing is changed but this endpoint added; whatever fails, the base has it, and so has every alias of each base that newly got it, with the new handler if nothing failed |
| `Router.AddRouterKeeps` | api/server/router.go:64-110 | adding an endpoint, failed or not, keeps every endpoint of a base at its aliases; without a failure the handlers stay the same as well |
| `Router.ForceAddReaches` | api/server/router.go:81-110 | an endpoint gets only to bases that a chain of aliases leads to |
| `Router.AddRouterClosesIff` | api/server/router.go:64-110 | adding an endpoint keeps the handlers of aliases the same if and only if it is refused at the base or no base that a chain of aliases leads to has the endpoint with another handler |
| `Router.AddAliasKeeps` | api/server/router.go:112-141 | adding aliases gives them every endpoint of the base even when part of it fails, and without a failure with its handler |
| `Router.AddAliasClosesIff` | api/server/router.go:112-141 | adding aliases keeps the handlers of aliases the same if and only if it is refused or nothing that the new aliases lead to has an endpoint of the base with another handler |
| `Router.AddRouterOk` | api/server/router.go:64-110 | adding an endpoint succeeds only if the base is not reserved and no base an alias chain leads to has the endpoint; where the aliases branch like a tree that is also enough |
| `Router.AddAliasOk` | api/server/router.go:112-141 | adding aliases succeeds only if none is reserved; where the aliases branch like a tree it does if also nothing the new ones lead to has an endpoint of the base |
| `Router.TakenIsRefused` | api/server/router.go:112-141 | aliases that are accepted, and no other bases, become reserved; from then on each is refused as a base and as an alias, and the refusal changes nothing |
| `Router.ReservedByHistory` | api/server/router.go:112-141 | after every history the reserved bases, and the aliases of each base, are exactly those of the AddAlias calls that named no reserved one |
| `Router.AliasesHaveEverything` | api/server/router.go:64-141 | after every history, whatever its calls returned, every endpoint of a base is at each direct and transitive alias; after one without failures with the same handler |
| `Router.HandlersCanDiffer` | api/server/router.go:101-109 | a concrete history whose last call fails and leaves an alias with another handler than the base it stands for |
| `Router.NewAliasCanDiffer` | api/server/router.go:130-140 | a concrete history in which a failing AddAlias leaves the new alias with another handler |
| `ApiRouting.ApiRouter.GetHandler` | api/server/router.go:49-62 | the handler, or which of base and endpoint is unknown |
| `ApiRouting.ApiRouter.ForceAddRouter` | api/server/router.go:81-110 | the recursion over aliases, which goes on after a failure |
| `ApiRouting.ApiRouter.AddRouter` | api/server/router.go:64-79 | refuses reserved bases and adds otherwise |
| `ApiRouting.ApiRouter.AddAlias` | api/server/router.go:112-141 | refuses aliases that are reserved, reserves the others, and spreads the endpoints in any order |
| `IDBits.EqualSubsetIs` | ids/bits.go:21-62 | true if and only if all bits of the range agree under ID.Bit; a non-empty range past the ID never does; from a negative start the first byte is left out, or, eight or more before the ID, the source panics unless an earlier byte decides |
| `IDBits.FirstDifferenceSubset` | ids/bits.go:67-128 | the least differing bit of the range, and none if and only if EqualSubset holds, for ranges within the ID; a panic exactly for a range into the ID that starts eight or more before it |
| `IDBits.MaskedEqual` | ids/bits.go:38-61 | masked bytes are equal if and only if the bytes agree on the selected bits |
| `IDBits.MaskedFirst` | ids/bits.go:76-104 | the lowest bit of the difference of masked bytes is where the bytes first differ |
| `IDBits.XorBit` | ids/bits.go:87-104 | a bit of a difference is set if and only if the two bits differ |

## Left out

- Sizing.Size: states the size only of values that marshal, which is what codec/manager.go:45 promises; for others its walk may stop earlier or later than that of `marshal`.
- Index.Indexer.Accept: the number of accepted containers is unbounded; the counter of the source would wrap around after 2^64 of them.
- GenesisSupply.Exchange: the formatting of addresses and the memo, which is the Ethereum addresses in the order of the sort, are not modelled.
- GenesisSupply.FromConfig: addresses, names, delegation fees, keys and the bytes built by the virtual machines, with the limits of their codecs, are not modelled, nor are start times so far from now that the clock of the source saturates.
- LockTable.StepInv: a call's reads are taken at the moment it gets a lock; reads later under the same lock see the same data by `LockTable.CommitSeesCurrent`.
- IPTracking.IPTracker.Peers: the Bloom filter of the requester is any predicate on gossip IDs; that a real filter contains what was added to it is `Bloom.Filter.Add`.
- Bloom.Filter.Add: the filter's bytes are kept as their bits; hashing, salts and the floating-point sizing of filters are not modelled.
- Errors of the underlying databases, which the source passes on.
- Several pages of `getKeys` in a row: resuming from a start key depends on the linked database's own start-key rules.
- Go's reflection and struct tags: which fields are serialized is part of a type in the model; unhashable dynamic map keys panic in the source.
- `AllowConnection`, TLS upgrades, message queues, throttling, pings and timeouts of peers.
- Delays between dial attempts and private addresses: a dial loop may wake, fail or succeed at any time.
- Details, timestamps and durations of health results, and the start and stop of the worker's loop.
- HTTP serving and the route objects of the HTTP library.
- The caches, message builders, staking certificates, NAT traversal, tracing, API clients, versions and upgrades: plumbing, finite tables or code outside the repository.
