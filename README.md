# neio-agent core, modelled in Dafny

neio-agent is a HID remapping agent. Input devices feed a graph of flow nodes, and the graph
drives a virtual output device. This project models the parts of it that do sequential byte-,
bit- and list-level work, and proves properties of them:

- **Report descriptors.** `Tags` covers the short-item tag layout. `DescriptorDecoder` is the
  byte-driven decoder state machine, with the item handlers of `Commands` (global, local and
  collection stacks, Push/Pop). `DescriptorEncoder` is the minimal-length encoder. All three
  follow section 6.2.2 of the USB Device Class Definition for HID 1.11. `Descriptor` covers
  the data flags, report sizes, Clone and Walk.
- **Bit buffers and reports.** `Bits` covers the bit buffer: Set, Clear, ClearAll, the word
  writes, ConcatBits, the string form and the Scanner. `Fields` and `Codec` split a report into
  fields of ReportSize×ReportCount bits and rebuild it.
- **Usages.**
  - `Usages`: usage packing and parsing.
  - `UsageSets`: bitmap, range and selector (array) fields.
  - `Values`: variable value fields.
  - `Events`: the Event usage list with its index map.
  - `ItemGroups` and `DataItems`: the data item set.
  - `ReportStates`, with `StateTables`, `StateFields` and `StateSteps`: the report state. It
    turns report differences into events and applies events back to reports, counting
    presses.
- **Small state machines and validators.**
  - `Keyboard`: the keyboard bitmap driver.
  - `Matchers`: the usage matcher.
  - `Chars`: the ASCII-to-keycode table of the Keyboard/Keypad page.
  - `MuxNode`: the Mux route stack.
  - `BindNode`: Bind chord triggering.
  - `FlowGraph`: flow-graph construction and validation.
  - `FlowDsl` and `FlowArgs`: declaration and argument validation of the flow language.

Code that updates state in place is modelled as Dafny classes and methods over arrays, sequences
and maps. Each such method is proved against a specification function, and the properties are
proved as lemmas about those functions. A Go panic (index out of range, nil dereference) is an
explicit `Panic` outcome of a `Result`. Where a precondition excludes such an input instead, "## Left out"
says so.

## Model

| member | source | states |
|---|---|---|
| Common.Split | hidapi/usage.go:47 | `strings.Split`: the parts never contain the separator, and there is at least one part |
| Common.SplitSingle | hidapi/usage.go:47-50 | a string splits into exactly one part iff it has no separator, and then that part is the string (the bare key name case) |
| Common.SplitAt | hidapi/usage.go:47-53 | splitting `a.sep.b` with no separator in `a` gives `a` followed by the parts of `b` |
| Common.SplitJoin | internal/flowsvc/graph.go:476 | joining the parts of a split with the separator gives the string back |
| Common.LittleEndianRoundTrip | pkg/bits/bits.go:169-195 | writing a value below 256^n as n little-endian bytes and reading them back gives the value |
| Common.LittleEndianBytesOfValue | pkg/bits/bits.go:169-195 | reading n bytes as a little-endian value and writing it back gives the bytes |
| Common.SignedOfMod | internal/hidparse/values.go:56-88 | the int8/int16/int32 conversion of a value in the signed range, taken modulo 2^(8n), gives the value back |
| Common.SignedOfResidue | internal/hidparse/values.go:56-88 | the signed conversion depends only on the value modulo 2^(8n), as Go's truncating casts do |
| Tags.PayloadSize | pkg/usbhid/descparser/tags.go:51-53 | the size code is the low two bits, at most 3 |
| Tags.ItemType | pkg/usbhid/descparser/tags.go:63-65 | the item-type bits are kept in place: 0, 4, 8 or 12 |
| Tags.PayloadLen | pkg/usbhid/descparser/tags.go:44-49 | size codes 0, 1, 2, 3 announce 0, 1, 2, 4 payload bytes; zero bytes only for code 0 |
| Tags.PrefixAndSize | pkg/usbhid/descparser/tags.go:51-69 | a tag byte is its prefix OR its size code, the two share no bit, and the prefix has code 0 and is a fixed point |
| Tags.WithItemSizeParts | pkg/usbhid/descparser/tags.go:51-69 | putting a size code on a prefix and reading back gives the prefix and the code |
| Tags.TagConstants | pkg/usbhid/descparser/tags.go:8-38 | every Main, Global and Local tag constant has size code 0 and the item type of its group, and the three groups are disjoint |
| Bits.Len | pkg/bits/bits.go:94-96 | the length is 8·(bytes) − missing bits; for a valid value it is non-negative and the bytes are exactly the ones the bits need |
| Bits.Set | pkg/bits/bits.go:119-128 | sets bit `bit` in place; reports a change exactly when the bit is within Len and was clear; a bit past Len changes nothing |
| Bits.Clear | pkg/bits/bits.go:130-139 | clears bit `bit` in place; reports a change exactly when the bit was set |
| Bits.WithBitIsSet | pkg/bits/bits.go:110-139 | after Set/Clear only bit `bit` can read differently, and it reads as written when within Len |
| Bits.ClearAll | pkg/bits/bits.go:141-150 | zeroes every byte and reports whether any byte was non-zero |
| Bits.IsEmpty | pkg/bits/bits.go:152-159 | true exactly when every byte is zero |
| Bits.EmptyIffNoBitSet | pkg/bits/bits.go:110-159 | all-zero bytes means no bit reads as set; with no missing bits the converse holds too |
| Bits.Equal | pkg/bits/bits.go:71-84 | equal exactly when the missing bits and every byte agree |
| Bits.Clone | pkg/bits/bits.go:197-204 | a fresh buffer with the same bytes |
| Bits.SetUint | pkg/bits/bits.go:185-195 | SetUint8/16/32 write the value little-endian at byte index·width |
| Bits.PutWordThenRead | pkg/bits/bits.go:185-195 | the written word reads back as the value and every byte outside it is unchanged |
| Bits.NewBitSetFromString | pkg/bits/bits.go:206-232 | the loop over the whitespace-separated byte strings computes FromString: 8-digit words are bytes, a shorter word is allowed only last and sets the missing bits |
| Bits.Fields | pkg/bits/bits.go:207 | `strings.Fields`: every field is non-empty |
| Bits.Word | pkg/bits/bits.go:207 | a field is the longest space-free prefix |
| Bits.ParseFormatByte | pkg/bits/bits.go:60-63 | the 8-digit binary form of a byte parses back to the byte (also line 213) |
| Bits.FieldsOfFormat | pkg/bits/bits.go:55-69 | String's output splits into one word per byte (also line 207) |
| Bits.FormatThenParse | pkg/bits/bits.go:206-232 | NewBitSetFromString(String(b)) gives back b, for b whose unused low bits are zero (also lines 55-69) |
| Bits.ParseThenFormat | pkg/bits/bits.go:206-232 | a string that String produced parses to a value whose String is the same string (also lines 55-69) |
| Bits.ConcatBits | pkg/bits/bits.go:241-269 | the corrected concatenation (see Findings): the result is Concat(l, r) |
| Bits.ConcatBitString | pkg/bits/bits.go:241-269 | Concat of l and r is valid, has (l.m + r.m) mod 8 missing bits, Len(l)+Len(r) bits, and its bit string is l's followed by r's |
| Bits.ConcatCanonical | pkg/bits/bits.go:241-269 | concatenating values whose unused bits are zero gives such a value |
| Bits.ConcatBitsAsWritten | pkg/bits/bits.go:241-269 | as written: l with no missing bits appends the bytes; 0 < l.m and l.m + r.m < 8 reads past r and panics; otherwise the result is Concat(l, r) |
| Bits.JoinAsWritten | pkg/bits/bits.go:253-264 | the merge loop of ConcatBits as written builds Concat(l, r)'s bytes when the last byte is dropped, and fails (index past r) when it is not |
| Bits.Scanner.constructor | pkg/bits/bits.go:11-15 | a scanner at bit offset 0 over the data |
| Bits.Scanner.Next | pkg/bits/bits.go:22-48 | advances the offset by bitSize and returns the field as written (NextBitsAsWritten), including its missing-bits count and its panics |
| Bits.ShiftedField | pkg/bits/bits.go:38-47 | the copy loop of Next for an unaligned field computes NextField |
| Bits.NextLengthAsWritten | pkg/bits/bits.go:27 | a 3-bit field comes back with Len 5, not 3 |
| Bits.NextAgrees | pkg/bits/bits.go:27 | for whole-byte sizes Next as written and the corrected NextBits agree |
| Bits.NextWholeBytes | pkg/bits/bits.go:32-37 | at a byte-aligned offset a whole-byte field is the slice of the data |
| Bits.NextInRange | pkg/bits/bits.go:22-48 | the corrected NextBits of a field inside the data is valid and exactly bitSize bits long |
| Bits.NextShifted | pkg/bits/bits.go:38-47 | an unaligned field's bytes are the data bytes shifted left by the bit offset, the last one taken from the first byte again |
| Bits.NextPanics | pkg/bits/bits.go:32-43 | a field whose bytes lie past the data panics with an index error |
| Descriptor.FlagsRoundTrip | hidapi/hiddesc/descriptor.go:56-88 | the Constant, Variable, Array, Relative and Wrap tests read back exactly the flags a DataFlags word was built from |
| Descriptor.FlagsRoundTripHigh | hidapi/hiddesc/descriptor.go:56-108 | the same for NonLinear, NoPreferred, NullState, Volatile and BufferedBytes |
| Descriptor.SizeIsSumOfReportSizes | hidapi/hiddesc/descriptor.go:43-54 | Collection.MaxReportSize is the sum of ReportSize over the collection's data items, nested ones included |
| Descriptor.SizeIgnoresCount | hidapi/hiddesc/descriptor.go:8-54 | as written the size counts ReportSize once per item: an item of four 8-bit fields adds 8 |
| Descriptor.CloneDescriptor | hidapi/hiddesc/descriptor.go:175-203 | one clone per top-level collection, each the Collection.Clone of the original |
| Descriptor.CloneKeepsData | hidapi/hiddesc/descriptor.go:205-228 | a clone keeps the type, the data items and the size, and drops the usage page and ID (they are not copied) |
| Descriptor.CloneIdempotent | hidapi/hiddesc/descriptor.go:205-228 | cloning a clone gives the same clone |
| Descriptor.WalkAll | hidapi/hiddesc/descriptor.go:230-239 | with a callback that never stops, Walk visits every item in pre-order, nested collections after their item |
| Descriptor.WalkStopsAtFirst | hidapi/hiddesc/descriptor.go:230-234 | a callback that stops at the first item visits only that item |
| Descriptor.WalkBounded | hidapi/hiddesc/descriptor.go:230-239 | Walk never visits more items than the collection holds |
| Usages.NewUsage | hidapi/usage.go:25-27 | the page is the upper 16 bits and the ID the lower 16 |
| Usages.UsageRoundTrip | hidapi/usage.go:11-27 | Page and ID of NewUsage give the parts back, NewUsage of the parts gives the usage back, and a usage is NewUsage(p, i) exactly when its parts are p and i |
| Usages.Atoi | hidapi/usage.go:63-66 | `strconv.Atoi`: an empty or non-digit string is a syntax error, and a success lies in the int64 range |
| Usages.DecimalValue | hidapi/usage.go:63 | the decimal digits of n read back as n |
| Usages.AtoiOfDecimal | hidapi/usage.go:63 | Atoi of the decimal form of n (and of its negation) gives n (−n) |
| Usages.ParseUsageCases | hidapi/usage.go:46-54 | `prefix.name` is parsed by its prefix, and a bare name is parsed as `key.name` |
| Usages.TwoDotsRejected | hidapi/usage.go:51-53 | a string with two dots is rejected |
| Usages.ButtonNames | hidapi/usage.go:62-67 | `btn.n` is the Button page with ID n truncated to 16 bits |
| Usages.KeyNames | hidapi/usage.go:56-61 | `key.X` succeeds exactly when `KeyX` has a non-zero key code, and gives that code on the Keyboard/Keypad page |
| Usages.UnknownPrefixRejected | hidapi/usage.go:68-69 | a prefix other than key and btn is rejected |
| Usages.TrimSpaceSlice | hidapi/usage.go:32 | `strings.TrimSpace` removes only leading and trailing white space, and what is left starts and ends with a non-space |
| Usages.ParseEntry | hidapi/usage.go:32-39 | one entry: trimmed, rejected when empty, then parsed |
| Usages.ParseUsages | hidapi/usage.go:29-44 | the loop computes UsagesOf: the usages in order, or the failure of the first bad entry |
| Usages.UsagesOfEntries | hidapi/usage.go:29-44 | ParseUsages succeeds exactly when every trimmed entry is non-empty and parses, and then its i-th usage is the i-th entry's |
| Usages.CollectFirstFailure | hidapi/usage.go:33-39 | the error returned is the one of the first failing entry |
| Matchers.NewMatcher | hidapi/hidusage/matcher.go:7-29 | succeeds exactly when every pattern compiles, and then matches what the compiled patterns match; otherwise returns the error of the first pattern that fails, all before it having compiled |
| Matchers.Match | hidapi/hidusage/matcher.go:21-28 | the loop over the compiled patterns answers Matches: true at the first pattern that matches |
| Matchers.MatcherIsDisjunction | hidapi/hidusage/matcher.go:8-28 | a matcher built from no patterns matches every usage; otherwise it matches exactly when some pattern matches |
| Matchers.StarMatchesAll | hidapi/hidusage/matcher.go:32-42 | `*` and `*.anything` compile to the pattern that matches every usage |
| Matchers.PageMatchesWholePage | hidapi/hidusage/matcher.go:32-51 | a bare page name means `page.*`; it fails when the page is unknown, else matches exactly the usages of that page |
| Matchers.ExactMatchesOne | hidapi/hidusage/matcher.go:52-58 | `page.usage` fails when the name is unknown, else matches exactly that one (page, ID) pair |
| Values.ValueWidth | internal/hidparse/values.go:62-71 | report sizes 8, 16 and 32 give words of 1, 2 and 4 bytes; every other size gives none (GetValue answers 0, SetValue writes nothing) |
| Values.SetValue | internal/hidparse/values.go:74-88 | writes the value, truncated to the word width, as the usage's little-endian word; an unknown usage or an unsupported size leaves the field alone |
| Values.SetThenGet | internal/hidparse/values.go:56-88 | after SetValue(u, v) GetValue(u) is v as a signed word of the item's width, every other usage reads as before, and a v inside the width's range reads back unchanged |
| Values.SetThenGetSame | internal/hidparse/values.go:56-88 | GetValue(u) after SetValue(u, v) is v truncated to the signed width |
| Values.SetThenGetOther | internal/hidparse/values.go:56-88 | SetValue(u, v) leaves GetValue(x) of every other usage x unchanged |
| Values.WordInField | internal/hidparse/values.go:64-86 | the word of the i-th usage lies inside the field's bytes |
| Values.ValuesOf | internal/hidparse/values.go:93-107 | a usage-value item has one usage per usage ID |
| Values.ItemUsages | internal/hidparse/values.go:103-106 | the i-th usage is NewUsage(page, i-th usage ID) |
| Values.NewUsageValuesItems | internal/hidparse/values.go:90-110 | item i has an entry exactly when it has usage IDs, is variable and not constant and has ReportSize 8, 16 or 32; the entry is ValuesOf(item i) |
| Values.ValuesOfItem | internal/hidparse/values.go:25-108 | the values contain a usage exactly when its page is the item's and its ID one of the item's; when the item has no more IDs than ReportCount every word lies in the field |
| Values.SetsAndValuesDisjoint | internal/hidparse/values.go:93 | no data item is both a usage set and a usage-value item (arrays and constants are never values) |
| Events.Lookup | hidapi/event.go:77-87 | finds the entry of a usage, or none exactly when no entry has it |
| Events.Find | hidapi/event.go:43-52 | the index of the first entry of a usage, or the length when there is none |
| Events.AddedLookup | hidapi/event.go:42-49 | adding an entry keeps the usages distinct, replaces the entry of its usage in place or appends it, and changes no other usage's entry |
| Events.RemovedLookup | hidapi/event.go:51-63 | removing a usage keeps the others distinct and unchanged, removes exactly its entry (as a multiset), and is a no-op when it is absent |
| Events.RemoveIndexed | hidapi/event.go:51-63 | the swap-with-last removal keeps the index map in agreement with the list |
| Events.SuppressAllLookup | hidapi/event.go:69-75 | after Suppress no listed usage has an entry and every other entry is unchanged |
| Events.ActivateAllLookup | hidapi/event.go:97-119 | after Activate/Deactivate every listed usage has exactly the activation entry, others unchanged |
| Events.AddAllLookup | hidapi/event.go:89-95 | after AddUsage of several entries a usage has its last new entry, else its old one |
| Events.AddAllRebuilds | hidapi/event.go:11-21 | re-adding the entries of an event one by one gives the same list |
| Events.Event.ValidIndex | hidapi/event.go:5-9 | the index map points every usage at its entry and the entries are distinct |
| Events.Event.constructor | hidapi/event.go:23-27 | NewEvent: no entries |
| Events.Event.Clone | hidapi/event.go:11-21 | a fresh event with the same entries in the same order |
| Events.Event.IsEmpty | hidapi/event.go:35-40 | true exactly when there are no entries |
| Events.Event.AddUsage | hidapi/event.go:42-49 | addUsage: the entries become Added(old, e) and the index stays consistent |
| Events.Event.RemoveUsage | hidapi/event.go:51-63 | removeUsage: the entries become Removed(old, u) and the index stays consistent |
| Events.Event.Suppress | hidapi/event.go:69-75 | the entries become SuppressAll(old, usages) |
| Events.Event.Usage | hidapi/event.go:77-87 | returns Lookup(entries, u) |
| Events.Event.AddUsages | hidapi/event.go:89-95 | the entries become AddAll(old, entries) |
| Events.Event.Activate | hidapi/event.go:97-119 | Activate (on) and Deactivate (off): the entries become ActivateAll(old, usages, on) |
| Events.Event.SetValue | hidapi/event.go:121-129 | adds a value entry for the usage |
| Events.Event.SetDelta | hidapi/state.go:212 | adds a delta entry for the usage, as SetValue does for a value |
| Events.Event.Usages | hidapi/event.go:131-137 | a copy of the entries in order |
| UsageSets.SetBitsMeaning | hidapi/usage_set.go:119-128 | the bit indices Each reports as set are exactly the set bits below the length, in ascending order |
| UsageSets.NotContainedIsIgnored | hidapi/usage_set.go:130-160 | for a usage the set does not contain, HasUsage, SetUsage and ClearUsage answer false and the field's bytes (flags) or slots (selectors) are left as they were (also lines 72-91, 220-223, 274-277, 305-308) |
| UsageSets.FlagSetThenHas | hidapi/usage_set.go:72-160 | on a flag map or range, SetUsage makes HasUsage true and ClearUsage makes it false; Set answers whether the flag was clear, Clear whether it was set; every other contained usage on another bit keeps its answer |
| UsageSets.RangeBit | hidapi/usage_set.go:130-160 | a range's usage lives at bit ID − UsageMinimum |
| UsageSets.SetSlotsKeepsShape | hidapi/usage_set.go:274-303 | setting a non-zero ID on the slots keeps them packed (no slot after an empty one is taken) and free of duplicates; afterwards the ID is present exactly when it already was or a slot was free; every taken ID stays |
| UsageSets.ClearSlotsKeepsShape | hidapi/usage_set.go:305-346 | clearing a non-zero ID keeps the slots packed, removes exactly its first occurrence from the list of taken slots (later ones shift left), and leaves it absent when the slots held no duplicates |
| UsageSets.ReplaceSlotsShape | hidapi/usage_set.go:246-272 | replacing swaps one occurrence of `from` for `to` in the multiset of slots, changes nothing when `from` is absent, and keeps the slots packed and distinct |
| UsageSets.FlagMapListed | hidapi/usage_set.go:54-77 | for a flag map, Usages lists a usage exactly when HasUsage answers true |
| UsageSets.RangeListed | hidapi/usage_set.go:119-135 | for a range, Usages lists a usage exactly when HasUsage answers true |
| UsageSets.RangeEntry | hidapi/usage_set.go:119-128 | the k-th listed usage of a range is (page, minimum + i) for the k-th set bit i, which lies inside the range |
| UsageSets.SelectorListed | hidapi/usage_set.go:197-244 | a usage a selector lists is one HasUsage finds; a non-zero ID HasUsage finds is listed (ID 0 marks an empty slot and is never listed) |
| UsageSets.HasIffListed | hidapi/usage_set.go:197-244 | for every kind of usage set, Usages and HasUsage agree (for selectors, on non-zero IDs) (also lines 54-77, 119-135) |
| UsageSets.MissingIsMinus | hidapi/usage_set.go:377-386 | filtering a list by "HasUsage is false" is the list minus the usages the set lists |
| UsageSets.DiffMeaning | hidapi/usage_set.go:374-388 | activated is the usages of t1 not listed in t0 and deactivated the usages of t0 not listed in t1, each in the order its own list has |
| UsageSets.ListUsages | hidapi/usage_set.go:197-218 | the loop over the field returns the specification list of its usages (also lines 54-62, 119-128) |
| UsageSets.ListFlags | hidapi/usage_set.go:54-62 | the flag-map loop lists (page, ID i) for every set bit i, in order |
| UsageSets.ListRange | hidapi/usage_set.go:119-128 | the range loop lists (page, minimum + i) for every set bit i, in order |
| UsageSets.ListSlots | hidapi/usage_set.go:197-218 | the selector loop lists the non-zero slots, in order, on the set's page |
| UsageSets.HasUsage | hidapi/usage_set.go:220-244 | the loop answers the specification Has: the flag's bit for flag sets, some slot holding the ID for selectors, false for a usage outside the set (also lines 72-77, 130-135) |
| UsageSets.SelectorSet | hidapi/usage_set.go:280-289 | the in-place loop leaves the slots as SetSlots of the old slots: nothing changes when the ID is already in a slot before the first free one, else the first free slot gets it |
| UsageSets.SelectorClear | hidapi/usage_set.go:311-326 | the in-place loop leaves the slots as ClearSlots of the old slots |
| UsageSets.SelectorReplace | hidapi/usage_set.go:253-260 | the in-place loop answers whether `from` was in a slot and leaves the slots as ReplaceSlots of the old ones |
| UsageSets.SetUsage | hidapi/usage_set.go:274-303 | answers false for a usage outside the set, true for selectors, and for flags whether the bit was clear; the new field is the flag bytes with the bit set, or the selector slots with the (width-truncated) ID set (also lines 79-84, 148-153) |
| UsageSets.ClearUsage | hidapi/usage_set.go:305-346 | answers false outside the set, true for selectors, and for flags whether the bit was set; the new field is the flag bytes with the bit cleared, or the selector slots with the ID removed and later slots shifted left (also lines 86-91, 155-160) |
| UsageSets.ReplaceUsage | hidapi/usage_set.go:246-272 | answers whether `from` was present (false unless both usages are in the set); a range clears `from`'s bit and sets `to`'s only when `from` was set; a selector overwrites the first slot holding `from` with the truncated `to` (also lines 137-146) |
| UsageSets.RangeReplace | hidapi/usage_set.go:137-146 | answers whether `from`'s bit was set; the bytes become the specification replacement |
| UsageSets.RangeReplaceMoves | hidapi/usage_set.go:137-146 | when `from` was set, afterwards it is not and `to` is, and every other contained usage keeps its answer; when `from` was not set, the field is unchanged |
| UsageSets.MissingFrom | hidapi/usage_set.go:377-386 | the loop keeps, in order, exactly the usages of the list that HasUsage does not find |
| UsageSets.UsageSetDiff | hidapi/usage_set.go:374-388 | returns the specification pair (activated, deactivated) |
| UsageSets.Classify | hidapi/usage_set.go:357-369 | a constant item has no usage set; a set, when there is one, is on the item's page |
| UsageSets.NewUsageSets | hidapi/usage_set.go:355-372 | the map has a key exactly for the indices of items that classify as a usage set (selector for arrays of size 8 or 16 with a maximum, range for size-1 variables with a maximum, flag map for size-1 variables with usage IDs), holding that set |
| UsageSets.ClassifiedFieldsFit | hidapi/usage_set.go:363-368 | a field of the item's ReportSize·ReportCount bits fits the set classified from the item, and a selector's slot width is 1 or 2 bytes |
| UsageSets.SetUsage16AsWritten | hidapi/usage_set.go:290-300 | 16-bit SetUsage as written: it is given the byte offset of a slot and writes at twice that offset; when it does not panic the field keeps its length |
| UsageSets.SetUsage16AsWrittenPanics | hidapi/usage_set.go:290-300 | with slot 0 of two taken, the written SetUsage panics where the slot-indexed SetSlots fills slot 1 |
| UsageSets.SetUsage16AsWrittenStrands | hidapi/usage_set.go:290-343 | in a four-slot field the ID lands in slot 2 behind an empty slot, where ClearUsage never reaches it; SetSlots puts it in slot 1, where clearing removes it |
| UsageSets.ReplaceUsage16AsWritten | hidapi/usage_set.go:261-269 | 16-bit ReplaceUsage as written: overwrites at twice the byte offset of the matching slot; when it does not panic the field keeps its length |
| UsageSets.ReplaceUsage16AsWrittenPanics | hidapi/usage_set.go:261-269 | replacing the ID in slot 1 of a two-slot field panics where ReplaceSlots overwrites slot 1 |
| UsageSets.ClearUsage16AsWritten | hidapi/usage_set.go:327-343 | 16-bit ClearUsage as written: the scan stops at the first empty slot and clears the matching ID with a write at byte 2·i for byte offset i; when it does not panic the field keeps its length |
| UsageSets.ShiftDown16AsWritten | hidapi/usage_set.go:330-335 | after the ID is cleared, each later nonzero slot is moved down with writes at bytes 2·i−2 and 2·i for byte offset i; when it does not panic the field keeps its length |
| UsageSets.ClearUsage16AsWrittenPanics | hidapi/usage_set.go:327-343 | clearing slot 0 of a field whose slot 1 is taken panics where ClearSlots shifts slot 1 down |
| ItemGroups.OfAppend | hidapi/data_items.go:67-75 | a report's items over a concatenation are its items from each part, in order: appending never reorders a report |
| ItemGroups.OfTypeAppend | hidapi/data_items.go:52-65 | filtering by main-item type distributes over concatenation |
| ItemGroups.OfOf | hidapi/data_items.go:37-39 | taking report x's items and then report id's gives report id's items when x = id and nothing otherwise |
| ItemGroups.OfOfType | hidapi/data_items.go:52-65 | filtering by type and then by report is filtering by report and then by type |
| ItemGroups.IDsOf | hidapi/data_items.go:67-72 | report IDs are recorded without repetition, and an ID is recorded exactly when some added item carries it |
| ItemGroups.GroupedKeeps | hidapi/data_items.go:41-65 | regrouping the items report by report keeps the order of first appearance of the IDs and each report's items |
| ItemGroups.WithTypeReports | hidapi/data_items.go:52-65 | each report of WithType(typ) holds exactly that report's items of type typ, in order |
| ItemGroups.MakeDescriptorRoundTrip | hidapi/data_items.go:16-104 | the descriptor MakeDescriptor builds has one well-formed collection per report, and reading its data items back yields the same report IDs and the same items per report |
| ItemGroups.OfZero | hidapi/data_items.go:81-84 | no item is in report 0 exactly when no added item has report ID 0 |
| DataItems.DataItemSet.constructor | hidapi/data_items.go:17-20 | a new set is empty and its maps agree with its (empty) history |
| DataItems.DataItemSet.Add | hidapi/data_items.go:67-75 | records the report ID on its first use, appends the item to its report and its type at the same index; the set still agrees with the history extended by (typ, item) |
| DataItems.DataItemSet.Report | hidapi/data_items.go:37-39 | the items of one report, in the order they were added (none for an unknown ID) |
| DataItems.DataItemSet.Type | hidapi/data_items.go:77-79 | the type recorded for the idx-th item of a report, and Input (the zero MainItemType) for an index or report that has none |
| DataItems.DataItemSet.HasReportID | hidapi/data_items.go:81-84 | true exactly when no added item is in report 0 |
| DataItems.DataItemSet.Reports | hidapi/data_items.go:41-50 | one entry per report ID in order of first use, each with that report's items |
| DataItems.DataItemSet.WithType | hidapi/data_items.go:52-65 | a fresh set holding, report by report, the items of the given type |
| DataItems.DataItemSet.MakeDescriptor | hidapi/data_items.go:86-104 | the descriptor with one collection per report holding its items with their types |
| DataItems.DataItemSet.Drill | hidapi/data_items.go:21-30 | adds the data items of a collection depth first, nested collections in place |
| DataItems.NewDataItemSet | hidapi/data_items.go:16-35 | a fresh set whose history is every data item of every collection of the descriptor, depth first |
| Fields.ScanFields | hidapi/codec.go:22-33 | when every field is a whole number of bytes, the scanner loop yields the specification decode of the payload: one field per data item, an error at the first empty field, a panic past the end of the data |
| Fields.DecodedFieldSizes | hidapi/codec.go:27-33 | every field of a successful decode is a valid bit string of exactly ReportSize·ReportCount bits of its item |
| Fields.DecodeSucceeds | hidapi/codec.go:27-34 | decoding succeeds whenever every item's field is non-empty and the data holds all the fields' bits |
| Fields.EmptyFieldFails | hidapi/codec.go:28-31 | an item whose field has no bits (ReportSize or ReportCount 0) makes the decode fail, wherever it stands |
| Fields.AlignedFields | hidapi/codec.go:22-33 | byte-aligned fields that exactly cover the payload decode to whole-byte fields whose bytes, laid end to end, are the payload |
| Codec.Decode | hidapi/codec.go:15-35 | with report IDs in use the first byte selects the report (an empty buffer panics), otherwise the whole data is report 0; the fields are that report's items scanned in turn, and any empty field fails the decode |
| Codec.ConcatAll | hidapi/codec.go:43-45 | folding ConcatBits over the fields gives a valid bit string whose length is the start's plus the sum of the fields' lengths |
| Codec.EncodeReport | hidapi/codec.go:37-47 | the encoding starts from the report ID byte (none for ID 0) and appends every field in order |
| Codec.EncodedLen | hidapi/codec.go:37-47 | the encoded length is 8 bits for a non-zero ID plus the lengths of all fields |
| Codec.ConcatWhole | hidapi/codec.go:43-45 | concatenating whole-byte fields is concatenating their bytes |
| Codec.DecodeEncodeRoundTrip | hidapi/codec.go:15-47 | for byte-aligned items and a buffer whose payload exactly covers its report's fields (with a non-zero first byte when IDs are used), decoding succeeds and encoding the decoded report gives back the buffer |
| Codec.RoundTripWithID | hidapi/codec.go:15-47 | the round trip for a descriptor with report IDs: the ID byte followed by the payload comes back unchanged |
| Codec.RoundTripPayload | hidapi/codec.go:22-45 | decoding a byte-aligned payload and concatenating the fields after the ID prefix reproduces the prefix and the payload |
| StateTables.Insert | hidapi/state.go:134-151 | inserting a range into a list adds exactly that range to its multiset |
| StateTables.InsertSorted | hidapi/state.go:135-149 | inserting into a list sorted by (ReportSize, start) keeps it sorted |
| StateTables.SortRanges | hidapi/state.go:134-151 | the ranges of a page come out sorted by ReportSize and then by first usage ID, as a permutation of the ranges recorded |
| StateTables.FirstContaining | hidapi/state.go:228-235 | the index of the first range that contains the ID, or the length when none does |
| StateTables.LookupTakesLeastRange | hidapi/state.go:134-151 | a usage without a flag-map address that some range of its page contains is found, in the first containing range, which sorts no later than any other containing range (also lines 228-235, 268-275) |
| StateTables.SetEntriesSound | hidapi/state.go:85-116 | recording the flag-map IDs and ranges of a report's usage sets keeps every recorded address pointing at a set that contains the usage, and changes neither the sets nor the values |
| StateTables.ValueEntriesSound | hidapi/state.go:117-130 | indexing every usage of a report's value items keeps every recorded address pointing at a value item that holds the usage, and changes nothing else |
| StateTables.ReportTablesSound | hidapi/state.go:82-130 | adding one report's tables keeps the tables sound for the whole descriptor and adds that report's sets and values |
| StateTables.TablesOverSound | hidapi/state.go:71-133 | the tables built over the reports are sound and hold sets and values for every report |
| StateTables.AddressHolds | hidapi/state.go:266-292 | the address an entry is routed to holds a usage set containing the usage (activations) or a value item whose index maps the usage there (deltas and values) |
| StateTables.SortKeepsSound | hidapi/state.go:134-151 | sorting the ranges keeps the tables sound and leaves every page's ranges sorted |
| StateTables.InitTablesSound | hidapi/state.go:70-152 | the initial tables are sound, have sets and values exactly for the descriptor's report IDs, and every page's ranges are sorted |
| StateTables.PutEach | hidapi/state.go:100-129 | the loop maps every key of the list to the address, later keys overwriting earlier entries |
| StateTables.AddReportTables | hidapi/state.go:82-130 | the loop body for one report gives the specification tables for that report |
| StateTables.AddSetEntries | hidapi/state.go:85-116 | the loop over a report's usage sets gives the specification set entries |
| StateTables.AddValueEntries | hidapi/state.go:117-130 | the loop over a report's value items gives the specification value index |
| StateTables.GetUsageSet | hidapi/state.go:228-235 | finds a range exactly when one contains the ID, and then the first one |
| StateFields.NewZeros | hidapi/state.go:77 | a valid bit string of exactly n bits, all zero |
| StateFields.Zeroed | hidapi/state.go:355 | ClearAll keeps a field's length and zeroes all its bytes |
| StateFields.Strip | hidapi/state.go:352-359 | zeroes the fields of relative items and keeps every other field and the report ID |
| StateFields.Toggled | hidapi/state.go:298-321 | SetUsage or ClearUsage on a field keeps its length |
| StateFields.Toggle | hidapi/state.go:298-321 | the in-place SetUsage or ClearUsage on a copy of the field gives the specification field |
| StateFields.Written | hidapi/state.go:334-337 | SetValue on a field keeps its length |
| StateFields.WriteValue | hidapi/state.go:334-337 | the in-place SetValue on a copy of the field gives the specification field |
| StateFields.Wrap32 | hidapi/state.go:212 | int32 arithmetic wraps, and leaves every value already inside the int32 range as it is (also line 335) |
| StateFields.ValueEventsLookup | hidapi/state.go:199-217 | after a value item's usages are added, a usage of the item has its value event (its absolute value, or for a relative item a non-zero wrapped delta when the field changed) and every other usage keeps its entry |
| StateFields.SetFieldEvents | hidapi/state.go:189-198 | for a usage-set field, an unchanged field adds nothing; otherwise the usages listed before and not after are deactivated, those listed after and not before are activated, and every other usage keeps its entry |
| StateFields.UnchangedReportOnlyValues | hidapi/state.go:186-219 | applying the report already stored gives no activations and no deltas, only the absolute values |
| StateSteps.HeldIffCounted | hidapi/state.go:300-322 | over any run of activations and deactivations of an absolute usage the count never goes negative, and the usage is set exactly while the count is positive |
| StateSteps.NewCounts | hidapi/state.go:300-322 | the counts stay non-negative after any entry |
| StateSteps.StepReady | hidapi/state.go:261-339 | one event entry keeps every stored report well shaped and the counts non-negative, touches only reports that exist, and changes no report it does not touch |
| StateSteps.Steps | hidapi/state.go:261-339 | after any number of entries the same holds: the reports keep their keys and shapes, and untouched reports are unchanged |
| StateSteps.PressStep | hidapi/state.go:296-332 | an activation of an absolute set usage changes only its field: the count goes up (press) or down, being deleted at 0 or below (release), and the field gets SetUsage when the count becomes 1 and ClearUsage when it drops to 0 or below, and is otherwise unchanged |
| StateSteps.ValueStep | hidapi/state.go:333-337 | a delta or value entry leaves GetValue of the usage at the wrapped current value plus the delta, or at the new value, truncated to the item's width, and every other usage of the item reads as before |
| StateSteps.ZeroReport | hidapi/state.go:72-78 | the initial report has the report's ID and one all-zero field of ReportSize·ReportCount bits per item |
| StateSteps.ZeroFields | hidapi/state.go:72-78 | the loop builds the specification zero report |
| StateSteps.ZeroReportsAllReady | hidapi/state.go:71-81 | every report ID gets a stored report, shaped and with relative fields zero, and the counts start empty |
| StateSteps.StoreAll | hidapi/state.go:341-347 | storing keeps the report IDs; every touched report is stored with its relative fields stripped and every other one as it was |
| StateSteps.EncodingAt | hidapi/state.go:346 | the k-th encoding is EncodeReport of the k-th touched report, before stripping |
| StateSteps.LookupAddress | hidapi/state.go:266-292 | activations go to the flag-map address, else to the first containing range; deltas and values to the value index; an entry with no action or no address is skipped |
| StateSteps.MovePress | hidapi/state.go:300-322 | updates the count as specified and answers whether the field must be toggled |
| StateSteps.WriteEntry | hidapi/state.go:293-338 | writes the specification new field and counts for a routed entry |
| StateSteps.SetEntry | hidapi/state.go:296-332 | the activation branch writes the specification new field and counts |
| StateSteps.ValueEntry | hidapi/state.go:333-337 | the delta and value branches write the specification new field |
| StateSteps.ApplyEntry | hidapi/state.go:261-338 | one pass of the event loop is the specification step |
| StateSteps.ApplyEntries | hidapi/state.go:261-339 | the event loop is the specification run of steps over all entries |
| ReportStates.InitialSound | hidapi/state.go:50-152 | the initial tables, zero reports and empty counts of a supported descriptor form a sound state |
| ReportStates.InitializeStates | hidapi/state.go:70-133 | the loop over the reports builds the specification tables, zero reports and empty counts |
| ReportStates.AppliedStores | hidapi/state.go:170-226 | after an applied report the store stays well shaped, other reports are unchanged, and the decoded report is stored with relative fields stripped and every absolute field as decoded |
| ReportStates.AppliedDecoded | hidapi/state.go:176-226 | a decoded report with the right field count yields the events of its fields compared with the stored report, and stores the report stripped |
| ReportStates.AppliedOtherwise | hidapi/state.go:171-180 | a decode that panics panics; one that fails gives no event; a field-count mismatch gives an empty event and stores nothing |
| ReportStates.AppliedSound | hidapi/state.go:221-223 | storing an applied report keeps the state sound |
| ReportStates.ClearField | hidapi/state.go:355 | zeroes the field in place |
| ReportStates.StripRelativeValues | hidapi/state.go:352-359 | the loop gives the specification stripped report |
| ReportStates.AddValueEvents | hidapi/state.go:199-217 | the event's entries become the specification entries of the value item's usages |
| ReportStates.AddValueEvent | hidapi/state.go:203-215 | adds the usage's value event, if it has one, and changes nothing else |
| ReportStates.AddFieldEvents | hidapi/state.go:186-218 | the event's entries become the specification entries of one field |
| ReportStates.ReportFieldEvents | hidapi/state.go:185-219 | a fresh event holding the specification entries of all fields of the report |
| ReportStates.ApplyReportTo | hidapi/state.go:170-226 | the outcome, event and store, is the specification Applied |
| ReportStates.StoreWork | hidapi/state.go:341-349 | stores the touched reports stripped and returns their encodings in the order they were first touched |
| ReportStates.EventSound | hidapi/state.go:247-349 | applying any event to a sound state and storing the touched reports leaves a sound state |
| ReportStates.ReportState.constructor | hidapi/state.go:50-68 | a new state has zero reports for every report ID of the descriptor, empty counts and the sorted tables |
| ReportStates.ReportState.ApplyReport | hidapi/state.go:170-226 | the result and the new store are the specification Applied of the old store; the press counts do not change |
| ReportStates.ReportState.ApplyEvent | hidapi/state.go:247-350 | the new store, counts and encodings are the specification run of the event's entries over the old state |
| ReportStates.ReportState.GetReport | hidapi/state.go:237-245 | an unknown report ID is an error; otherwise the bytes of EncodeReport of the stored report |
| Commands.ZeroPad | hidapi/hiddesc/commands.go:17-33 | padding keeps the payload as the prefix and reaches the wanted length |
| Commands.ZeroPadValue | hidapi/hiddesc/commands.go:17-34 | zero-padding does not change the little-endian value |
| Commands.ToUint16 | hidapi/hiddesc/commands.go:10-21 | succeeds exactly for 1 or 2 bytes, with their little-endian value; never panics |
| Commands.ToUint32 | hidapi/hiddesc/commands.go:23-35 | succeeds exactly for 1 to 4 bytes, with their little-endian value; never panics |
| Commands.ToInt32 | hidapi/hiddesc/commands.go:37-56 | succeeds exactly for 1, 2 or 4 bytes, with their value sign-extended from that width |
| Commands.ToInt32RoundTrip | hidapi/hiddesc/commands.go:37-56 | every value that fits in n ∈ {1, 2, 4} signed bytes is read back from its n-byte two's-complement form |
| Commands.CmdData | hidapi/hiddesc/commands.go:58-125 | Input, Output and Feature succeed exactly with an open collection and a 1-byte payload; they append one data item built from the global and local state with that flag byte, reset the local state and change nothing else |
| Commands.CmdCollection | hidapi/hiddesc/commands.go:127-143 | a payload other than 1 byte is an error; with no pending usage it panics (usage[0] on an empty list); otherwise the open collection, if any, is pushed and a new empty one with the type, usage page and first usage is opened, and the local state is reset |
| Commands.CmdEndCollection | hidapi/hiddesc/commands.go:145-167 | succeeds exactly with an empty payload and an open collection; with an empty stack the collection joins the top-level list, otherwise it is appended to the popped parent, which is reopened; the local state is reset |
| Commands.CollectionThenEnd | hidapi/hiddesc/commands.go:127-167 | a nested Collection immediately ended adds one empty child collection to the open one and restores everything else |
| Commands.TopLevelCollectionThenEnd | hidapi/hiddesc/commands.go:127-167 | a top-level Collection immediately ended appends one empty collection to the top-level list |
| Commands.CmdGlobal | hidapi/hiddesc/commands.go:169-273 | a global item changes only the global state, and never panics |
| Commands.UsagePageValue | hidapi/hiddesc/commands.go:169-177 | Usage Page sets the page to the 1- or 2-byte payload's value and rejects longer payloads |
| Commands.LogicalMinimumValue | hidapi/hiddesc/commands.go:179-186 | Logical Minimum stores the sign-extended payload |
| Commands.ReportIDValue | hidapi/hiddesc/commands.go:251-261 | Report ID keeps the low byte of the payload's value |
| Commands.CmdPush | hidapi/hiddesc/commands.go:275-278 | Push always succeeds and appends the current global state to the stack, changing nothing else |
| Commands.CmdPop | hidapi/hiddesc/commands.go:280-287 | Pop succeeds exactly when the stack is non-empty, and then restores the top global state and drops it from the stack |
| Commands.PushThenPop | hidapi/hiddesc/commands.go:275-287 | Pop after Push restores the state as it was before the Push, whatever global changes came between |
| Commands.CmdUsage | hidapi/hiddesc/commands.go:289-296 | Usage succeeds exactly for 1- or 2-byte payloads and appends the value to the local usage list |
| Commands.CmdDelimiter | hidapi/hiddesc/commands.go:298-300 | Delimiter always fails |
| Commands.CmdLocal | hidapi/hiddesc/commands.go:302-366 | Usage Minimum and Maximum take 1 or 2 bytes, the designator and string items exactly 1; each changes only its local field and never the usage list |
| Commands.ExecuteKeepsInv | hidapi/hiddesc/commands.go:82-366 | every handler that succeeds keeps the parser state's invariant (every collection it holds is well formed) |
| DescriptorDecoder.Step | pkg/usbhid/hiddesc/decoder.go:128-168 | one byte of the state machine keeps the pending payload shorter than its declared length |
| DescriptorDecoder.ParseAll | pkg/usbhid/hiddesc/decoder.go:128-171 | the byte loop keeps the pending payload shorter than its declared length |
| DescriptorDecoder.Consumed | pkg/usbhid/hiddesc/decoder.go:129-132 | the loop consumes at most the bytes it is given, and all of them when it succeeds |
| DescriptorDecoder.ParseAllAppend | pkg/usbhid/hiddesc/decoder.go:128-171 | parsing a + b is parsing a and then b from the state a leaves, so a chunk boundary never changes the outcome |
| DescriptorDecoder.UnknownTagFails | pkg/usbhid/hiddesc/decoder.go:135-142 | a tag byte whose prefix has no handler is an error |
| DescriptorDecoder.TagStartsItem | pkg/usbhid/hiddesc/decoder.go:135-168 | a tag byte with size code 0 runs its handler on the empty payload at once and resets the command state; otherwise it records the prefix and a payload length of 1, 2 or 4 |
| DescriptorDecoder.PayloadCompletesItem | pkg/usbhid/hiddesc/decoder.go:154-168 | a payload byte runs the handler exactly when the payload reaches its declared length, then resets the command state; before that it is only collected |
| DescriptorDecoder.ParseAllKeepsInv | pkg/usbhid/hiddesc/decoder.go:128-171 | parsing any bytes keeps the parser state's invariant |
| DescriptorDecoder.DecodedWellFormed | pkg/usbhid/hiddesc/decoder.go:128-177 | every collection a successful parse produces is well formed |
| DescriptorDecoder.Read | pkg/usbhid/hiddesc/decoder.go:185 | a read returns at most the buffer's capacity and consumes the reader's input |
| DescriptorDecoder.DecodeLoop | pkg/usbhid/hiddesc/decoder.go:184-200 | the read loop never grows the buffer |
| DescriptorDecoder.StoredErrorRepeats | pkg/usbhid/hiddesc/decoder.go:180-182 | once a read error is stored, Decode returns it again without reading |
| DescriptorDecoder.ReadFailureIsStored | pkg/usbhid/hiddesc/decoder.go:184-199 | a read that delivers bytes and an error parses the bytes, then stores the error and returns it; the next Decode returns the same error |
| DescriptorDecoder.EndOfInputGivesDescriptor | pkg/usbhid/hiddesc/decoder.go:193-194 | at end of input Decode returns the closed top-level collections |
| DescriptorDecoder.Decoder.constructor | pkg/usbhid/hiddesc/decoder.go:31-43 | a new decoder has its reader, no stored error, the full buffer and a fresh parser state |
| DescriptorDecoder.Decoder.ParseBytes | pkg/usbhid/hiddesc/decoder.go:128-171 | the in-place loop over a chunk fails exactly when the specification parse fails, with the same message, and otherwise leaves the parsed state; the buffer shrinks by the bytes consumed |
| DescriptorDecoder.Decoder.Decode | pkg/usbhid/hiddesc/decoder.go:179-201 | the result, remaining input, buffer and stored error are those of DecodeAsWritten |
| DescriptorDecoder.Delivered | pkg/usbhid/hiddesc/decoder.go:184-199 | the bytes the reader delivers up to end of input, or its error; never a panic |
| DescriptorDecoder.DecodeBytesIgnoresSplit | pkg/usbhid/hiddesc/decoder.go:184-199 | with a buffer that does not shrink, how the reader splits its bytes does not change the result |
| DescriptorDecoder.DecodeBytesReadsAll | pkg/usbhid/hiddesc/decoder.go:184-199 | with a full buffer the five-byte descriptor Usage 6, Collection 1, End Collection decodes to its one collection |
| DescriptorDecoder.DecodeTruncatesAtBuffer | pkg/usbhid/hiddesc/decoder.go:129-185 | as written, a four-byte buffer reads only the first four bytes, so the same descriptor decodes to no collection and the End Collection byte is never seen |
| DescriptorDecoder.OpenCollectionBytes | pkg/usbhid/hiddesc/decoder.go:128-171 | the first four bytes of that descriptor leave the collection open, with no top-level collection |
| DescriptorDecoder.ZeroByteFailureIgnored | pkg/usbhid/hiddesc/decoder.go:193-194 | a read of zero bytes with an error returns the descriptor so far and stores nothing, where reading all input first reports the error |
| DescriptorEncoder.SizeCode | pkg/usbhid/hiddesc/encoder.go:197-248 | the size code of a 0-, 1-, 2- or 4-byte payload is the code the decoder maps back to that length |
| DescriptorEncoder.ShortItem | pkg/usbhid/hiddesc/encoder.go:197-248 | a short item is the tag byte followed by the payload |
| DescriptorEncoder.Tag8 | pkg/usbhid/hiddesc/encoder.go:202-205 | a one-byte payload holding the value |
| DescriptorEncoder.Tag16 | pkg/usbhid/hiddesc/encoder.go:207-214 | one payload byte exactly when the value is below 0x100, else two; the payload's little-endian value is the value |
| DescriptorEncoder.Tag32 | pkg/usbhid/hiddesc/encoder.go:237-248 | the shortest of 1, 2 or 4 bytes holding the value, read back little-endian as the value |
| DescriptorEncoder.SignedWidth | pkg/usbhid/hiddesc/encoder.go:216-235 | the smallest of 1, 2 or 4 bytes whose signed range holds the value |
| DescriptorEncoder.TagI32 | pkg/usbhid/hiddesc/encoder.go:216-235 | the shortest two's-complement payload, which the decoder's toInt32 reads back as the same value |
| DescriptorEncoder.TagI32AsWritten | pkg/usbhid/hiddesc/encoder.go:216-235 | as written, the payload is cut to 1 or 2 bytes whenever the dropped bytes equal the sign pad, without checking that the kept top bit agrees with the sign; the item is still a short item of 1, 2 or 4 bytes |
| DescriptorEncoder.TagI32AsWrittenLosesSign | pkg/usbhid/hiddesc/encoder.go:216-235 | as written, Logical Maximum 255 is emitted as the one byte 0xFF, which toInt32 reads as −1 |
| DescriptorEncoder.TagI32KeepsSign | pkg/usbhid/hiddesc/encoder.go:216-235 | the corrected encoding emits Logical Maximum 255 as 0xFF 0x00 |
| DescriptorEncoder.EmitUsagePage | pkg/usbhid/hiddesc/encoder.go:163-172 | Usage Page is emitted exactly when it differs from the last emitted page, which is then recorded |
| DescriptorEncoder.EmitUsageID | pkg/usbhid/hiddesc/encoder.go:183-195 | a usage is emitted unless it is 0 or repeats the last emitted one; an emitted usage is recorded |
| DescriptorEncoder.EmitUsagesCount | pkg/usbhid/hiddesc/encoder.go:183-195 | for non-zero IDs with no two neighbours equal, every ID is emitted and the last is recorded |
| DescriptorEncoder.EmitDataItem | pkg/usbhid/hiddesc/encoder.go:60-159 | after a data item the recorded globals are the item's and the local state is empty |
| DescriptorEncoder.EmitUsageRange | pkg/usbhid/hiddesc/encoder.go:67-76 | records the usage range and changes no global |
| DescriptorEncoder.EmitDesignators | pkg/usbhid/hiddesc/encoder.go:77-92 | records the item's designator index, minimum and maximum and changes nothing else |
| DescriptorEncoder.EmitGlobal32 | pkg/usbhid/hiddesc/encoder.go:114-143 | a global is emitted exactly when it differs from the last emitted value, and the value is recorded |
| DescriptorEncoder.EmitReportID | pkg/usbhid/hiddesc/encoder.go:126-131 | Report ID is emitted exactly when it differs from the last emitted one, and is recorded |
| DescriptorEncoder.EmitCollection | pkg/usbhid/hiddesc/encoder.go:33-54 | after a collection the local state is empty |
| DescriptorEncoder.CollectionFraming | pkg/usbhid/hiddesc/encoder.go:33-54 | a collection's bytes are its usage page and usage, then Collection with its type, its items, and End Collection last |
| DescriptorEncoder.Encoder.constructor | pkg/usbhid/hiddesc/encoder.go:15-22 | a new encoder has the descriptor, no output and the initial state |
| DescriptorEncoder.Encoder.Encode | pkg/usbhid/hiddesc/encoder.go:24-31 | appends the bytes of every top-level collection in order and leaves the specification state |
| DescriptorEncoder.Encoder.EncodeCollection | pkg/usbhid/hiddesc/encoder.go:33-54 | appends the specification bytes of the collection |
| DescriptorEncoder.Encoder.EncodeMainItem | pkg/usbhid/hiddesc/encoder.go:56-161 | appends the specification bytes of a data item or nested collection |
| DescriptorEncoder.Encoder.EncodeDataItem | pkg/usbhid/hiddesc/encoder.go:60-159 | appends the changed globals, the usages, and the main item with its flags, then resets the local state |
| DescriptorEncoder.Encoder.EncodeUsagePage | pkg/usbhid/hiddesc/encoder.go:163-172 | appends the specification Usage Page bytes |
| DescriptorEncoder.Encoder.EncodeUsageID | pkg/usbhid/hiddesc/encoder.go:183-195 | appends the specification Usage bytes |
| DescriptorEncoder.EmitUsages | pkg/usbhid/hiddesc/encoder.go:174-181 | encoding a usage list changes only the recorded usage |
| DescriptorEncoder.EmitExtents | pkg/usbhid/hiddesc/encoder.go:94-113 | records the item's logical and physical extents and changes nothing else |
| DescriptorEncoder.EmitLogical | pkg/usbhid/hiddesc/encoder.go:94-103 | records the item's logical minimum and maximum and changes nothing else |
| DescriptorEncoder.EmitPhysical | pkg/usbhid/hiddesc/encoder.go:104-113 | records the item's physical minimum and maximum and changes nothing else |
| DescriptorEncoder.EmitReportFields | pkg/usbhid/hiddesc/encoder.go:114-143 | records the item's unit exponent, unit, report ID, count and size and changes nothing else |
| DescriptorEncoder.EmitUnits | pkg/usbhid/hiddesc/encoder.go:114-125 | records the item's unit exponent and unit |
| DescriptorEncoder.EmitReportShape | pkg/usbhid/hiddesc/encoder.go:126-143 | records the item's report ID, count and size |
| DescriptorEncoder.EmitUnitExponent | pkg/usbhid/hiddesc/encoder.go:114-119 | records the item's unit exponent |
| DescriptorEncoder.EmitUnit | pkg/usbhid/hiddesc/encoder.go:120-125 | records the item's unit |
| DescriptorEncoder.EmitReportCount | pkg/usbhid/hiddesc/encoder.go:132-137 | records the item's report count |
| DescriptorEncoder.EmitReportSize | pkg/usbhid/hiddesc/encoder.go:138-143 | records the item's report size |
| DescriptorEncoder.Encoder.Write | pkg/usbhid/hiddesc/encoder.go:197-248 | appends the bytes to the output and changes no encoder state |
| DescriptorEncoder.Encoder.EncodeUsages | pkg/usbhid/hiddesc/encoder.go:174-181 | appends the specification bytes of every usage in turn |
| DescriptorEncoder.Encoder.EncodeUsageRange | pkg/usbhid/hiddesc/encoder.go:67-76 | appends Usage Minimum and Maximum when either differs from the recorded range |
| DescriptorEncoder.Encoder.EncodeDesignators | pkg/usbhid/hiddesc/encoder.go:77-92 | appends the designator items that differ from the recorded ones |
| DescriptorEncoder.Encoder.EncodeExtents | pkg/usbhid/hiddesc/encoder.go:94-113 | appends the logical and physical pairs that differ from the recorded ones |
| DescriptorEncoder.Encoder.EncodeReportFields | pkg/usbhid/hiddesc/encoder.go:114-143 | appends the unit and report globals that differ from the recorded ones |
| DescriptorEncoder.Encoder.EncodeUnits | pkg/usbhid/hiddesc/encoder.go:114-125 | appends Unit Exponent and Unit when they differ |
| DescriptorEncoder.Encoder.EncodeReportShape | pkg/usbhid/hiddesc/encoder.go:126-143 | appends Report ID, Count and Size when they differ |
| Keyboard.Zeros | hidapi/hidusage/keyboard.go:85 | the empty key bitmap has the requested length and every byte is zero |
| Keyboard.HeldAt | hidapi/hidusage/keyboard.go:36-40 | key `8*byte+bit` is held exactly when bit `bit` of byte `byte` is set, and every such key is below 240 |
| Keyboard.IsPressed | hidapi/hidusage/keyboard.go:36-40 | indexing the 30-byte bitmap panics exactly for keys 240 and above; otherwise the answer is whether the key's bit is set |
| Keyboard.PressedKeys | hidapi/hidusage/keyboard.go:42-52 | the list holds exactly the held keys, in strictly ascending order |
| Keyboard.NewKeyboardDriver | hidapi/hidusage/keyboard.go:59-82 | succeeds exactly when every item is on the Keyboard/Keypad page and every non-constant item starts on a byte boundary; on success the start bytes are those of the running bit offset (-1 for constant items); it never panics |
| Keyboard.ReadsDisjoint | hidapi/hidusage/keyboard.go:65-80 | in a driver the constructor accepted, the byte ranges of two non-constant items do not overlap and follow descriptor order |
| Keyboard.OffsetGrows | hidapi/hidusage/keyboard.go:71-79 | the running bit offset never decreases along the items |
| Keyboard.PressOne | hidapi/hidusage/keyboard.go:111-113 | setting the bit of array code `b` adds exactly key `b` to the held keys and changes no other key |
| Keyboard.ListsLast | hidapi/hidusage/keyboard.go:107-110 | a key is listed by an array buffer with one more byte exactly when the shorter buffer lists it or the new byte is that nonzero key |
| Keyboard.SetKeyBitsHeld | hidapi/hidusage/keyboard.go:106-114 | after an array item is applied, a key is held exactly when it was held before or some nonzero byte of the data names it |
| Keyboard.PanicSticks | hidapi/hidusage/keyboard.go:89-116 | once one item panics, parsing the remaining items ends in the same panic |
| Keyboard.Parse | hidapi/hidusage/keyboard.go:84-119 | the loop over the items yields the item-by-item fold: constant items are skipped, variable items copy their nonzero bytes, array items set their keys' bits, and slicing past the report panics |
| Keyboard.ParseInto | hidapi/hidusage/keyboard.go:89-115 | one item applied to the key array in place gives the same bitmap or the same panic as the pure step |
| Keyboard.CopyInto | hidapi/hidusage/keyboard.go:98-105 | copying a variable item's nonzero bytes from its usage-minimum byte succeeds exactly when they fit in 30 bytes and leaves the bitmap the specification gives |
| Keyboard.PressInto | hidapi/hidusage/keyboard.go:106-114 | setting an array item's key bits succeeds exactly when every code is below 240 and leaves the bitmap the specification gives |
| Chars.GetAsciiCharKeyAsWritten | components/actions/char.go:90-108 | the lookup as written only succeeds for printable ASCII (its digit branch is wrong; see Findings) |
| Chars.DigitKey | components/actions/char.go:102-103 | the digits map into the range Key1..Key0 of the Keyboard/Keypad page |
| Chars.GetAsciiCharKey | components/actions/char.go:90-108 | the corrected lookup only succeeds for printable ASCII |
| Chars.AsWrittenDiffersOnlyOnDigits | components/actions/char.go:102-103 | the lookup as written and the corrected one agree on every character except the digits 1 to 9 |
| Chars.DigitsAsWrittenCollide | components/actions/char.go:102-103 | as written, '1' is typed with the Enter key and '9' with the same key as ']' |
| Chars.CharKeyRoundTrip | components/actions/char.go:49-108 | the lookup succeeds exactly for printable ASCII, and typing the key it returns (with Shift when it says so) on a US layout produces the character again |
| Chars.CharKeyInjective | components/actions/char.go:90-108 | two distinct printable characters never map to the same key and shift pair |
| Chars.LetterKeys | components/actions/char.go:98-101 | lower-case letters map to KeyA onwards without Shift and upper-case letters to the same keys with Shift |
| Chars.TablesFirst | components/actions/char.go:94-97 | the unshifted table wins over the shifted one, which wins over the letter and digit ranges |
| Chars.ShiftedSharesBaseKey | components/actions/char.go:65-88 | every key of the shifted table is also the unshifted key of some printable character |
| Chars.AsWrittenKey | components/actions/char.go:90-108 | as written, every printable character gets a key, that key types the character unless it is a digit from 1 to 9, and a digit d gets Key0 + d |
| Chars.ActionOf | components/actions/char.go:36-46 | the action presses the looked-up key on the Keyboard/Keypad page, held with the left or right Shift exactly when the lookup asks for Shift |
| Chars.NewCharActionAsWritten | components/actions/char.go:23-47 | as written, an action is built exactly for a single printable character; it types that character unless the character is a digit from 1 to 9, a digit d presses Key0 + d without Shift, and the Shift modifier is the left or right one as requested |
| Chars.NewCharAction | components/actions/char.go:23-47 | with the corrected lookup, an action is built exactly for a single printable character; its usage is on the Keyboard/Keypad page and types that character, and when Shift is needed the modifier is the left or right Shift as requested |
| Chars.CharActionDiffersOnlyOnDigits | components/actions/char.go:31-47 | the handler as written and the corrected one build the same action for every argument except a single digit from 1 to 9 |
| MuxNode.FirstIndex | components/nodes/mux.go:184-185 | the index found holds the route and no earlier entry does |
| MuxNode.RemoveFirst | components/nodes/mux.go:184-196 | removing a listed route takes out exactly one occurrence of it; an unlisted route leaves the list unchanged |
| MuxNode.UnsetAt | components/nodes/mux.go:184-196 | unsetting the route at its first index splices it out, and the current route falls back to the new top of the list (or the fallback) only when the removed route was current |
| MuxNode.SignalsTrack | components/nodes/mux.go:172-198 | reset, set and unset each keep the current route equal to the top of the route list, or to the fallback when the list is empty |
| MuxNode.SwitchRestores | components/nodes/mux.go:177-197 | activating a switch to a fresh route and deactivating it again restores the earlier route state exactly |
| MuxNode.UnsetBelowTop | components/nodes/mux.go:183-197 | unsetting a route that is not on top removes it and keeps the current route |
| MuxNode.NestedSwitchesRestore | components/nodes/mux.go:177-197 | two nested switches released in either order restore the earlier route state |
| MuxNode.LookupCons | hidapi/event.go:40-47 | looking a usage up in a duplicate-free event list finds the head or searches the tail, and the head's usage does not occur again |
| MuxNode.DeactivatedSent | components/nodes/mux.go:212-217 | adding a deactivation for a usage to a route's pending event records exactly that pair and keeps each pending event duplicate-free |
| MuxNode.RouteAllUsage | components/nodes/mux.go:205-233 | after routing an event, a pressed usage is bound to the current route, a released usage is unbound, and a deactivation is sent to the usage's earlier route (and a release suppressed downstream) exactly when that route is not the current one |
| MuxNode.NeverSentToCurrent | components/nodes/mux.go:211-222 | no deactivation built from one event is addressed to the current route |
| MuxNode.Mux.constructor | components/nodes/mux.go:111-127 | a new mux has its downstreams as routes, the last of them as its fallback (which is one of the routes) and no bindings; the route state Run keeps is set again by Start |
| MuxNode.Mux.ValidateNode | components/nodes/mux.go:148-160 | succeeds exactly when the node is one of the mux's downstreams |
| MuxNode.Mux.Configure | components/nodes/mux.go:133-146 | the fallback, defaulting to the current one, is accepted exactly when the configuration decodes and names a downstream; only then does it replace the fallback, so the fallback stays a downstream; the route state is left for Start to reset |
| MuxNode.Mux.Start | components/nodes/mux.go:162-164 | when Run starts, the route list is empty and the current route is the fallback as configured, so the current route tracks the list; the routes, the fallback and the bindings are unchanged |
| MuxNode.Mux.Reset | components/nodes/mux.go:173-176 | the route list is emptied and the current route becomes the fallback; the signal always counts as a change |
| MuxNode.Mux.Set | components/nodes/mux.go:177-182 | a route other than the current one is pushed and becomes current, and only that counts as a change |
| MuxNode.Mux.Unset | components/nodes/mux.go:183-197 | removes the route's first occurrence from the list, re-selecting the current route when it was the removed one; it is a change exactly when the route was listed |
| MuxNode.Mux.RouteEvent | components/nodes/mux.go:202-243 | the bindings, the deactivation events per route and the suppressed releases are those of the routing fold over the event's usages, and the event goes to the current route exactly when something is left in it |
| BindNode.NewUsageActivation | components/nodes/bind.go:162-167 | a new trigger starts with no counters and is well counted |
| BindNode.Check | components/nodes/bind.go:174-198 | the counters, the result and the suppressed event are those of the specification: held exactly when every chord usage has a positive counter, and the chord's usages are suppressed while it is held or on its release edge |
| BindNode.CountEntry | components/nodes/bind.go:177-188 | one usage's counter rises on a press, falls on a release and is dropped when it reaches zero; absent and unset entries change nothing |
| BindNode.CountAllWellCounted | components/nodes/bind.go:176-189 | counting keeps every counter positive and keyed by a chord usage |
| BindNode.CountAllCounter | components/nodes/bind.go:176-189 | after counting, each chord usage's counter is its previous one moved by that usage's entry in the event; other counters are untouched |
| BindNode.ChordSetSize | components/nodes/bind.go:175-190 | a chord's usage set is no larger than its list, and equally large exactly when the list has no duplicates |
| BindNode.SubsetSize | components/nodes/bind.go:190 | a subset is no larger than its superset, and equal when the sizes agree |
| BindNode.HeldIff | components/nodes/bind.go:190 | the counter map is as large as the chord exactly when the chord has no duplicate usages and every usage is held |
| BindNode.TriggerItemEdges | components/nodes/bind.go:143-154 | a mapping's handler runs exactly on the rising edge and its finalizer exactly on the falling edge when it has one; at most one call per mapping and event, and a finalizer is only kept while triggered |
| BindNode.TriggerAllConsistent | components/nodes/bind.go:140-156 | triggering keeps the number of mappings and leaves each one consistent |
| BindNode.ConfiguredItems | components/nodes/bind.go:72-86 | at most one item per entry, all entries on success, and every new item is untriggered with empty counters |
| BindNode.ProgressStart | components/nodes/bind.go:141-142 | before the first mapping, the loop state agrees with the whole fold |
| BindNode.ProgressEnd | components/nodes/bind.go:155 | after the last mapping, the loop state is the fold's result |
| BindNode.ProgressStep | components/nodes/bind.go:142-154 | handling one mapping moves the loop state one step along the fold |
| BindNode.TriggerOne | components/nodes/bind.go:143-154 | one mapping handled against the event in place gives the mapping, event and call of the pure step |
| BindNode.ConfiguringStart | components/nodes/bind.go:72 | before the first entry, the configuration loop agrees with the whole fold |
| BindNode.ConfiguringEnd | components/nodes/bind.go:86 | after the last entry, the items added are the fold's result and there is no error |
| BindNode.ConfiguringStops | components/nodes/bind.go:73-80 | an entry whose usages do not parse, or whose handler cannot be built, ends the fold with that error and the items added so far |
| BindNode.ConfiguringStep | components/nodes/bind.go:81-84 | a good entry appends one untriggered mapping and moves the loop one step along the fold |
| BindNode.BuildMappings | components/nodes/bind.go:72-86 | the loop appends the items and stops with the error that the configuration fold gives |
| BindNode.Bind.constructor | components/nodes/bind.go:27-32 | a new bind node has no mappings and no interrupt matcher |
| BindNode.Bind.TriggerMappings | components/nodes/bind.go:140-156 | the mappings, the event and the calls made are those of the trigger fold over the mappings in order |
| BindNode.Bind.ShouldInterrupt | components/nodes/bind.go:123-138 | with a matcher, answers whether any usage that is not a release matches it; without one (a failed configuration), calling the nil matcher panics exactly when such a usage exists, and otherwise the answer is false |
| BindNode.Bind.Configure | components/nodes/bind.go:53-87 | an undecodable configuration changes nothing; the interrupt patterns (by default kb.*, con.*, btn.*, dsk.Wheel) set a matcher exactly when they all compile; only then are the configured mappings appended, stopping at the first failing entry with its error |
| FlowDsl.FirstComplaintValid | flowapi/flowdsl/dsl.go:21-54 | the scan of the parameters finds no complaint exactly when every default fits its parameter's type and no required parameter follows one with a default |
| FlowDsl.ParseDeclaration | flowapi/flowdsl/dsl.go:16-56 | a parsed declaration is accepted unchanged exactly when its parameters are valid; otherwise the error is the first complaint in parameter order |
| FlowDsl.RequiredPrefix | flowapi/flowdsl/dsl.go:21-25 | in a valid declaration every parameter before a required one is required too |
| FlowDsl.DefaultKinds | flowapi/flowdsl/dsl.go:28-52 | a `null` default fits exactly the Action, Signal, Usage and any types, and a duration default exactly the Duration and any types |
| FlowArgs.NameMap | flowapi/arguments.go:18-21 | every name maps to a parameter of that name, every parameter's name is mapped, and a repeated name maps to its last parameter |
| FlowArgs.RequiredCount | flowapi/arguments.go:22-27 | there are no more required parameters than parameters |
| FlowArgs.RequiredAreFirst | flowapi/arguments.go:22-27 | in a valid declaration the required parameters are exactly the first RequiredCount ones |
| FlowArgs.KindCheck | flowapi/arguments.go:40-69 | one required argument passes exactly when it has its parameter's kind, and reading a literal-typed argument that carries no value dereferences nil and panics |
| FlowArgs.CheckKindsFits | flowapi/arguments.go:36-70 | the kind scan succeeds exactly when every required parameter has an argument of its kind |
| FlowArgs.CountError | flowapi/arguments.go:28-34 | the count check passes exactly when the number of arguments lies between the required count and the parameter count |
| FlowArgs.BuildNameMap | flowapi/arguments.go:18-21 | the loop builds the name map of the specification |
| FlowArgs.CountRequired | flowapi/arguments.go:22-27 | the loop counts the parameters without a default |
| FlowArgs.CheckArguments | flowapi/arguments.go:36-70 | the loop gives the result of the kind scan, panic included |
| FlowArgs.NewArguments | flowapi/arguments.go:17-76 | a count error comes first, then the kind scan's error or panic, and otherwise the arguments are wrapped with their name map |
| FlowArgs.WrongKindPanics | flowapi/arguments.go:42-44 | a string parameter given a duration argument makes the kind check dereference a nil value |
| FlowArgs.MissingRequiredPanics | flowapi/arguments.go:36-40 | when a required parameter follows an optional one, a call that passes the count check still indexes past the arguments |
| FlowArgs.ValidDeclarationHasRequiredArguments | flowapi/arguments.go:28-40 | for a declaration that parses, passing the count check puts an argument at every required position |
| FlowArgs.CheckKindsSafelyFits | flowapi/arguments.go:36-70 | the guarded kind scan never panics and succeeds exactly when the scan as written succeeds |
| FlowArgs.NewArgumentsCheckedSpec | flowapi/arguments.go:17-76 | the guarded constructor never panics, succeeds exactly when the counts fit and every required argument has its kind, and then wraps the arguments with their name map |
| FlowArgs.Int64Of | flowapi/arguments.go:160-164 | the conversion stays within the 64-bit range and agrees with a successful decimal parse |
| FlowArgs.Arguments.ArgumentOrNil | flowapi/arguments.go:88-104 | an undeclared name has no argument |
| FlowArgs.Arguments.ArgumentOrEmpty | flowapi/arguments.go:78-86 | a missing argument reads as an empty value, and a present one as itself |
| FlowArgs.NewArgumentsChecked | flowapi/arguments.go:28-75 | the constructor with its kind scan guarded never panics, fails whenever the argument count lies outside the required count and the parameter count, and on success has passed the kind scan and wraps the arguments with their name map |
| FlowArgs.Arguments.String | flowapi/arguments.go:106-112 | a string literal held by the argument is returned, and anything other than "" comes from such a literal |
| FlowArgs.Arguments.Number | flowapi/arguments.go:114-120 | a numeral held by the argument is returned, and anything other than "0" comes from such a numeral |
| FlowArgs.Arguments.Duration | flowapi/arguments.go:122-128 | a duration held by the argument is returned, and any non-zero result comes from such a duration |
| FlowArgs.Arguments.Usages | flowapi/arguments.go:130-136 | the usages of a chord held by the argument are returned, and a non-empty result comes from such a chord |
| FlowArgs.Arguments.Boolean | flowapi/arguments.go:172-178 | a boolean literal held by the argument is returned, and true only comes from a literal true |
| FlowArgs.Arguments.StatementOf | flowapi/arguments.go:138-144 | the statement carries the argument's expression and usage |
| FlowArgs.Arguments.StatementOrNil | flowapi/arguments.go:146-158 | there is a statement exactly when the argument exists and holds an expression or a usage, and then it is the argument's statement |
| FlowArgs.Arguments.Int | flowapi/arguments.go:160-164 | the integer read stays within the 64-bit range |
| FlowArgs.BuiltWellFormed | flowapi/arguments.go:71-75 | arguments built with the name map index within their parameters |
| FlowArgs.ArgumentByName | flowapi/arguments.go:88-104 | a name whose parameter is the last of that name reads its positional argument, else the parameter's default, else nothing |
| FlowArgs.AbsentGetters | flowapi/arguments.go:106-178 | every getter of an undeclared name returns its type's zero value |
| FlowArgs.RequiredFits | flowapi/arguments.go:36-70 | after a successful kind scan, every required parameter has an argument of its kind |
| FlowArgs.TypedGetters | flowapi/arguments.go:106-178 | after a successful scan, each getter returns the literal the required argument carries for its declared type |
| FlowArgs.IntOfDecimal | flowapi/arguments.go:160-164 | a number written as a decimal within range reads back as that integer, negative ones included |
| FlowGraph.Repeat | internal/flowsvc/graph.go:55-58 | the list holds the same id the given number of times |
| FlowGraph.CountIn | internal/flowsvc/graph.go:55-58 | an id occurs a positive number of times exactly when it is in the list |
| FlowGraph.AddEdgesDown | internal/flowsvc/graph.go:55-58 | adding a node appends its targets to its own downstream list and changes no other downstream list |
| FlowGraph.AddEdgesUp | internal/flowsvc/graph.go:55-58 | adding a node appends it to each target's upstream list once per edge to that target |
| FlowGraph.AddEdgesLinked | internal/flowsvc/graph.go:52-60 | adding a node keeps every downstream edge mirrored by an upstream edge and back |
| FlowGraph.EntryNodes | internal/flowsvc/graph.go:62-70 | there are no more entry nodes than nodes |
| FlowGraph.EntryNodesMembers | internal/flowsvc/graph.go:62-70 | a node is an entry node exactly when it was added and has no upstream edge |
| FlowGraph.KeysShrink | internal/flowsvc/graph.go:140 | marking an unvisited node shrinks the set of unvisited nodes, so the search ends |
| FlowGraph.CycleFromWalkSound | internal/flowsvc/graph.go:137-149 | when the search reports a cycle, a walk along downstream edges from the current path reaches a node already on it |
| FlowGraph.CycleFromWalkComplete | internal/flowsvc/graph.go:137-149 | when such a walk exists, the search reports a cycle |
| FlowGraph.CycleFromEntry | internal/flowsvc/graph.go:137-149 | from an entry node with an empty path, the search reports a cycle exactly when some walk repeats a node |
| FlowGraph.Visited.constructor | internal/flowsvc/graph.go:127 | a fresh visited set is empty |
| FlowGraph.UpstreamError | internal/flowsvc/graph.go:86-103 | the upstream count is accepted exactly when it fits the declared arity: none, exactly one, or at least one |
| FlowGraph.DownstreamError | internal/flowsvc/graph.go:104-121 | the downstream count is accepted exactly when it fits the declared arity |
| FlowGraph.NodeError | internal/flowsvc/graph.go:80-121 | a node is accepted exactly when its type is registered and both its link counts fit their arity |
| FlowGraph.ValidGraphEntries | internal/flowsvc/graph.go:72-135 | in a valid graph every node's type is registered, the entry nodes are exactly those declared without upstream, and no walk from an entry node repeats a node |
| FlowGraph.GraphRegistry.constructor | internal/flowsvc/graph.go:32-50 | a new registry has no node types, declarations, actions or signals |
| FlowGraph.GraphRegistry.RegisterAction | internal/flowsvc/graph.go:235-260 | fails on an unknown node or type, an undeclared action or a name already registered for the node, changing nothing; otherwise records the creator and the declaration under the node and name |
| FlowGraph.GraphRegistry.RegisterSignal | internal/flowsvc/graph.go:262-287 | the same for signals |
| FlowGraph.Declare | internal/flowsvc/graph.go:254-258 | after declaring, the node has the name |
| FlowGraph.RegisterError | internal/flowsvc/graph.go:235-250 | registration is refused exactly when the node or its type is unknown, the name is not declared by the type, or the node already has the name |
| FlowGraph.RegisteredNamesAreTaken | internal/flowsvc/graph.go:248-250 | registering a name makes the same name fail for that node and leaves every other node and name as it was |
| FlowGraph.ParseIdentifier | internal/flowsvc/graph.go:475-493 | parsing an identifier never panics |
| FlowGraph.ParseIdentifierFormats | internal/flowsvc/graph.go:475-493 | every identifier that parses formats back to the same text |
| FlowGraph.FormatIdentifierParses | internal/flowsvc/graph.go:475-493 | a dot-free name, with an optional dot-free node, formats to text that parses back to it (a plain name must not start with `$`) |
| FlowGraph.GraphBuilder.constructor | internal/flowsvc/graph.go:32-50 | a new builder has no nodes, edges or errors and uses the given registry |
| FlowGraph.GraphBuilder.AddNode | internal/flowsvc/graph.go:52-60 | appends the node, records its type and adds its edges in both directions; nothing else changes |
| FlowGraph.GraphBuilder.EntryNodeIDs | internal/flowsvc/graph.go:62-70 | returns the entry nodes of the specification, in insertion order |
| FlowGraph.GraphBuilder.ValidateCycles | internal/flowsvc/graph.go:137-149 | reports an error exactly when the search from the node with the current path finds a cycle, and on success leaves the visited set as it found it |
| FlowGraph.GraphBuilder.CheckNodes | internal/flowsvc/graph.go:80-122 | succeeds exactly when every node is accepted |
| FlowGraph.GraphBuilder.CheckCycles | internal/flowsvc/graph.go:128-132 | succeeds exactly when no entry node reaches a cycle |
| FlowGraph.GraphBuilder.Validate | internal/flowsvc/graph.go:72-135 | succeeds exactly when there are no recorded errors, there are nodes, every node is accepted, there is an entry node and no entry node reaches a cycle; an empty graph fails with "no nodes" |
| FlowGraph.ConfigureAsWritten | internal/flowsvc/graph.go:321-353 | a successful configure of a known node records the new configuration |
| FlowGraph.ConfigureRetryIsStale | internal/flowsvc/graph.go:331-347 | as written, a configuration whose node fails to configure is still recorded, so retrying the same configuration succeeds without reaching the node |
| FlowGraph.ConfigureCommittedKeepsSync | internal/flowsvc/graph.go:321-353 | recording a configuration only once it has been applied keeps the recorded and applied configurations equal, applies a new one, leaves everything unchanged on failure and reports the same errors as the code |
| FlowGraph.Graph.Configure | internal/flowsvc/graph.go:321-353 | the error and the new configuration state are those of the function as written |

## Left out

- The Python script caps_lock_test.py is a hardware latency benchmark. It busy-waits on a clock, polls an LED and writes a file, so it has no logic to model.
- Device and OS I/O, the flow bus, node runners, goroutines and channels are not modelled. A node's `Run` loop is modelled as one method per message it handles.
- ReportStates.ReportState: the mutex is not modelled, since the model is sequential. The rate-limit sleep at hidapi/state.go:306-311,325-330 is not modelled either, because it only delays.
- zap logging and `fmt.Println` are not modelled: the debug prints in Keyboard.Parse (hidapi/hidusage/keyboard.go:88,117), in Validate (internal/flowsvc/graph.go:91) and the Mux route log.
- DescriptorEncoder.Encoder: the writer never fails. Write errors from `e.w.Write` are not modelled.
- Error messages are modelled as strings. The `%v`/`%w` formatting of Go errors is only approximated.
- Bits: a `Bits` is a value, so Clone's "shares no bytes with the original" is not modelled. In-place updates are array methods proved against functions on sequences. The report state keeps its fields as values and stores them back after each in-place update, so aliasing of field buffers between reports is not modelled.
- Bits.Scanner.Next is modelled as written, with `bitSize mod 8` missing bits. Fields.ScanFields, Codec.Decode and the report state require items of whole bytes (`WholeSizes`, `WholeItems`). For those items the scanner as written is right (Bits.NextAgrees), so fields that are not byte-aligned are excluded by that precondition, not modelled.
- Bits.Scanner.Next and Keyboard.Parse: a Go slice is modelled by its length, as if its capacity were its length. The two-index slices at pkg/bits/bits.go:33 and hidapi/hidusage/keyboard.go:94 are bounded by the capacity in Go, so a read past a report's length but within its capacity returns stale bytes there. The model returns a slice-bounds panic for every read past the length. Fields.ScanFields and Codec.Decode inherit this.
- Codec.EncodeReport requires fields with no missing bits (`Whole`). ConcatBits as written then takes its first branch, which the corrected Bits.ConcatBits shares. The panic of Bits.ConcatBitsAsWritten on fields that are not byte-aligned is therefore excluded, not reached.
- ReportStates.ReportState.constructor requires `Supported`, made of three parts:
  - every value item has no more usage IDs than its report count (`AllFitValues`);
  - every item takes whole bytes (`WholeItems`);
  - no item is a 16-bit selector (`WideSelector`).
  The Go constructor accepts all three kinds of device. It then panics in GetValue/SetValue (internal/hidparse/values.go) on the first two, and writes the wrong slots of the third (see Findings). Those devices are excluded by the precondition, not modelled.
- StateFields.Written, StateFields.WriteValue and ReportStates.AddValueEvents require `Values.InField`: every usage's word lies inside its field. Go indexes past the buffer and panics otherwise. The precondition excludes that input.
- StateTables.SetEntries, StateTables.ValueEntries and StateTables.SortRanges fix one iteration order. initializeStates ranges over Go maps in random order (hidapi/state.go:85,117) and sorts with the unstable `slices.SortFunc` (hidapi/state.go:134-151). The model walks items in index order and sorts stably.
  - StateTables.LookupTakesLeastRange and StateTables.AddressHolds therefore pin one address in two cases where the program's choice is unspecified: a usage held by two fields of one report, and two ranges that tie on (ReportSize, start).
  - Mux deactivation events are a map, so the order in which they are published is not modelled.
- Events.Event.SetDelta: hidapi/event.go has no SetDelta or delta entry, although hidapi/state.go:212 calls SetDelta. It is modelled as adding a usage entry that carries the delta. `UsageEvent.delta` is that field.
- Helpers the core uses but that lie outside it are modelled as their evident counterparts:
  - `bits.NewZeros` (hidapi/state.go:77) is Bits.Zeros;
  - `Bits.Uint8/16/32` and `SetUint8/16/32` are the little-endian word reads and writes of `Bits`;
  - `Bits.Each` is the set-bit list;
  - `Tag.WithItemSize` is Tags.WithItemSizeParts.
- DataItems.NewDataItemSet requires `WellFormed` items. Go dereferences a nil `DataItem` and panics, and that input is excluded, not modelled.
- DataItems.DataItemSet.MakeDescriptor assumes the per-iteration loop variable of Go 1.22 and later for `DataItem: &item` (hidapi/data_items.go:98). Before Go 1.22 every pointer aliases the last item.
- Tags.ItemType keeps the type bits in place (0, 4, 8, 12), as the code does. The `TagItemType` constants 0, 1, 2 (pkg/usbhid/descparser/tags.go:57-61) do not match those values. Nothing in the core compares them, so they are not modelled.
- The flow-language grammar is built by the participle library and is not modelled (flowapi/flowdsl/parser.go, ParseStatement, ParseUsageStatement, JSON unmarshalling). The model starts from parsed Declaration, Statement and Argument values.
- FlowArgs: `Float` and `Any` (flowapi/arguments.go:166-200) read floating-point and untyped values. They are not modelled.
- Generated tables are inputs to the model, not modelled tables: the usage names and key codes (`keyCodes`, the matcher's `Names`). The Char tables are the exception and are written out.
- FlowGraph.GraphRegistry: action and signal creators are closures, modelled as opaque handles (`nat`). FlowGraph.Graph.Configure takes the outcomes of `makeNode` and of the new node's `Configure` as parameters. Node replacement and contexts are not modelled.
- FlowGraph.GraphBuilder is a class. Go's `GraphBuilder` is a value whose maps are shared between copies, and that copy semantics is not modelled.
- BindNode.Bind: action handlers and finalizers are opaque. Their effects are recorded as a list of calls (`RunHandler`, `RunFinalizer`), and what a handler does to the event is not modelled.
- MuxNode.Mux: the `routeList` and `currentRoute` locals of `Run` are fields of the class, set up by `Start` where Run begins. A signal is applied by calling `Reset`, `Set` or `Unset`, not sent over the channel.
- Cycles that no entry node reaches are not checked, because Validate only searches from entry nodes (internal/flowsvc/graph.go:128-132). The model follows the code and does not claim this as a finding.

## Findings

| source | as written | input that shows it | evidently intended | confidence | as-written member | corrected member |
|---|---|---|---|---|---|---|
| pkg/bits/bits.go:27 | Scanner.Next gives a field `bitSize mod 8` missing bits | a 3-bit field: the result has Len 5 | `(8 - bitSize mod 8) mod 8` missing bits, so Len equals bitSize | not executed; high | Bits.NextBitsAsWritten, Bits.NextLengthAsWritten | Bits.NextBits, Bits.NextInRange |
| pkg/bits/bits.go:241-269 | when `0 < l.missingBits` and `l.missingBits + r.missingBits < 8`, the loop reads `r.bytes[ri]` one past its end | two 7-bit fields: the program panics | the concatenated bit string of l followed by r | not executed; high | Bits.ConcatBitsAsWritten, Bits.JoinAsWritten | Bits.ConcatBits, Bits.ConcatBitString |
| pkg/usbhid/hiddesc/encoder.go:216-235 | encodeTagi32 cuts the payload to 1 or 2 bytes when the dropped bytes equal the sign pad, even when the kept byte's top bit flips the sign | Logical Maximum 255 is written as 0x25 0xFF, which toInt32 reads back as -1 | the shortest payload that sign-extends back to the value: 0x26 0xFF 0x00 | not executed; high | DescriptorEncoder.TagI32AsWritten, DescriptorEncoder.TagI32AsWrittenLosesSign | DescriptorEncoder.TagI32, DescriptorEncoder.TagI32KeepsSign |
| hidapi/usage_set.go:261-269,290-300,327-343 | 16-bit selectors pass EachUint16's byte offset to SetUint16, which multiplies it by 2 again | two-slot fields: replacing 5 in [4,0,5,0] panics, and clearing 5 from [5,0,4,0] panics; in a four-slot field a set ID lands in slot 2, behind an empty slot | write slot i at bytes 2i and 2i+1 | not executed; high | UsageSets.SetUsage16AsWritten, UsageSets.SetUsage16AsWrittenPanics, UsageSets.SetUsage16AsWrittenStrands, UsageSets.ReplaceUsage16AsWritten, UsageSets.ReplaceUsage16AsWrittenPanics, UsageSets.ClearUsage16AsWritten, UsageSets.ShiftDown16AsWritten, UsageSets.ClearUsage16AsWrittenPanics | UsageSets.SetUsage, UsageSets.ClearUsage, UsageSets.ReplaceUsage, UsageSets.SetSlotsKeepsShape, UsageSets.ClearSlotsKeepsShape, UsageSets.ReplaceSlotsShape |
| pkg/usbhid/hiddesc/decoder.go:128-132,185-194 | parseBytes reslices `d.buf` as it consumes it, so the next Read gets a shorter buffer and a zero-length read ends decoding | a five-byte descriptor read through a four-byte buffer decodes without its End Collection | read until EOF, refilling the whole buffer each time | not executed; high | DescriptorDecoder.DecodeAsWritten, DescriptorDecoder.DecodeTruncatesAtBuffer | DescriptorDecoder.DecodeBytes, DescriptorDecoder.DecodeBytesReadsAll |
| components/actions/char.go:102-103 | digits map to `Key0 + d` | '1' gives the Enter key, and '9' the key of ']' | '0' to Key0 and '1'..'9' to Key1..Key9 | not executed; high | Chars.GetAsciiCharKeyAsWritten, Chars.DigitsAsWrittenCollide, Chars.NewCharActionAsWritten, Chars.CharActionDiffersOnlyOnDigits | Chars.GetAsciiCharKey, Chars.CharKeyRoundTrip, Chars.NewCharAction |
| flowapi/arguments.go:36-70 | the kind check dereferences `arg.Value` and indexes `arguments[i]` unguarded | a string parameter given a duration argument; a required parameter after an optional one with one argument | an "argument should be ..." error | not executed; medium | FlowArgs.NewArguments, FlowArgs.WrongKindPanics, FlowArgs.MissingRequiredPanics | FlowArgs.NewArgumentsChecked, FlowArgs.NewArgumentsCheckedSpec |
| internal/flowsvc/graph.go:331-347 | Configure records the new config before the new node is built and configured | configure "n" with a value its node rejects, then again with the same value: the second call succeeds without reaching the node | record the config only after it has been applied | not executed; medium | FlowGraph.ConfigureAsWritten, FlowGraph.ConfigureRetryIsStale | FlowGraph.ConfigureCommitted, FlowGraph.ConfigureCommittedKeepsSync |
