# LuoYun: proved models of its hard parts

LuoYun is a small cloud: a web front end, a controller process, and an agent inside every
virtual machine. Most of it is plumbing. Five parts are not, and these are modelled here in
Dafny, branch by branch as the code has them, with their properties proved for all inputs,
all runs or all reachable states. `dafny verify dfyconfig.toml` checks the whole project. Every
lemma switches automatic induction off: its proof is the one that is written out.

**Address sets** (`Cidr`, `PrefixLists`, `Subtraction`, `IPSet`, `Lookup`, `Netmask`). IPy's
`IPSet` keeps a list of CIDR blocks. The meaning of a list is the set of addresses in it; a list
is canonical when it is sorted, its blocks are disjoint and no two of them merge. The central
facts are that a set of addresses has one canonical list, and that every public operation leaves
the canonical list of the right set.

**Address text** (`Texts`, `AddressText`, `AddressForms`). The IPv4/IPv6 printer and parser undo
each other, and the parser reads the other forms of an address as it should: capital letters,
shortened IPv4 addresses, plain numbers.

**JSON** (`JsonMachine`, `JsonTwoPass`, `JsonPrint`, `JsonUnique`, `JsonSpacing`, `JsonRoundTrip`,
`JsonTree`, `JsonFate`, `JsonGrammar`, `JsonLinks`, `JsonFree`). The parser in C runs one flag-driven loop twice over the
text, first to measure and then to build. A read through a null pointer, a missing node and a write outside the
table, the keys or the string a node was given are the outcome `Fault`, so the absence of `Fault`
is memory safety; the reads of the clean-up after a rejection count as well. The texts the two
passes accept are those of a grammar given on its own, and a text of a value, whatever blanks stand
between its tokens, becomes the tree of that value. The printer is the compact form of
`JSON.stringify`; teardown is the stackless tree walk.

**Controller** (`EntityStore`, `EntityTable`, `Controller`, `Effects`, `Disagreement`, `Handlers`). The
1024-slot table with its two intrusive linked lists is a class over arrays of slots and links, proved to do what the
operations on values say; the event handlers work on it and on the instance table of the database,
and `Effects` says of each event what it does, slot by slot and row by row.

**Instance protocol and quota** (`Rc4`, `Rc4Vector`, `Framing`, `Handshake`, `Quota`). The cipher and its global
state, length-prefixed packets over any chunking of the stream, the challenge/response protocol as
two programs over FIFO channels, and the admission of run requests.

## What the code does not do

Some properties the code suggests do not hold of it. Each is stated with the condition under
which it does, exact unless something else is said.

* `s.discard(s)` does not empty a set: it pops from the list it walks, and the blocks at odd
  positions stay (`IPSets.SelfDiscardIff`).
* `IPSet.__contains__` gives up at the first group whose blocks are all greater than the query, so
  a member can be missed (`Lookup.AlwaysRightIff`, `Lookup.MissedMember`). A dictionary that keeps
  its keys in order of insertion never misses one (`Lookup.InsertionOrderIsExact`).
* `parseAddress` takes a minus and 31 hexadecimal digits for a negative IPv6 address
  (`AddressForms.MinusAddress`).
* The first pass of `json_parse_ex` reads through a null pointer exactly when the first character that is not blank
  is `]` (`JsonTwoPass.FirstPassCrashIff`).
* It computes the size of an object's table in an int: 16 bytes a member, so from 2^27 members on
  the size wraps. Then the memory is refused, or the table has room for the first members only and
  the key of the next is written outside; such a text is never accepted
  (`JsonTwoPass.SecondPassIsSafe`). A refused object below the root makes the parser reject; a
  refused root makes the clean-up read its null table (`JsonTwoPass.RefusedRootFaults`,
  `JsonFree.CleanUpFaultsIff`). For every printed value `JsonFate.ParseFate` says which of these
  happens, with examples in `JsonFate.WideObjects`. Texts under 2^27 bytes are not affected
  (`JsonTwoPass.ShortTextCrashIff`).
* It takes a comma before a closing bracket or brace, zeros before a number, and a point without
  digits on one of its sides, behind a minus even before the first digit
  (`JsonGrammar.AcceptsIff`).
* When the second pass rejects, the containers still open below the root leak, with all they hold
  (`JsonFree.LeaksIff`).
* A `\u` escape in the two-byte range gives UTF-8 only for units below 0x100
  (`JsonMachine.TwoByteEscapeIff`).
* Keys are kept without a length, so a caller reads them up to the first NUL
  (`JsonTree.KeyReadsBackIff`).
* `ly_entity_init` may be called on a free slot and then blocks every later connection
  (`EntityStore.InitKeepsIff`, `EntityStore.InitOfFreeSlotJams`).
* The node query loop never ends if slot 0 is in the node list (`EntityStore.QueryEndsIff`); with
  the listener in slot 0 it never is (`EntityStore.ListenerRuns`).
* A connection keeps the type of its first packet, but every handler runs on it. Four events set
  store and database at odds: a report from a node whose id is also an instance's, a registration
  as an instance by a node under the id of an instance that serves, a registration by an instance
  under a negative tag, and one as a node by an instance that is not running
  (`Controller.StepAgreesIff`, with a run that gets there for each:
  `Disagreement.NodeReportBreaksAgreement`, `Disagreement.NodeRegistrationBreaksAgreement`,
  `Disagreement.NegativeTagBreaksAgreement` and `Disagreement.InstanceAsNodeBreaksAgreement`).
* Packets without payload come out as result 0, the value that also means "closed", and packets
  over 1016 bytes are cut (`Framing.IntactIff`, `Framing.LongPacketSplits`).
* An instance whose row has no key yet needs no secret: the controller answers and challenges it in
  clear, and whoever sends the challenge back as it came is marked and can register
  (`Handshake.MarkingIff`, `Handshake.AnyoneRegistersKeyless`).
* `regclc` returns a socket without any check when `Config.status` is still REGISTERED from an
  earlier connection (`Handshake.ReturnedIff`, `Handshake.StaleStatusReturns`).
* What runs or waits to run can exceed the quota, though never by a run request: exactly by a run
  job made without admission, a finished run that is opened again, or an instance that starts
  without an unfinished run, when it is larger than what is left (`Quota.StepBoundIff`,
  `Quota.BoundIff`). A run job that was given up and starts its instance late is such a case
  (`Quota.LateStartExceeds`).

The comment above `_checkNetmask` and the name suggest that a netmask must fill its word from the
top; the code accepts ones followed by zeros wherever the ones stand, and that is what
`Netmask.NetmaskToPrefixlen` states.

## Model

| member | source | states |
|---|---|---|
| Cidr.NestedOrApart | lyweb/lib/IPy-0.81/IPy.py:628-652 | two valid blocks of one family are nested or share no address |
| Cidr.ContainsIffSubset | lyweb/lib/IPy-0.81/IPy.py:628-652 | `in` between networks is inclusion of their address sets |
| Cidr.SortedNestedOrAfter | lyweb/lib/IPy-0.81/IPy.py:703-756 | in comparison order a block is followed by what lies inside it, then by what lies entirely after |
| Cidr.HalvesPartition | lyweb/lib/IPy-0.81/IPy.py:1597-1602 | the two halves are valid, apart, and together the whole block |
| Cidr.AddIffHalves | lyweb/lib/IPy-0.81/IPy.py:571-590 | `+` of networks succeeds exactly on the two halves of a network, in either order, and gives that network |
| PrefixLists.TotalSizeIsCardinality | lyweb/lib/IPy-0.81/IPy.py:1069-1070 | the sum of block sizes of a sorted disjoint list is the number of addresses it denotes |
| PrefixLists.CanonicalCovers | lyweb/lib/IPy-0.81/IPy.py:1123-1169 | a block whose addresses are all in a canonical list lies inside one member of the list |
| PrefixLists.CanonicalUnique | lyweb/lib/IPy-0.81/IPy.py:1123-1169 | two canonical lists denote the same set iff they are equal |
| Subtraction.CutDenotes | lyweb/lib/IPy-0.81/IPy.py:1588-1605 | repeated halving leaves exactly the addresses of P that are not in S |
| Subtraction.CutCanonical | lyweb/lib/IPy-0.81/IPy.py:1588-1605 | what is left is canonical: nothing in it merges |
| Subtraction.CutLength | lyweb/lib/IPy-0.81/IPy.py:1588-1605 | for S inside P it is S.prefixlen − P.prefixlen blocks |
| IPSets.IPSet.constructor | lyweb/lib/IPy-0.81/IPy.py:1021-1033 | any list of networks becomes the canonical list of its set |
| IPSets.IPSet.Optimize | lyweb/lib/IPy-0.81/IPy.py:1123-1178 | keeps the set, ends canonical with the table indexing the list, and terminates |
| IPSets.IPSet.MarkSubsets | lyweb/lib/IPy-0.81/IPy.py:1127-1140 | overwriting nested blocks keeps the set and leaves sorted disjoint survivors |
| IPSets.IPSet.MergePass | lyweb/lib/IPy-0.81/IPy.py:1155-1169 | one merge scan keeps the set; it asks for another run only if the list got shorter, and otherwise nothing merges |
| IPSets.IPSet.BuildTable | lyweb/lib/IPy-0.81/IPy.py:1171-1178 | the table holds, per prefix length, exactly the members of that length in order |
| IPSets.IPSet.Extend | lyweb/lib/IPy-0.81/IPy.py:1072-1084 | add is set union, for any list of networks |
| IPSets.IPSet.Plus | lyweb/lib/IPy-0.81/IPy.py:1057-1058 | `+` is a new canonical set, the union |
| IPSets.IPSet.RemoveSubprefix | lyweb/lib/IPy-0.81/IPy.py:1588-1605 | the recursive set-building form returns the list Cut describes, which denotes the difference |
| IPSets.IPSet.PopInside | lyweb/lib/IPy-0.81/IPy.py:1100-1107 | the loop with the shifting index removes exactly the blocks inside the deleted one, keeping the order |
| IPSets.IPSet.DiscardOne | lyweb/lib/IPy-0.81/IPy.py:1096-1119 | one network is subtracted; the list stays canonical; blocks inside it go, or else at most one block, which holds it, is replaced by what is left of it, and nothing changes if no block does |
| IPSets.IPSet.Discard | lyweb/lib/IPy-0.81/IPy.py:1086-1121 | discard of any list of networks is set difference and ends canonical |
| IPSets.IPSet.Minus | lyweb/lib/IPy-0.81/IPy.py:1060-1064 | `-` is a new canonical set, the difference |
| IPSets.IPSet.DiscardSet | lyweb/lib/IPy-0.81/IPy.py:1091-1121 | discard of another set is difference; of the set itself it keeps the odd positions |
| IPSets.SelfDiscardIff | lyweb/lib/IPy-0.81/IPy.py:1091-1107 | discarding a set from itself empties it iff it has at most one block |
| IPSets.IPSet.Len | lyweb/lib/IPy-0.81/IPy.py:1069-1070 | len is the cardinality of the set denoted |
| Lookup.Bisect | lyweb/lib/IPy-0.81/IPy.py:1042 | the insertion point after all entries not greater than the query |
| Lookup.ProbeIsExact | lyweb/lib/IPy-0.81/IPy.py:1042-1048 | in one group a containing block exists iff the entry before the insertion point contains the query |
| Lookup.Find | lyweb/lib/IPy-0.81/IPy.py:1035-1048 | the answer of the loop; True always means membership, and with one prefix length the answer is exact |
| Lookup.AnswerIff | lyweb/lib/IPy-0.81/IPy.py:1041-1048 | True iff some visited group holds the query and no group visited before lies above it |
| Lookup.AlwaysRightIff | lyweb/lib/IPy-0.81/IPy.py:1035-1048 | lookup agrees with a scan under every dictionary order, that is every listing of the keys without repetition, iff the query is no member or no group up to its length lies above it |
| Lookup.InsertionOrderIsExact | lyweb/lib/IPy-0.81/IPy.py:1171-1178 | with the keys in the order in which the table was built the lookup is exact, for every set and query |
| Lookup.MissedMember | lyweb/lib/IPy-0.81/IPy.py:1045-1046 | 10.0.0.1 is not found in {10.0.0.0/25, 20.0.0.0/24} when the key 24 is visited before 25 |
| Netmask.Count1Bits | lyweb/lib/IPy-0.81/IPy.py:1478-1484 | the position of the highest one bit |
| Netmask.Count0Bits | lyweb/lib/IPy-0.81/IPy.py:1486-1499 | the number of zeros below the lowest one bit; negative numbers are refused |
| Netmask.CheckNetmask | lyweb/lib/IPy-0.81/IPy.py:1534-1551 | accepts exactly ones followed by zeros |
| Netmask.NetmaskToPrefixlen | lyweb/lib/IPy-0.81/IPy.py:1562-1571 | succeeds iff m = (2^k − 1)·2^z for some k, z, and returns that k |
| Netmask.PrefixlenRoundTrip | lyweb/lib/IPy-0.81/IPy.py:1562-1585 | netmask to prefix length inverts prefix length to netmask |
| Netmask.NetaddrWorksIffValid | lyweb/lib/IPy-0.81/IPy.py:1554-1559 | masking leaves an address unchanged iff it is the base address of the network |
| Netmask.FirstLast | lyweb/lib/IPy-0.81/IPy.py:204-222 | accepts iff last − first + 1 is a power of two that divides first, and gives that block |
| AddressText.ParsesFilled | lyweb/lib/IPy-0.81/IPy.py:1231-1298 | groups with '::' parse to the number with zeros in the gap, wherever the gap is |
| AddressText.ParsesMapped | lyweb/lib/IPy-0.81/IPy.py:1264-1270 | an IPv4 address in the last place stands for the two low groups |
| AddressText.DottedIsV4 | lyweb/lib/IPy-0.81/IPy.py:1369-1379 | a text with a dot and no colon is read as IPv4 and nothing else |
| AddressText.DottedParsesBack | lyweb/lib/IPy-0.81/IPy.py:1345-1424 | every x < 2^32 in dotted form parses to (x, 4) |
| AddressText.CompressesLongestRun | lyweb/lib/IPy-0.81/IPy.py:382-404 | the gap is the leftmost longest run of zero groups, if it has two or more (section 4.2 of RFC 5952) |
| AddressText.CompressedParsesBack | lyweb/lib/IPy-0.81/IPy.py:361-404 | every x < 2^128 in compressed form, mapped addresses included, parses to (x, 6) |
| AddressForms.CaseNeverMatters | lyweb/lib/IPy-0.81/IPy.py:1285-1297 | a text with a colon means the same in capital and in small letters, errors included |
| AddressForms.HexOfIs | lyweb/lib/IPy-0.81/IPy.py:1290 | a hexadecimal digit has its value, capital or small |
| AddressForms.CapitalsParseBack | lyweb/lib/IPy-0.81/IPy.py:1286-1297 | every x < 2^128, in compressed form or in full, with any of its letters made capital, parses to (x, 6) |
| AddressForms.PlainIff | lyweb/lib/IPy-0.81/IPy.py:1274-1297 | groups without a gap are an address iff there are eight, each below 2^16 |
| AddressForms.GapIff | lyweb/lib/IPy-0.81/IPy.py:1272-1297 | groups with a gap are an address iff there are at most seven, each below 2^16, and the gap is as many zeros as are missing |
| AddressForms.TwoGaps | lyweb/lib/IPy-0.81/IPy.py:1237-1242 | a second gap is refused |
| AddressForms.GapBehindDots | lyweb/lib/IPy-0.81/IPy.py:1266-1268 | a gap behind an IPv4 address is refused |
| AddressForms.ShortDottedIff | lyweb/lib/IPy-0.81/IPy.py:1369-1379 | of up to four bytes those left out are zeros at the end; more, or larger ones, are refused |
| AddressForms.DecimalAddress | lyweb/lib/IPy-0.81/IPy.py:1369-1391 | a decimal number below 256 is the first byte of an IPv4 address; others stand for themselves, up to 2^128 |
| AddressForms.MinusRefused | lyweb/lib/IPy-0.81/IPy.py:1365-1378 | a negative number is no address, unless it has 31 digits |
| AddressForms.MinusAddress | lyweb/lib/IPy-0.81/IPy.py:1365-1367 | a minus and 31 hexadecimal digits are a negative IPv6 address |
| AddressForms.HexAddress | lyweb/lib/IPy-0.81/IPy.py:1354-1360 | so do hexadecimal numbers behind 0x, small ones too |
| AddressForms.PlainHexAddress | lyweb/lib/IPy-0.81/IPy.py:1365-1367 | 32 hexadecimal digits are an IPv6 address |
| AddressText.ReadNetwork | lyweb/lib/IPy-0.81/IPy.py:201-259 | the text of every valid network reads back as that network, and so does every IPv4 network given with a netmask or as first and last address; only aligned networks are accepted |
| AddressText.ParseAddressIPv6 | lyweb/lib/IPy-0.81/IPy.py:1231-1298 | the loops compute ParseV6, errors included |
| AddressText.SplitGroups | lyweb/lib/IPy-0.81/IPy.py:1234-1262 | the scanning loop finds the groups and the place of the '::', or refuses |
| AddressText.IntToIp | lyweb/lib/IPy-0.81/IPy.py:1395-1424 | the digit loops print every address of the version, and only those |
| AddressText.StrCompressed | lyweb/lib/IPy-0.81/IPy.py:377-404 | the list surgery of the printer yields the compressed form |
| JsonMachine.StepProgress | platform/lib/json-parser/json.c:223-636 | every round moves the cursor on or lowers a rank, and stays in the text: the loop terminates |
| JsonMachine.RunLoop | platform/lib/json-parser/json.c:212-636 | the loop of one pass computes the run of the machine, new_value's int-sized tables included |
| JsonMachine.JsonParse | platform/lib/json-parser/json.c:210-682 | two passes, the second over the nodes of the first; a rejection whose clean-up would follow a null table is a fault (which texts are accepted: JsonGrammar.AcceptsIff; into what: JsonTree.SpelledParse) |
| JsonMachine.TwoByteEscapeIff | platform/lib/json-parser/json.c:284-293 | the two bytes written are UTF-8 iff the high byte of the unit is 0 |
| JsonMachine.OtherEscapes | platform/lib/json-parser/json.c:276-300 | below and above that range the bytes are those of UTF-8, surrogates taken one by one |
| JsonTwoPass.StepWF | platform/lib/json-parser/json.c:223-636 | parents precede their children and are containers, and each mode has the right kind of value on top |
| JsonTwoPass.FirstPassPromise | platform/lib/json-parser/json.c:329-346 | from any state of a completed first pass the final measures leave room for every open container, string and key |
| JsonTwoPass.StrtodWithinScan | platform/lib/json-parser/json.c:474-490 | strtod never stops behind the character at which the first pass ended the number |
| JsonTwoPass.SecondPassFollows | platform/lib/json-parser/json.c:97-173 | the k-th new_value of pass 2 takes the k-th node of pass 1, and no read or write leaves what was measured unless a table wrapped; if one did, pass 2 does not accept |
| JsonTwoPass.SecondPassIsSafe | platform/lib/json-parser/json.c:97-682 | after a completed pass 1 that measured no object with a wrapping, too small table and no root that is refused, pass 2 never faults, its clean-up included, even when it rejects; when it accepts, no table wrapped and every table is filled to its measure |
| JsonTwoPass.RefusedRootFaults | platform/lib/json-parser/json.c:104-131 | whenever the root is refused its memory, the clean-up reads through its null table |
| JsonTwoPass.FirstPassCrashIff | platform/lib/json-parser/json.c:369-371 | pass 1 dereferences null iff the first non-blank character is ']'; unless a table wrapped too small or the root was refused, so does the parser |
| JsonTwoPass.ShortTextCrashIff | platform/lib/json-parser/json.c:97-173 | on texts under 2^27 bytes the parser faults iff the first non-blank character is ']' |
| JsonPrint.StrArray | lyweb/static/third/json2.js:294-314 | the joined text of an array, element by element |
| JsonPrint.StrObject | lyweb/static/third/json2.js:331-352 | the joined text of an object, member by member |
| JsonPrint.StrNoNul | lyweb/static/third/json2.js:211-225 | printed text holds no NUL, as the C parser needs |
| JsonSpacing.WovenIsSpelled | platform/lib/json-parser/json.c:178-180 | the tokens of a value with any blanks before, between and behind them are a text of that value |
| JsonSpacing.StrIsWoven | lyweb/static/third/json2.js:294-352 | the printed text is that of the tokens with no blanks |
| JsonRoundTrip.ParsesChars | platform/lib/json-parser/json.c:243-359 | the printed form of any ASCII string is read back into the storage, byte by byte, in both passes |
| JsonRoundTrip.ParsesString | platform/lib/json-parser/json.c:425-435 | a quoted string becomes a string node with these bytes and a NUL |
| JsonRoundTrip.ParsesNumberSecond | platform/lib/json-parser/json.c:474-490 | a printed integer becomes an integer node with its value |
| JsonRoundTrip.ReadsDecimal | platform/lib/json-parser/json.c:474-490 | the decimal text of any integer becomes an integer node with its value, or with the end of the range of a long beyond it |
| JsonRoundTrip.ClampIsNearest | platform/lib/json-parser/json.c:487 | beyond the range of a long strtol gives the nearest value in it |
| JsonRoundTrip.ReadsKey | platform/lib/json-parser/json.c:509-522 | a printed key and colon, any blanks around the colon, store the key in the key block and name the member |
| JsonRoundTrip.LinksChild | platform/lib/json-parser/json.c:589-635 | completing a member links it at the next index of its parent |
| JsonRoundTrip.ParsesArray | platform/lib/json-parser/json.c:366-423 | an array, with any blanks in it, becomes an array node and the nodes of its elements, in order |
| JsonRoundTrip.ParsesObject | platform/lib/json-parser/json.c:410-541 | an object, with any blanks in it, becomes an object node with its keys and the nodes of its values, in order |
| JsonRoundTrip.ParsesValue | platform/lib/json-parser/json.c:223-636 | either pass, anywhere in a text, reads the tokens of a value with any blanks between them into exactly the nodes of that value, and stops where the value ends; given for the second that no table wraps |
| JsonTree.SpelledParse | platform/lib/json-parser/json.c:97-173 | any text of a printable value is accepted iff every object has fewer than 2^27 members, and then the tree holds that value |
| JsonTree.SpacedParse | platform/lib/json-parser/json.c:223-541 | in particular the tokens of the value with any blanks before, between and behind them |
| JsonTree.PrintThenParse | platform/lib/json-parser/json.c:97-173 | and in particular the printed text |
| JsonFate.ParseFate | platform/lib/json-parser/json.c:97-153 | for every text of a printable value, whatever its blanks: accepted iff all tables fit; a fault iff the first thing to go wrong is a key without room in its table, or the value is itself an object that is refused; rejected iff it is another object that is refused |
| JsonFate.WideObjects | platform/lib/json-parser/json.c:125-151 | three concrete values: a root of 2^27 members, the same inside an array, and a root of 2^28 members |
| JsonTree.HoldsOneValue | platform/lib/json-parser/json.c:190-641 | a tree holds at most one value |
| JsonUnique.PrintingIsInjective | lyweb/static/third/json2.js:228-353 | different values print differently |
| JsonUnique.TextTellsValue | lyweb/static/third/json2.js:228-353 | printed texts with anything that may follow a value behind them are equal only if the values and what follows are: the text tells where the value ends |
| JsonTree.KeyReadsBackIff | platform/lib/json-parser/json.c:338-346 | read as a C string, a stored key is a prefix of the printed one, and all of it iff it has no NUL |
| JsonGrammar.ReadsValue | platform/lib/json-parser/json.c:363-497 | pass 1 goes on behind a value exactly when one stands there by the grammar, and stops with an error otherwise |
| JsonGrammar.ReadsElements | platform/lib/json-parser/json.c:366-392 | so it does with the rest of an array, commas and bracket |
| JsonGrammar.ReadsMembers | platform/lib/json-parser/json.c:504-541 | and with the rest of an object, keys, colons, commas and brace |
| JsonGrammar.ReadsChars | platform/lib/json-parser/json.c:243-330 | and with the characters and escapes of a string up to its quote |
| JsonGrammar.StoresContent | platform/lib/json-parser/json.c:251-359 | either pass, inside any string that ends: pass 1 counts its bytes, pass 2 has stored them when it comes to the quote |
| JsonGrammar.MeaningIs | platform/lib/json-parser/json.c:255-319 | what each escape stands for, `\u` included |
| JsonGrammar.NumberIs | platform/lib/json-parser/json.c:474-581 | strtol or strtod takes a number to the end of what pass 1 scanned iff it has the form of one, or what follows stops the parser |
| JsonGrammar.SecondAcceptsIff | platform/lib/json-parser/json.c:474-490 | where all tables fit, pass 2 accepts what pass 1 did iff the numbers are taken to their ends |
| JsonGrammar.AcceptsIff | platform/lib/json-parser/json.c:210-682 | the parser accepts a text iff it is grammatical and no table measured for it wraps |
| JsonGrammar.ShortAcceptsIff | platform/lib/json-parser/json.c:210-682 | texts under 2^27 bytes are accepted iff they are grammatical |
| JsonLinks.StepLinks | platform/lib/json-parser/json.c:589-635 | every step keeps: a node is open and unlinked, or complete and pointed to by its parent |
| JsonLinks.ParsedIsOwned | platform/lib/json-parser/json.c:604-632 | in every accepted tree each node but the root is pointed to, exactly once, by its parent |
| JsonLinks.RefusedIsLinked | platform/lib/json-parser/json.c:658-682 | whatever a rejected second pass leaves is a partial tree whose pointers and parents agree, perhaps a node that was refused, and the rest of the chain |
| JsonFree.JsonValueFree | platform/lib/json-parser/json.c:692-740 | the stackless walk, on a complete or a partial tree, reads no freed node, terminates, frees exactly the nodes that pointers lead to, and calls free in the order of a recursive post-order walk |
| JsonFree.FreedExactlyOnce | platform/lib/json-parser/json.c:692-740 | in a complete tree each node and each string or table block is freed exactly once, and no other |
| JsonFree.FreedBottomUp | platform/lib/json-parser/json.c:699-736 | when a node is freed all its children have been |
| JsonFree.ParsedIsFreed | platform/lib/json-parser/json.c:692-740 | this covers every tree json_parse_ex returns |
| JsonFree.CleanUp | platform/lib/json-parser/json.c:668-681 | the clean-up frees the rest of the chain, then walks the partial tree, and reads no freed node |
| JsonFree.RejectedIsCleanedUp | platform/lib/json-parser/json.c:658-682 | after every rejected second pass the clean-up frees each node of the chain once, each node that pointers lead to from the root once, with its block, and nothing else |
| JsonFree.CleanUpFaultsIff | platform/lib/json-parser/json.c:718-724 | the walk goes by the length of a null table iff the node that was refused is the root |
| JsonFree.LeaksIff | platform/lib/json-parser/json.c:678-679 | a node leaks iff it is, or is inside, a value still open below the root |
| EntityStore.EmptyInv | platform/src/clc/entity.c:57-79 | the new store satisfies the invariant |
| EntityStore.ListsAreExact | platform/src/clc/entity.c:125-153 | under the invariant a list holds exactly the live slots with data of its type, and a live slot carries its index |
| EntityStore.FindByDbIff | platform/src/clc/entity.c:315-334 | the lookup returns an entity iff it is the listed one with that id |
| EntityStore.NewTakesLowest | platform/src/clc/entity.c:82-123 | a new entity takes the lowest free slot; it fails iff none is free, the descriptor is bad or memory is short |
| EntityStore.InitKeepsIff | platform/src/clc/entity.c:125-153 | init keeps the invariant iff the slot is live and carries no id a listed entity has, when it would list it |
| EntityStore.InitOfFreeSlotJams | platform/src/clc/entity.c:97-99 | after init of the lowest free slot no entity can be made |
| EntityStore.UpdateKeeps | platform/src/clc/entity.c:271-290 | update keeps the invariant for all arguments |
| EntityStore.EnableKeeps | platform/src/clc/entity.c:292-313 | so does enable |
| EntityStore.ReleaseKeeps | platform/src/clc/entity.c:372-411 | so does release, after which the slot is free |
| EntityStore.UpdateTakesOver | platform/src/clc/entity.c:279-288 | after an update with an id the entity is the one found under it, and only the previous holder was released |
| EntityStore.EnableTakesOver | platform/src/clc/entity.c:297-311 | the flag is set as asked, the entity is the one found under the id, and only the previous holder was released |
| EntityStore.DoKeepsIff | platform/src/clc/entity.c:82-411 | each operation keeps the invariant iff it is safe |
| EntityStore.RunKeeps | platform/src/clc/entity.c:82-411 | every sequence of operations with safe inits keeps the invariant |
| EntityStore.VisitsAll | platform/src/clc/lyjob2.c:133-147 | without slot 0 in the list the query loop visits each node once, in list order, and ends |
| EntityStore.NeverEnds | platform/src/clc/entity.c:211-212 | with slot 0 in the list it starts over after it for ever |
| EntityStore.QueryEndsIff | platform/src/clc/lyjob2.c:133-147 | the loop ends iff slot 0 is not in the node list |
| EntityStore.ListenerRuns | platform/src/clc/events.c:392-407 | in every run with the listener in slot 0, not released, the loop ends |
| EntityTable.AddsToRing | platform/src/util/list.h:53-78 | list_add puts an entry first in a circular list and keeps it well formed |
| EntityTable.DeletesFromRing | platform/src/util/list.h:102-121 | list_del takes an entry out, wherever it is, and keeps the ring well formed |
| EntityTable.ReleaseRep | platform/src/clc/entity.c:382-394 | releasing a listed or a self-linked entity leaves both rings well formed |
| EntityTable.Table.constructor | platform/src/clc/entity.c:57-79 | two empty rings and free slots |
| EntityTable.Table.New | platform/src/clc/entity.c:82-123 | does on slots and links what the store operation says |
| EntityTable.Table.Init | platform/src/clc/entity.c:125-153 | likewise, list_add included |
| EntityTable.Table.Release | platform/src/clc/entity.c:372-411 | likewise, list_del included |
| EntityTable.Table.FindByDb | platform/src/clc/entity.c:315-334 | the walk along the links finds the first entity with the id |
| EntityTable.Table.Update | platform/src/clc/entity.c:271-290 | status, then takeover of the id |
| EntityTable.Table.Enable | platform/src/clc/entity.c:292-313 | flag, then takeover of the id |
| EntityTable.Table.DataNext | platform/src/clc/entity.c:197-222 | the next entity of a type by its cursor |
| EntityTable.Table.QueryNodeAll | platform/src/clc/lyjob2.c:133-147 | terminates and visits the node list in order when slot 0 is not in it |
| Controller.ReceivedKeeps | platform/src/clc/events.c:290-335 | the event loop's init is always safe, and does nothing on a connection that has a type |
| Controller.RegisterKeepsIff | platform/src/clc/ev_osm.c:123-193 | registration keeps store and database in agreement iff it is neither an instance's with a negative tag over another, not running row, nor a node's under the id of an instance that serves |
| Controller.NodeRegisterKeepsIff | platform/src/clc/ev_node.c:228-251 | registering as a node keeps agreement iff it is not an instance that does so under a number whose instance row is not running |
| Controller.ReportKeepsIff | platform/src/clc/ev_osm.c:71-120 | a report keeps agreement iff no other, registered entity has the reporter's id and a different state |
| Controller.AuthRequestKeeps | platform/src/clc/ev_osm.c:224-284 | an authentication request keeps agreement, on whatever connection it comes and however far it gets |
| Controller.InstanceInfoKeeps | platform/src/clc/ev_node.c:458-461 | node info never changes the status of a registered instance |
| Controller.StoppedKeeps | platform/src/clc/ev_node.c:632-640 | the release on shutdown keeps agreement |
| Controller.DisconnectKeeps | platform/src/clc/events.c:234-262 | so does the end of a connection |
| Controller.StepAgreesIff | platform/src/clc/ev_osm.c:71-284 | over all events: the invariants stay, and agreement stays iff the event does not disturb |
| Controller.StatusRises | platform/src/clc/ev_osm.c:71-284 | a status goes up only for its own packet: REGISTERED takes an authenticated entity, AUTHENTICATED a verified reply, and a report needs neither |
| Controller.RunAgrees | platform/src/clc/ev_osm.c:71-284 | every interleaving of undisturbing events ends in agreement |
| Effects.ReceivedOutcome | platform/src/clc/entity.c:125-153 | a first packet types its connection: zeroed data, the head of its list; later ones change nothing |
| Effects.RequestOutcome | platform/src/clc/ev_osm.c:224-284 | what an authentication request does to secret, challenge, tag, status and number, step by step as far as it gets, and to the previous holder of the number |
| Effects.ReplyOutcome | platform/src/clc/ev_osm.c:204-222 | a reply that verifies raises the status to AUTHENTICATED if it is below; nothing else changes |
| Effects.RegisterOutcome | platform/src/clc/ev_osm.c:123-180 | when a registration makes the row RUNNING and the entity REGISTERED under the tag, who loses the number then, and that nothing happens otherwise |
| Effects.ReportOutcome | platform/src/clc/ev_osm.c:71-120 | which reports make entity and row SERVING or RUNNING; no other row or slot changes |
| Effects.InfoOutcome | platform/src/clc/ev_node.c:458-461 | node info writes the reported status to the row unless a registered instance has that number, the status is UNKNOWN, or the row is missing or marked for deletion; no other row changes |
| Effects.OnlineOutcome | platform/src/clc/ev_node.c:823-925 | a node comes online under its number, with the secret and challenge it has then |
| Effects.NodeRegisterOutcome | platform/src/clc/ev_node.c:228-251 | an authenticated node is enabled as asked under its number, and REGISTERED if its row can be written |
| Effects.DisableOutcome | platform/src/clc/lyjob.c:684-706 | the node found under a number is switched off if it is online |
| Effects.StoppedOutcome | platform/src/clc/ev_node.c:632-640 | the entity of a stopped instance is released, unless it is in slot 0 |
| Effects.DisconnectOutcome | platform/src/clc/events.c:234-262 | at the end of a connection the entity is released and an instance's row becomes NEED_QUERY |
| Effects.UpdateOutcome | platform/src/clc/entity.c:271-290 | an update slot by slot: status, number, and the previous holder of the number emptied |
| Disagreement.NodeReportBreaksAgreement | platform/src/clc/ev_osm.c:84-114 | a run from the listener alone to a report by a node that breaks it |
| Disagreement.NodeRegistrationBreaksAgreement | platform/src/clc/ev_osm.c:123-180 | a run from the listener alone to a registration as an instance by a node that breaks it |
| Disagreement.NegativeTagBreaksAgreement | platform/src/clc/ev_osm.c:168-178 | a run from the listener alone to a registration under a negative tag that breaks it |
| Disagreement.InstanceAsNodeBreaksAgreement | platform/src/clc/ev_node.c:228-248 | a run from the listener alone to a registration as a node by an instance that breaks it |
| Handlers.Server.UpdateRow | platform/src/clc/postgres.c:603-719 | the status of a row changes unless it is missing, deleted or the status is unknown; failure changes nothing |
| Handlers.Server.OsmReport | platform/src/clc/ev_osm.c:71-120 | the handler on the table and the rows does what the model says |
| Handlers.Server.OsmRegister | platform/src/clc/ev_osm.c:123-193 | likewise |
| Handlers.Server.OsmAuthReply | platform/src/clc/ev_osm.c:204-222 | likewise |
| Handlers.Server.OsmAuthRequest | platform/src/clc/ev_osm.c:224-284 | likewise |
| Handlers.Server.InstanceInfoUpdate | platform/src/clc/ev_node.c:458-466 | likewise |
| Handlers.Server.InstanceStopped | platform/src/clc/ev_node.c:632-640 | likewise |
| Handlers.Server.Disconnected | platform/src/clc/events.c:234-262 | likewise |
| Rc4.SwapPermutes | osmanager/bin/pyosm/lyauth.py:19-21 | a swap keeps the box a permutation of 0..255 |
| Rc4.NextIsReversible | osmanager/bin/pyosm/lyauth.py:23-29 | the state before a byte can be computed from the state after it |
| Rc4.NextIsInjective | osmanager/bin/pyosm/lyauth.py:23-29 | different states never meet |
| Rc4.EncodeTwice | osmanager/bin/pyosm/lyauth.py:33-43 | encoding twice under a non-empty key gives the data back |
| Rc4.EncodeBackIff | osmanager/bin/pyosm/lyauth.py:33-43 | under two keys it does so iff the keystreams agree over the length of the data |
| Rc4.EncodesPrefix | osmanager/bin/pyosm/lyauth.py:39-42 | a keystream byte depends on key and position only |
| Rc4.KeyByteShows | osmanager/bin/pyosm/lyauth.py:12-21 | of two keys that agree up to byte k of the key box, the state after k + 1 rounds is the same iff they agree in byte k, modulo 256 |
| Rc4Vector.KnownAnswer | osmanager/bin/pyosm/lyauth.py:7-43 | the key "Key" turns "Plaintext" into BB F3 16 E8 D9 40 AF 0A D3 |
| Rc4.Cipher.GenerateKey | osmanager/bin/pyosm/lyauth.py:7-21 | whatever the globals held, the box is the one the key determines; an empty key fails |
| Rc4.Cipher.GetByte | osmanager/bin/pyosm/lyauth.py:23-31 | one step of the keystream, in 0..255, the box still a permutation |
| Rc4.Cipher.Encode | osmanager/bin/pyosm/lyauth.py:33-43 | the data under the keystream of the key, independent of earlier calls |
| Framing.Receive | osmanager/bin/pyosm/lyutil.py:20-83 | the two receive loops, with timeouts, closed and failing sockets |
| Framing.FrameBytes | osmanager/bin/pyosm/lyutil.py:10-18 | the bytes on the wire: type and length, lowest byte first, then the payload |
| Framing.InterruptedInHeader | osmanager/bin/pyosm/lyutil.py:20-50 | a silence before the header is whole gives -1, a closed or failing socket 0, and nothing is handed out |
| Framing.InterruptedInPayload | osmanager/bin/pyosm/lyutil.py:52-83 | in the payload what came is handed out with -1 after a silence and 0 if the other end closed |
| Framing.ReadTakes | osmanager/bin/pyosm/lyutil.py:24-50 | reading to a target takes just that many bytes of the stream, for any cuts |
| Framing.RecvNext | osmanager/bin/pyosm/lyutil.py:49-83 | what one call returns of the packet at the head of the stream, and what it leaves |
| Framing.IntactIff | osmanager/bin/pyosm/lyutil.py:52-56 | a packet comes out whole, with its length, iff its payload has 1 to 1016 bytes |
| Framing.LongPacketSplits | osmanager/bin/pyosm/lyutil.py:54-56 | of a longer packet the rest of the payload stays in the stream |
| Framing.RecvAll | osmanager/bin/pyosm/lyutil.py:10-83 | any sequence of such packets comes out whole and in order, for any cuts, and what is left on the stream is exactly what came behind them |
| Handshake.EchoMeansAgreement | osmanager/bin/pyosm/lyconn.py:131-134 | an echoed challenge means equal keystreams over its 40 bytes, the controller's being zeros if its row has no key |
| Handshake.StepKeeps | osmanager/bin/pyosm/lyconn.py:109-186 | every step of either side keeps the protocol invariant, rows without a key included |
| Handshake.MarkingIff | platform/src/util/lyauth.c:134-145 | whatever peer sends whatever packets, it is marked iff a reply brings back, byte for byte but for the case of letters and with a NUL behind it, the challenge prepared last, deciphered under the secret, or in clear, which takes a row without a key when the challenge was prepared |
| Handshake.RequestOutcome | platform/src/clc/ev_osm.c:224-284 | what a request is answered with, whose secret is used, which challenge is sent back, and when the entity is ONLINE |
| Handshake.ReplyOutcome | platform/src/clc/ev_osm.c:204-222 | a reply that brings the challenge back byte for byte, but for the case of letters, and then a NUL, marks the entity; any other releases it, once there is a challenge and the cipher takes the secret |
| Handshake.RegisterOutcome | platform/src/clc/ev_osm.c:123-193 | which registrations are answered favourably, and when the entity is REGISTERED |
| Handshake.AnyoneRegistersKeyless | platform/src/clc/postgres.c:497-531 | a concrete run in which a peer without any secret registers an instance whose row has no key |
| Handshake.ReturnedIsAuthentic | osmanager/bin/pyosm/lyconn.py:68-186 | a run that begins unregistered and returns a socket saw its challenge come back from a controller with an agreeing secret, or with none if its own keystream is zero over the challenge, which had marked it authenticated before it sent the success reply |
| Handshake.ReturnedIff | osmanager/bin/pyosm/lyconn.py:182-186 | when done, the socket was returned iff Config.status began as REGISTERED or the success reply came in |
| Handshake.StaleStatusReturns | osmanager/bin/pyosm/lyconn.py:183-186 | with a stale status a failed run returns the socket |
| Handshake.HonestRunReturns | osmanager/bin/pyosm/lyconn.py:109-181 | with agreeing keys and no failure the socket is returned iff the secret has the five bytes libgcrypt's ARCFOUR needs; otherwise the instance gets no answer |
| Quota.ResourceTotal | lyweb/app/account/models.py:99-123 | the base quota plus the grants that are valid now, for CPU, memory, storage and instances |
| Quota.ResourceUsed | lyweb/app/account/models.py:126-144 | the CPU and memory of what runs, the storage of all instances and their number |
| Quota.Remain | lyweb/app/account/models.py:147-220 | remaining plus used is the total, or remaining is 0, for each of the four |
| Quota.Run | lyweb/app/instance/views.py:481-545 | a job is made iff quota less use and waiting covers the instance, it is not running and run_job agrees |
| Quota.RequestMadeIff | lyweb/app/instance/views.py:481-545 | the same in terms of CPUs, memory, statuses and seconds |
| Quota.JobMadeIff | lyweb/app/instance/views.py:98-140 | by status and age of the last job, when run_job makes a new one |
| Quota.OneInstanceMore | lyweb/app/account/models.py:126-144 | what one instance more adds to use and to waiting, by status and job |
| Quota.OneStorageMore | lyweb/app/account/models.py:134-140 | what one storage more adds to the storage an instance takes |
| Quota.OneGrantMore | lyweb/app/account/models.py:99-123 | what one grant more adds to the quota, by resource and time |
| Quota.CommittedIsCounted | lyweb/app/instance/views.py:486-504 | what runs or waits to run is never more than what the admission check counts |
| Quota.StepBoundIff | lyweb/app/instance/views.py:98-140 | one event keeps what runs or waits to run within the limit iff it is not a run job without admission, a finished run opened again or a start, of an instance that neither ran nor waited and is larger than what is left; a run request never is |
| Quota.BoundIff | lyweb/app/instance/views.py:481-545 | over every run it stays within the largest quota a request was checked against iff no such event occurs |
| Quota.BoundKept | lyweb/app/instance/views.py:481-545 | in particular when instances start only while their latest job is an unfinished run |
| Quota.LateStartExceeds | lyweb/app/instance/views.py:106-115 | a concrete run in which a superseded job starts its instance and the quota is exceeded |

## Left out

- JsonTree.SpelledParse: numbers are integers up to 2^53, which the printer writes in full (the parser's half, JsonRoundTrip.ReadsDecimal, has no such bound), and strings are code units up to 0x7F as they are printed; that other numbers and strings are accepted is JsonGrammar.AcceptsIff, what a string with any escapes leaves is JsonGrammar.StoresContent; the values of doubles are not modelled.
- JsonGrammar.AcceptsIff: that the measured tables fit is said of the nodes of the first pass; on texts under 2^27 bytes, JsonGrammar.ShortAcceptsIff, it always holds.
- JsonMachine.JsonParse: memory is always there for a size that is not negative, zero included; max_memory accounting, relaxed commas, comments on errors and the values of doubles are not modelled.
- JsonPrint.StrObject: replacer, toJSON, indentation and property order of a JavaScript engine are not modelled; an object is its list of members.
- IPSets.IPSet.Extend: `add` of the set itself, which extends a list by itself while iterating over it, is not modelled.
- IPSets.IPSet.Optimize: list.sort is known by its result, a sorted permutation.
- IPSets.IPSet.constructor: the type checks on arguments are not modelled; a list of networks is passed.
- Lookup.Find: the query is a network; a text or number as the query, which bisect compares by other rules, is not modelled.
- AddressText.ReadNetwork: the ipversion and make_net arguments and non-text arguments are not modelled; int() takes a sign and 0x but no blanks or underscores.
- EntityTable.Table.New: descriptors are not closed and packet buffers not filled; the single-threaded event loop is assumed.
- Controller.StepAgreesIff: rows are only written by these handlers; the job queue and the web front end also write them.
- Controller.NodeRegisterKeepsIff: on a connection typed as an instance the node handlers use a node's record where the smaller one of an instance was allocated; what they overwrite behind it is not modelled, only the entity and the rows.
- EntityTable.Table.DataNext: the cursor is one that the walk over this list gave out, or not positive; with the slot of another list the C code walks on in that list.
- Handshake.ReturnedIsAuthentic: packets are whole and in order, sends are atomic, and libgcrypt's ARCFOUR is the cipher of Rc4, for keys of five bytes and more.
- Framing.Send: a send takes all bytes; the sender's partial writes are not modelled.
- Quota.BoundIff: instance sizes and the user's set of instances do not shrink; instances are not deleted or resized.
- IPy's reverse names, address types, get_mac, hashing and v46map; ev_node.c's XML, the timer loop, sockets, pools, forms and pages.
