# digitalSTROM server: verified model

This project models the self-contained algorithms and stateful components of the digitalSTROM
server and proves their properties with Dafny. `dafny verify dfyconfig.toml` checks all of it.

What is modelled, one module per component:

- **Crc16**, **Utf8**, **Utf8Encoding**, **Strings**, **SplitString**, **Numbers**: the string and bit
  algorithms of `src/base.cpp`. The checksum is related to polynomial division, truncation to character
  boundaries, and escaped splitting to escaped joining.
- **NumberTexts**: what other text than printed decimals reads as.
- **SensorLog**, **SensorDelivery**: the upload protocol of sensor events, as a class and as
  interleaved steps of the threads that append, trigger, send and reply, and what it delivers.
- **DeviceSet**, **SetParsing**, **SetBuilder**, **SetExpression**, **SetSelection**: device sets, the
  recursive parser of set expressions (functions, and the class that computes them), its correctness
  against a denotation of expression trees, and which devices are selected, by their fields.
- **PropertyQuery**, **QueryText**, **QueryEscapes**, **ElementTree**: the text of property queries, the
  flat list of parts it is parsed into, escaped commas in it, and the element tree built from the parts.
- **PropertyTree**, **PropertyPaths**, **PropertyIndices**, **PropertyNode**, **Listeners**: the
  property tree, what paths resolve to in it, with and without indices, its nodes on the heap, and the
  two-sided registration of listeners.
- **PropertySave**, **PropertySax**, **PropertyParser**, **SaveLoad**, **LoaderRuns**,
  **LoaderMeaning**, **LoaderPaths**: writing property trees as XML, loading them at the level of XML
  callbacks, the round trip, and what the loader makes of documents in general.
- **Schedule**, **Events**, **PushedEvents**, **EventMonitor**, **ShownEvents**, **EventLoop**,
  **EventRuns**, **StuckEvents**, **UniqueEvents**, **RunnerRaces**, **QueueWait**, **QueueRaces**:
  schedules with their protection against time leaps, the event queue and the runner with its monitor
  node, what becomes of a pushed event by its fields, whole runs, names that keep an event from going,
  the merging of unique events, the queue between threads, and races.
- **Subscriptions**, **RelaySessions**: unique subscription IDs, and the agreement of interpreter,
  relay, collectors and sessions.

Functions say what the code computes; methods of classes and loops over changing variables follow
the code and are proved equal to them; lemmas state the properties. Lists has the removal from a
list by value that several of them share. A function that throws in the source returns a `Result`
(module Exceptions). `std::string::npos` is the length of the string.

Places where the code does less than its comments or names suggest, each with the exact condition
under which the expected property holds:

- The XML writer prints the attribute `writeable`, the loader reads `writable`, and false flags are
  not printed; sibling indices are dropped on loading; doubles are printed with 12 digits.
  `LoaderRuns.RoundTrip` gives the trees that come back unchanged.
- Removing the child that a name selects leaves an index gap that lookups do not bridge
  (`PropertyPaths.RemovalLeavesGap`); `PropertyPaths.CreateThenGet` says when a created property is
  found.
- `name+` selects a child literally called `name+` if there is one (`PropertyPaths.PlusIsLast`).
- The look-ahead after raising a recurring event consumes an occurrence one second later
  (`Schedule.LookAheadLoses`); `EventRuns.OccurrenceLost` says which occurrences a run loses.
- Local time and UTC are mixed in recurring schedules: `getNextOccurence` adds the UTC offset of the
  zone to its argument for starts in UTC too, and `leapAdjust` is called without it for starts in local
  time. A raise leaves nothing overdue if and only if the start is in UTC or the zone is not ahead of it
  (`Schedule.NothingDueExactly`), and what is lost is lost as in UTC if and only if the offset is 0
  (`Schedule.AsInUtcExactly`, with an instance for every other offset in `Schedule.OffsetMatters`).
- An event that has ended is removed through the monitor node, which takes its ID for a property path:
  `EventMonitor.GoesExactly` says when it goes, and names without slash and bracket see to it
  (`EventRuns.PlainRunIsClean`). With a slash it is raised by every later pass
  (`StuckEvents.SlashNeverEnds`), with a zero index once more at least
  (`StuckEvents.ZeroIndexRaisedAgain`).
- The runner gives up its lock between a pass and the removals it has noted
  (`RunnerRaces.MergeCanBeLost`); `RunnerRaces.MergeLostExactly` says which merged events are lost.
- An event whose time is invalid is not dropped, although the log message says so, but queued at once
  (`EventRuns.InvalidTimeExample`); `EventRuns.InvalidTimeQueued` says which times these are.
- `pushEvent` gives up its lock between the search for an event to replace and the push, so that two
  unique events of one key can be queued (`QueueRaces.TwoUniqueQueued`);
  `QueueRaces.OneWithoutOverlap` says in which runs there is at most one.
- A signal between the look at the queue and the wait is lost (`QueueRaces.WakeupCanBeLost`);
  `QueueRaces.LostExactly` says when only the time-out can end a wait.
- An escaped comma in the brackets of a query separates all the same, unless a bare comma comes before it
  (`QueryEscapes.EscapesLost`, `QueryEscapes.EscapesKept`).
- What a node is displayed as does not lead back to it if its siblings of the name were removed and its
  index is not 0 (`PropertyIndices.DisplayFindsExactly`).
- Query text is ambiguous where a name may be empty (`QueryText.PrintedQueryReadBack`), and escaped
  splitting where a field before the last ends in a backslash (`SplitString.SplitUndoesJoin`).

## Model

| member | source | states |
|---|---|---|
| Crc16.UpdateCrc | src/base.cpp:456-464 | One byte through the bit loop gives the register after eight shift-and-feedback steps |
| Crc16.ComputeCrc16 | src/base.cpp:466-472 | The loop over the message gives the register of the whole message |
| Crc16.CrcIsPolynomialRemainder | src/base.cpp:456-472 | A register value is the checksum if and only if it is the remainder of m(x) x^16 modulo x^16+x^12+x^5+1, in reflected bit order with initial value 0 |
| Crc16.RemainderUnique | src/base.cpp:456-472 | Two remainders of one message modulo the generator are equal |
| Crc16.CrcLinear | src/base.cpp:466-472 | The checksum of the exclusive or of two equally long messages is the exclusive or of their checksums |
| Crc16.AppendingCrcCancels | src/base.cpp:466-472 | Two more bytes bring the checksum to 0 exactly when they are its low byte and then its high byte |
| Crc16.AdjacentErrorDetected | src/base.cpp:466-472 | Messages of equal length that differ only within two adjacent bytes never have equal checksums |
| Utf8.TruncateUtf8String | src/base.cpp:332-397 | The copy, the search for the last lead byte and the cut together yield the specified prefix |
| Utf8.CutBrokenCharacter | src/base.cpp:344-397 | The character begun last is cut off exactly if bytes of it are missing |
| Utf8.FindCharStart | src/base.cpp:332-397 | Going back over continuation bytes stops at the start of the last character |
| Utf8.TruncatedIsLongest | src/base.cpp:332-397 | For NUL-free well-formed UTF-8 (section 3 of RFC 3629) and every n the result is the longest prefix of at most n bytes that ends on a character boundary |
| Utf8.LongestIsUnique | src/base.cpp:332-397 | There is only one such prefix |
| Utf8.TruncateTwice | src/base.cpp:332-397 | Truncating to m and then to n is truncating to the smaller of them |
| Utf8.TruncatedExactly | src/base.cpp:332-397 | On any bytes, not only UTF-8, the text ends at a NUL, or else loses its last character if the leading byte announces another number of bytes than are there |
| Utf8Encoding.WellFormedIsEncoded | src/base.cpp:332-397 | What counts as well-formed here is exactly what code points are encoded to by section 3 of RFC 3629 |
| Strings.TrimPadded | src/base.cpp:51-58 | Trimming removes exactly the surrounding blanks, tabs and line ends |
| Strings.BlanksTrimmed | src/base.cpp:51-58 | The blanks are spaces, tabs, line feeds and carriage returns, and nothing else is one |
| SplitString.FindAndUnescape | src/base.cpp:221-228 | The position of the first delimiter that no backslash precedes, with the backslashes of all earlier ones removed from the text; the text shrinks in every round |
| SplitString.SplitFields | src/base.cpp:230-271 | The loop over positions and erased characters yields the fields between unescaped delimiters, trimmed if asked for, an empty one behind a final delimiter and none for the empty text |
| SplitString.SplitUndoesJoin | src/base.cpp:230-271 | Splitting the escaped, joined fields gives the fields back if and only if they are not a single empty one and none before the last ends in a backslash |
| SplitString.PrintedFields | src/base.cpp:230-271 | Each field before the last that ends in a backslash swallows the delimiter behind it, and only those do |
| SplitString.PlainFound | src/base.cpp:221-228 | Without backslashes the text is unchanged and the position is that of the first delimiter |
| SplitString.SplitPlainTrimmed | src/base.cpp:230-271 | Splitting undoes `join` for trimmed fields without delimiter or backslash |
| SplitString.SplitTrims | src/base.cpp:230-271 | Where it is asked for, exactly the blanks around each field are removed, and otherwise none |
| Numbers.IntRoundTrip | src/base.cpp:60-69 | Reading a printed 32-bit int gives it back |
| Numbers.UIntRoundTrip | src/base.cpp:82-91 | Reading a printed 32-bit unsigned int gives it back |
| Numbers.NatToStringInjective | src/base.cpp:162-196 | Different numbers print differently |
| Numbers.AtoiReads | src/propertysystem.cpp:404 | atoi reads the decimal number behind white space and a sign, and disregards what follows it |
| NumberTexts.PrefixedRead | src/base.cpp:60-101 | Text reads as hexadecimal behind 0x or 0X, in digits of either case, and as octal behind 0, after white space and a sign |
| NumberTexts.NoNumber | src/base.cpp:60-101 | The empty text and text with a character that no number has are refused |
| NumberTexts.TextBehindRefused | src/base.cpp:60-101 | A decimal with anything but digits behind it is refused |
| NumberTexts.PartsRefused | src/base.cpp:60-101 | Prefixes and signs alone are refused, and octal and hexadecimal numbers with a digit too large |
| NumberTexts.SpacesSkipped | src/base.cpp:60-101 | All six characters of white space are skipped |
| NumberTexts.NulEnds | src/base.cpp:60-69 | Text with a NUL reads as what comes before it, and as 0 if that is nothing |
| NumberTexts.ReadsModulo | src/base.cpp:60-101 | A printed number of 64 bits reads as the int, or the unsigned int, that is equal to it modulo 2^32 |
| NumberTexts.ReadsSaturated | src/base.cpp:60-101 | Beyond 64 bits it reads as the low half of the largest or the smallest number |
| SensorLog.SensorLog.PacketAppend | src/sensor_data_uploader.cpp:95-102 | A prefix of the queue that fits moves to the end of the packet |
| SensorLog.SensorLog.SendPacket | src/sensor_data_uploader.cpp:107-148 | The whole state after deciding on and filling the next packet, and whether it is uploaded |
| SensorLog.SensorLog.Done | src/sensor_data_uploader.cpp:198-232 | A network error ends the run and keeps the packet; every other reply calls for the next one |
| SensorLog.SensorLog.Append | src/sensor_data_uploader.cpp:151-177 | An event is queued unless its queue is full; only an accepted high-priority one triggers |
| SensorLog.SensorLog.TriggerUpload | src/sensor_data_uploader.cpp:179-196 | A run starts exactly when none is pending and something waits |
| SensorLog.SensorLog.ClearPending | src/sensor_data_uploader.cpp:107-232 | A refused upload or a network error ends the run and nothing else |
| SensorLog.StepKeepsInv | src/sensor_data_uploader.cpp:95-232 | Every step of every thread keeps conservation, bounds, single flight and the count of the run |
| SensorLog.EveryRunConserves | src/sensor_data_uploader.cpp:95-232 | In every interleaving, for each class the accepted events are the discharged ones, those in the packet and those queued, in this order |
| SensorLog.EveryRunIsSingleFlight | src/sensor_data_uploader.cpp:95-232 | At most one upload is under way, a sent packet holds 1 to 50 events, and the queues stay within 400 and 1000 |
| SensorLog.PacketStableInFlight | src/sensor_data_uploader.cpp:107-232 | The packet handed to the uploader does not change before its reply |
| SensorLog.RetryKeepsPacket | src/sensor_data_uploader.cpp:107-148 | The packet after a network error begins with the events of the failed one |
| SensorLog.QuietStepLowersRank | src/sensor_data_uploader.cpp:107-232 | Without appends and failures every step lowers a rank, so that a run of uploads ends |
| SensorLog.QuietRunDrains | src/sensor_data_uploader.cpp:107-232 | Such a run, in which triggers may come at any time, has at most as many steps as its rank besides the triggers, and ends with no high-priority event and fewer than 50 others |
| SensorLog.TicklePrevention | src/sensor_data_uploader.cpp:107-148 | In one run of uploads the packets that are not full although no high-priority event forced them outnumber the forced ones that are not full by at most one; without forced packets at most one is not full |
| SensorDelivery.EveryRunDischargesAnswered | src/sensor_data_uploader.cpp:107-232 | In every interleaving what is discharged is, in order, the packets handed over whose own reply was no network error |
| SensorDelivery.EveryRunDelivers | src/sensor_data_uploader.cpp:95-232 | In every interleaving and for each class, the events that found room are those of the answered packets, of the packet not answered yet, and of the queue, in this order; all of it read off the steps |
| SensorDelivery.KeptUntilAnswered | src/sensor_data_uploader.cpp:204-211 | A packet that is not answered stays the front of the packet over any steps and uploads until some reply answers it, and nothing is discharged meanwhile |
| SensorDelivery.FailedPacketKept | src/sensor_data_uploader.cpp:204-211 | So does the packet in flight that a network error hits |
| SensorDelivery.PacketFilled | src/sensor_data_uploader.cpp:95-141 | A packet is filled up to 50 events, first from the high-priority queue and then from the other |
| SensorDelivery.HighPrioFirst | src/sensor_data_uploader.cpp:139-140 | In the part that is new no other event precedes a high-priority one, and none is taken while a high-priority one stays queued |
| SensorDelivery.TriggerStartsExactly | src/sensor_data_uploader.cpp:179-196 | With no upload under way a trigger starts one if and only if something accepted is not discharged |
| SensorDelivery.SendsExactly | src/sensor_data_uploader.cpp:107-148 | When a packet is uploaded: always after a trigger, and after a reply for high-priority events, for 50 others, or for fewer if the packets of the run add up to a multiple of 50 |
| DeviceSet.CombineIsUnion | src/model/set.cpp:323-331 | combine yields the union, the other set first, without duplicates |
| DeviceSet.RemoveIsDifference | src/model/set.cpp:333-339 | remove yields the difference |
| DeviceSet.FilterDistinct | src/model/set.cpp:77-100 | A subset selected by a property has no duplicates and no foreign devices |
| SetBuilder.Builder.SkipWhitespace | src/setbuilder.cpp:52-56 | The index moves to the next character that is no white space |
| SetBuilder.Builder.ReadParameter | src/setbuilder.cpp:58-70 | The text up to the next comma or bracket, or an error without one |
| SetBuilder.Builder.ReadInt | src/setbuilder.cpp:72-74 | The parameter as a number, or the error of one that is none |
| SetBuilder.Builder.ReadDsid | src/setbuilder.cpp:76-87 | The parameter as a dSUID |
| SetBuilder.Builder.ReadString | src/setbuilder.cpp:89-100 | The parameter without its quotes, or an error |
| SetBuilder.Builder.RestrictBy | src/setbuilder.cpp:170-194 | A device name of the context, then a group, then a zone, then nothing |
| SetBuilder.Builder.ReadDevices | src/setbuilder.cpp:151-163 | The loop of addDevices adds every device its parameters name |
| SetBuilder.Builder.RestrictByFunction | src/setbuilder.cpp:102-168 | The result of a function call and the index behind its bracket, or the error of a superfluous parameter |
| SetBuilder.Builder.ParseSet | src/setbuilder.cpp:197-244 | The recursive descent over entries, function calls and leading dots |
| SetBuilder.Builder.BuildSet | src/setbuilder.cpp:246-272 | The context and the devices a description starts from, and its evaluation |
| SetParsing.SetAt | src/setbuilder.cpp:197-244 | On every text, well-formed or not, parsing terminates with a result or an error, and the index never moves back |
| SetParsing.CallAt | src/setbuilder.cpp:102-168 | A function call that returns has moved the index forward and not past the end |
| SetParsing.ParameterAt | src/setbuilder.cpp:58-70 | A parameter that is read ends at a comma or a closing bracket |
| SetExpression.BuildSetDenotes | src/setbuilder.cpp:197-272 | buildSet on the text of any well-formed expression tree is the denotation of the tree, for every context |
| SetExpression.ExprAt | src/setbuilder.cpp:197-244 | Inside any longer text, an expression is evaluated to its denotation, or fails as it does, and the index ends behind it |
| SetExpression.StepAt | src/setbuilder.cpp:197-244 | One step of a chain restricts the devices before it, and evaluation goes on behind the dot |
| SetExpression.FunctionAtOp | src/setbuilder.cpp:102-168 | A printed function call is evaluated to the denotation of the operation |
| SetExpression.ReferencesAt | src/setbuilder.cpp:151-163 | A printed list of devices is added from left to right |
| SetExpression.DenoteDistinct | src/setbuilder.cpp:102-244 | No evaluation yields a device twice |
| SetExpression.AddRemoveAlgebra | src/setbuilder.cpp:143-148 | add unites with, and remove takes away, what the operand denotes over the devices of the context group |
| SetSelection.OpSelects | src/setbuilder.cpp:102-194 | Which devices, by their fields and in which order, each step but add and remove makes of those before it, or its error |
| SetSelection.RestrictedSelects | src/setbuilder.cpp:170-194 | A bare name selects the device of the context group that has it, else a group whatever zones there are, else a zone, else nothing |
| SetSelection.FirstStepSelects | src/setbuilder.cpp:197-272 | So does the text of a first step, from what the empty text or a dot stands for |
| SetSelection.NextStepSelects | src/setbuilder.cpp:197-272 | So does the text of one more step behind any text that is evaluated |
| SetSelection.StartSets | src/setbuilder.cpp:246-272 | What the empty text, a dot, and a dot behind white space or another dot stand for |
| SetSelection.WordCalls | src/setbuilder.cpp:110-163 | The functions are called as they are spelt there |
| SetSelection.QuotedCalls | src/setbuilder.cpp:110-163 | With their quoted parameters, too |
| SetSelection.NestedCalls | src/setbuilder.cpp:110-163 | And with an expression, or nothing, in the brackets |
| SetSelection.SuperfluousParameter | src/setbuilder.cpp:160-164 | A second parameter is refused, whatever the first one selects |
| PropertyQuery.Query.EvalPropertyList | src/propertyquery.cpp:93-125 | One key, the texts in its brackets and the rest of the input, or the error of a missing bracket |
| PropertyQuery.Query.SplitKeyValue | src/propertyquery.cpp:80-91 | Names and values of the properties, or the error of an empty one |
| PropertyQuery.Query.ParseComponent | src/propertyquery.cpp:61-74 | The parts of one path component, only the first of them a child; every round consumes input |
| PropertyQuery.Query.ParseParts | src/propertyquery.cpp:59-78 | The part list of a query, without its first part where a separator trails |
| PropertyQuery.EvalKey | src/propertyquery.cpp:93-125 | What is left of the input is shorter, or nothing is left |
| QueryText.PrintedQueryReadBack | src/propertyquery.cpp:59-125 | Parsing a printed query of plain names yields its parts with the right child flags if and only if no property, no last key of several and not the whole query prints as nothing |
| QueryText.PrintedQueryRead | src/propertyquery.cpp:59-125 | What parsing makes of every printed query of plain names, the ambiguous ones included |
| QueryText.ComponentReadBack | src/propertyquery.cpp:61-74 | What parsing makes of a printed path component |
| QueryText.KeyBehindBrackets | src/propertyquery.cpp:94-125 | Text right behind the brackets of a key is another key |
| QueryText.PaddedPairRead | src/propertyquery.cpp:80-91 | Blanks around name and value of a property do not count |
| QueryText.BlankPropertyRefused | src/propertyquery.cpp:80-91 | A property of blanks is an error, empty brackets are none |
| QueryText.TrailingDropsFirst | src/propertyquery.cpp:75-77 | A trailing separator drops the first part, whichever it is |
| QueryEscapes.EscapedName | src/propertyquery.cpp:94-101 | A key may have commas in its name if they are escaped |
| QueryEscapes.EscapesLost | src/propertyquery.cpp:94-119 | Where no comma before or in the brackets is bare, every escaped comma in them separates |
| QueryEscapes.EscapesKept | src/propertyquery.cpp:94-119 | Behind a property that a bare comma ends an escaped comma does not separate, and escapes behind the brackets are taken away |
| ElementTree.SetupMessage | src/protobufjson.cpp:149-169 | The elements added under the root are fresh and show exactly the forest of the parts; what was there stays |
| ElementTree.AddProperties | src/protobufjson.cpp:153-159 | One element with name and value text for each property, in order |
| ElementTree.ForestNests | src/protobufjson.cpp:149-169 | Each path component nests under the last key of the one before it |
| ElementTree.ForestPreorder | src/protobufjson.cpp:149-169 | Every part and every property occurs exactly once, in the order of the query |
| ElementTree.FirstFlagIgnored | src/protobufjson.cpp:149-169 | The child flag of the first part makes no difference |
| PropertyNode.TreeNode.Count | src/propertysystem.cpp:444-461 | How many children have a name |
| PropertyNode.TreeNode.GetPropertyByName | src/propertysystem.cpp:411-442 | The first child with the name and index, the last of the name where that is asked for, or none |
| PropertyNode.TreeNode.GetProperty | src/propertysystem.cpp:371-389 | The node at the position the path resolves to, or none |
| PropertyNode.TreeNode.AddChild | src/propertysystem.cpp:329-358 | The child comes last, with the next free index of its name; no other node changes |
| PropertyNode.TreeNode.RemoveChild | src/propertysystem.cpp:311-327 | The child and its subtree are detached unchanged, the siblings stay in order |
| PropertyNode.TreeNode.CreateProperty | src/propertysystem.cpp:837-865 | The tree afterwards and the node at the position created or found, or the error of an empty name |
| PropertyPaths.RunKeepsCompact | src/propertysystem.cpp:329-358 | In every run without removals same-named siblings carry the indices 0, 1, 2 and so on |
| PropertyPaths.RunKeepsDistinct | src/propertysystem.cpp:311-358 | In every run, removals included, the indices of same-named siblings stay distinct |
| PropertyPaths.EveryRunIndexed | src/propertysystem.cpp:311-358 | Both from the root of a new tree on |
| PropertyPaths.CreateThenGet | src/propertysystem.cpp:371-442 | getProperty on a plain path finds the node createProperty returned for it if and only if the path meets no index gap |
| PropertyPaths.CompactMeetsNoGap | src/propertysystem.cpp:411-442 | Without removals no path meets a gap |
| PropertyPaths.CreateExisting | src/propertysystem.cpp:837-865 | Creating what a path resolves to changes nothing and returns it |
| PropertyPaths.CreateKeepsPaths | src/propertysystem.cpp:837-865 | Every path that resolved still resolves to the same node, unless a component asks for the last sibling |
| PropertyPaths.RunKeepsPaths | src/propertysystem.cpp:329-442 | So does every run without removals |
| PropertyPaths.CreatedStaysFound | src/propertysystem.cpp:371-442 | In every run without removals, what createProperty returned for a plain path is what getProperty finds for it at the end |
| PropertyPaths.CreateAddsMissing | src/propertysystem.cpp:837-865 | Exactly the chain of missing nodes is added, below the deepest existing one |
| PropertyPaths.PlusIsLast | src/propertysystem.cpp:391-442 | name[last] finds what name+ created, if and only if no child is called "name+" |
| PropertyPaths.RemovalLeavesGap | src/propertysystem.cpp:411-442 | After the child a name selects is removed the name selects nothing, and meets a gap exactly if siblings of the name are left |
| PropertyIndices.FoundByIndex | src/propertysystem.cpp:391-442 | name[n] finds exactly the sibling of the name that carries n |
| PropertyIndices.NotFoundByIndex | src/propertysystem.cpp:391-442 | A number that no sibling of the name carries finds nothing |
| PropertyIndices.NegativeIndex | src/propertysystem.cpp:391-442 | The index -1 finds the last sibling of the name, as [last] does, and other negative ones nothing |
| PropertyIndices.FoundByOrdinal | src/propertysystem.cpp:391-442 | Where nothing was removed name[k] is the sibling with k others of its name before it |
| PropertyIndices.DisplayFindsExactly | src/propertysystem.cpp:360-369 | What a node is displayed as leads back to it if and only if it has siblings of its name or the index 0 |
| PropertyIndices.DisplayPathFinds | src/eventinterpretersystemplugins.cpp:121-132 | Where nothing was removed the display names on the way to a node, joined by slashes, lead back to it |
| Listeners.Node.AddListener | src/propertysystem.cpp:819-826 | Node and listener gain one registration each, and the mirror of counts is kept |
| Listeners.Node.RemoveListener | src/propertysystem.cpp:828-835 | On a node that has had a listener: one registration goes from both sides, or nothing changes |
| Listeners.Listener.Unsubscribe | src/propertysystem.cpp:970-976 | The loop ends, because a node in the list holds the listener too, and no node holds it afterwards |
| Listeners.Node.Destroy | src/propertysystem.cpp:227-236 | No listener holds the node afterwards, and the mirror holds for the nodes that are left |
| Listeners.RunKeepsMirror | src/propertysystem.cpp:819-976 | After every run of adding, removing, unsubscribing and destroying the counts agree, and no listener holds a node that is gone |
| PropertySave.XmlWriter.SaveAsXml | src/propertysystem.cpp:867-898 | The tags, attributes and text written for a node and the selected nodes below it |
| PropertySave.XmlWriter.SaveChildrenAsXml | src/propertysystem.cpp:900-911 | The selected children are written in order |
| PropertySave.XmlWriter.SearchFor | src/propertysystem.cpp:913-925 | Whether the node or some node below it has the flags |
| PropertyParser.TreeParser.ElementStart | src/property-parser.cpp:50-260 | The whole state of the loader after a start tag |
| PropertyParser.TreeParser.ElementEnd | src/property-parser.cpp:263-340 | The whole state after an end tag |
| PropertyParser.TreeParser.CharacterData | src/property-parser.cpp:344-370 | Text is collected inside a value only |
| PropertyParser.TreeParser.ReinitMembers | src/property-parser.cpp:372-387 | The state a new document starts from |
| PropertyParser.TreeParser.LoadFromXml | src/property-parser.cpp:389-400 | The state and the result after the callbacks for a whole file |
| PropertyParser.TreeParser.StartProperty | src/property-parser.cpp:120-232 | Attributes, path and flags of a property tag |
| PropertyParser.TreeParser.FindOrCreate | src/property-parser.cpp:173-215 | The loop over the parts of a path reuses nodes and adds those that are missing |
| PropertyParser.TreeParser.CheckVersion | src/property-parser.cpp:71-101 | The document has a version attribute, and each one is the expected number |
| PropertyParser.TreeParser.ReadAttributes | src/property-parser.cpp:130-147 | The last attribute of each known name counts |
| SaveLoad.LoadSaved | src/propertysystem.cpp:66-90 | Loading what was saved into a fresh root of the same name succeeds and rebuilds exactly the root and the selected nodes with names, order, types, values and archive flag; stack and level end as they began |
| SaveLoad.SelectedMeaning | src/propertysystem.cpp:900-925 | A child is written if and only if one node, itself or below it, has every flag that the mask asks for |
| SaveLoad.OneFlagSelects | src/propertysystem.h:473 | With the mask of a single flag, if and only if some node at or below it has that flag |
| SaveLoad.ChildrenRead | src/property-parser.cpp:50-340 | The events of the selected children append them to the node being loaded and change nothing else |
| SaveLoad.DisplayRead | src/propertysystem.cpp:360-369 | The loader drops the index that a display name carries |
| SaveLoad.AttributesRead | src/property-parser.cpp:130-147 | The loader finds name, type, archive and read flag where they were written, and no write flag |
| LoaderMeaning.Texts | src/propertysystem.cpp:1001-1042 | The texts of the types and of the truth values |
| PropertySave.IndentWidth | src/propertysystem.cpp:867-898 | Each level is indented by four blanks |
| LoaderRuns.RoundTrip | src/property-parser.cpp:50-387 | A saved tree comes back as it was if and only if sibling names are distinct and free of slash and bracket, indices are 0, read and write flags are set and doubles survive as text |
| LoaderRuns.ChunkingIrrelevant | src/property-parser.cpp:344-370 | How character data is cut into callbacks makes no difference |
| LoaderRuns.DocumentBalanced | src/property-parser.cpp:263-296 | For every well-nested document the stack is never popped empty, and unless the loader gives up the level returns to 0 and the stack to what it was |
| LoaderRuns.RunShaped | src/property-parser.cpp:173-215 | Whatever is loaded into a fresh root has distinct sibling names free of slash and bracket, with index 0 |
| LoaderMeaning.DocumentReads | src/property-parser.cpp:50-370 | Into whatever tree, the loader makes of every document whose values hold only text what a reading of the document as a tree makes of it, and gives up exactly where that does |
| LoaderMeaning.ContentReads | src/property-parser.cpp:122-370 | So within a property, for properties in it, values, and other elements |
| LoaderMeaning.OuterReads | src/property-parser.cpp:101-120 | So within the outermost element, where elements that are no properties are skipped with all they hold |
| LoaderMeaning.LastMeaning | src/property-parser.cpp:130-147 | Of several attributes of a name the last one counts |
| LoaderPaths.WalkCreates | src/property-parser.cpp:176-214 | A plain path in a name leads where createProperty leads, and adds what it adds |
| LoaderPaths.WalkDropsIndex | src/property-parser.cpp:197 | Whatever sibling a name asks for in brackets is disregarded |
| LoaderPaths.OuterReuses | src/property-parser.cpp:204-206 | On the outermost level every part that is the name of the root leads back to it |
| Schedule.ICalIterator.LeapAdjust | src/datetools.cpp:521-531 | Exactly the occurrences before a time are skipped, and counted; the time is compared with readings of the calendar |
| Schedule.ICalIterator.GetNextOccurrence | src/datetools.cpp:533-556 | The next occurrence as a point in time, consumed exactly if the argument plus the UTC offset has reached its reading, or the null date at the end |
| Schedule.ICalIterator.constructor | src/datetools.cpp:500-514 | A new schedule stands at its first occurrence that is not past |
| Schedule.StaticPass | src/event.cpp:929-994 | A one-shot schedule is raised and ended by the pass that finds it due and left alone before |
| Schedule.RecurringPass | src/event.cpp:929-994 | Whatever the UTC offset, one pass raises once, however many occurrences are overdue, and what it leaves is given |
| Schedule.DroppedExactly | src/event.cpp:971-981 | A raise drops an occurrence if and only if leapAdjust passes over it or the look a second ahead does |
| Schedule.PassMovesOn | src/event.cpp:971-981 | After a raise nothing is left before the next second by the clock that leapAdjust is called with |
| Schedule.NothingDueExactly | src/event.cpp:971-981 | No raise leaves an occurrence that is due, if and only if the start is in UTC or the zone is not ahead of UTC |
| Schedule.OverdueLeft | src/event.cpp:978 | The instance for every zone ahead of UTC |
| Schedule.LookAheadLoses | src/event.cpp:970-974 | An occurrence one second after the one raised is lost if and only if the start is in local time or the zone is not behind UTC |
| Schedule.RaisedDistinct | src/event.cpp:939-982 | Over all passes, whatever the UTC offset, each raise has an occurrence of the schedule that was due, and no two share one |
| Schedule.LostExactly | src/event.cpp:939-982 | Over all passes, whatever the UTC offset, an occurrence is neither raised nor left if and only if the raise of an earlier one took it along or a pass took it before it was due |
| Schedule.AsInUtcExactly | src/datetools.cpp:521-555 | What is lost is always lost as it would be in UTC, if and only if the offset is 0 |
| Schedule.OffsetMatters | src/datetools.cpp:521-555 | An instance for every other offset: occurrences kept or lost east and west of UTC, for starts in local time and in UTC |
| Events.StrippedHasNoSchedule | src/event.cpp:681-755 | A raised event has lost its schedule properties, so pushEvent takes the queue branch and does not come back to the runner |
| Events.IdsDiffer | src/event.cpp:1137-1145 | Events scheduled under different counters have different IDs |
| PushedEvents.QueuedExactly | src/event.cpp:732-754 | An event without a schedule is added to the queue if and only if it is not unique or no queued event has its name, context and location; otherwise the first of these takes its properties and its time, and nothing else changes |
| PushedEvents.AddedExactly | src/event.cpp:884-920 | The same for an event with a schedule and the pending ones, of which the one merged into keeps its ID and its schedule; showing a new one may throw, and then it is not added |
| PushedEvents.RelativeTime | src/event.cpp:685-700 | The time "+n" is n seconds away, without a schedule if n is not positive |
| PushedEvents.AbsoluteTime | src/event.cpp:701-716 | Any other time is a date or no schedule, whatever recurrence stands beside it |
| PushedEvents.RecurrenceTimes | src/datetools.cpp:500-514 | A recurrence has exactly the occurrences of its rule and start that are not past, by the clock of its start |
| PushedEvents.PushedRecurrence | src/event.cpp:725-731 | A recurring event that replaces none is pending with these occurrences and with its fields as they were |
| PushedEvents.PushedRelative | src/event.cpp:725-731 | One with a relative time is pending and due that many seconds later |
| PushedEvents.RaisedFields | src/event.cpp:957-966 | A raised event loses its time and its recurrence and keeps everything else |
| PushedEvents.IdText | src/event.cpp:1137-1145 | The ID of an event is the number of those scheduled before it, the time and its name |
| EventMonitor.GoesExactly | src/event.cpp:825-872 | The removal of a pending event removes it if and only if there is no monitor node, or the ID leads to no node in it, or to one that is named by the whole ID |
| EventMonitor.PassedExactly | src/event.cpp:929-994 | What is pending of each ID after a pass, whatever the names: nothing if some removal comes down to it, else what its schedule alone makes of it |
| EventMonitor.PlainPass | src/event.cpp:833-872 | While IDs have no slash and no bracket a pass removes exactly the events that have ended |
| EventMonitor.PlainId | src/event.cpp:1137-1145 | An ID has no slash and no bracket if and only if the name of its event has none |
| ShownEvents.AddedShows | src/event.cpp:908-912 | An event that is added is shown with its ID and its name under its ID |
| ShownEvents.TouchedShows | src/event.cpp:947-952 | A pass over it shows its time and the seconds until then |
| ShownEvents.RemovedHides | src/event.cpp:833-845 | Removing an event takes its node from the monitor node and leaves the others as they are |
| ShownEvents.ThrowLeavesNode | src/event.cpp:907-916 | Where its ID has two slashes in a row it is not added, and a node of the ID stays |
| EventLoop.EventQueue.PushEvent | src/event.cpp:725-755 | An event with a schedule goes to the runner; any other is merged into a queued one it replaces, or appended |
| EventLoop.EventQueue.PopEvent | src/event.cpp:770-778 | The first queued event, or none |
| EventLoop.EventRunner.AddEvent | src/event.cpp:884-920 | A unique event is merged into the first pending one it replaces; any other is shown in the monitor node and becomes pending, or the exception of the former is passed on |
| EventLoop.EventRunner.RemoveEvent | src/event.cpp:825-845 | The node the ID leads to goes if it is a child of the monitor node, and the event goes whose ID is the name of that node, or the ID itself without one |
| EventLoop.EventRunner.RemoveEventInternal | src/event.cpp:859-872 | The first event with the ID goes, the others stay in order |
| EventLoop.EventRunner.RaiseIfDue | src/event.cpp:938-982 | What one pass does to one pending event, to the monitor node and to the queue |
| EventLoop.EventRunner.RaisePendingEvents | src/event.cpp:929-994 | The pending events, the monitor node, the queue and the result after a pass over all of them and its removals |
| EventRuns.QueueIsReplay | src/event.cpp:725-994 | In every run the queue is what its history of pushes by callers, pushes by the runner and pops makes of it |
| EventRuns.RaisesArePushed | src/event.cpp:929-994 | The raises of a pass are, one by one, the events it pushes to the queue |
| EventRuns.OneShot | src/event.cpp:929-994 | Over every run in which removals hit, a one-shot event is pushed to the queue exactly by the first pass at or after its time, as it is pending then and without its schedule, never before and never again |
| EventRuns.PlainRunIsClean | src/event.cpp:833-872 | In every run in which names have no slash and no bracket removals hit |
| StuckEvents.SlashNeverEnds | src/event.cpp:833-842 | An event named a/b with the time "+5" is raised by every pass from then on |
| StuckEvents.ZeroIndexRaisedAgain | src/event.cpp:833-842 | An event named a[0] with the time "+5" is raised again by the pass after the one that raised it |
| EventRuns.NotDueUntouched | src/event.cpp:929-994 | A pass leaves every event that is not due exactly as it was, but for an occurrence it takes too early |
| EventRuns.Recurring | src/event.cpp:939-982 | Over every run in which removals hit, and whatever the UTC offset, a recurring event is pushed exactly when, and for the occurrences that, the passes of the run over its schedule give, and what they leave stays pending |
| EventRuns.OccurrenceLost | src/event.cpp:939-982 | So over a run an occurrence is never raised and no longer pending if and only if an earlier raise took it along or a pass took it too early; at offset 0, if and only if it was due with an earlier raise, or next and a second away |
| EventRuns.PassRaises | src/event.cpp:929-994 | One pass pushes an event at most once, for the occurrence its schedule gives, and what it pushes is the pending event of that ID without its schedule |
| EventRuns.InvalidTimeQueued | src/event.cpp:681-732 | An event with a time goes to the queue at once, and not to the runner, if and only if it says so by an offset of 0 or is neither a positive offset nor a date |
| EventRuns.InvalidTimeExample | src/event.cpp:681-732 | The time "+x" is invalid and queued at once |
| EventRuns.PushedIsPending | src/event.cpp:725-731 | An event with a schedule that replaces none becomes pending under a new ID, if and only if showing it in the monitor node does not throw |
| EventRuns.EveryRunKeepsInv | src/event.cpp:725-994 | In every run pending events have distinct IDs and valid schedules |
| UniqueEvents.RunKeepsOne | src/event.cpp:733-754 | While all events of a key are unique, no reachable state has two of them pending or queued |
| UniqueEvents.MergingNeverPostpones | src/event.cpp:884-920 | However often it is raised again, a pending unique event keeps the time it was first accepted with and carries the properties of the last one merged |
| UniqueEvents.PushedWithLastProperties | src/event.cpp:884-994 | The first pass that finds it due pushes it, once, with the properties merged last but no schedule, and it is then the one event of its key in the queue |
| RunnerRaces.MergeLostExactly | src/event.cpp:884-994 | A unique event that is merged between a pass and its removals is lost with the event it is merged into, without being raised, if and only if the pass has noted the removal of that one |
| RunnerRaces.MergeCanBeLost | src/event.cpp:989-993 | An instance: merged into a one-shot event that the pass has raised |
| RunnerRaces.LoopAndRemovals | src/event.cpp:929-994 | With nothing in between, the loop and its removals are a whole pass |
| QueueWait.EveryRunIsOrderedAndPrompt | src/event.cpp:733-788 | In every interleaving events are popped in the order they were appended, and at most one timed wait ends before waitForEvent returns true for a queue that holds an event |
| QueueWait.NoStuckEvent | src/event.cpp:780-788 | With an event queued every step of the consumer brings it nearer to finding it, and no other thread's step delays it |
| QueueWait.AtMostOneWait | src/event.cpp:780-788 | With an event queued, in any run that takes none at most one wait ends, and then the consumer has found the event |
| QueueWait.UndisturbedPush | src/event.cpp:732-754 | The steps of a pushing thread with nothing in between do to the queue what pushEvent does, and signal exactly if an event was added |
| QueueRaces.WokenExactly | src/syncevent.cpp:50-80 | In every run a waiting consumer can be woken if and only if some thread has signalled since it began to wait |
| QueueRaces.LostExactly | src/event.cpp:780-788 | While the consumer waits, every queued event was appended after it had looked, and only the time-out can end the wait if and only if every signal since that look came before the wait began |
| QueueRaces.WakeupCanBeLost | src/syncevent.cpp:66-80 | A run from the start in which this happens to the only event |
| QueueRaces.OverlapBreaks | src/event.cpp:733-754 | A step keeps at most one event of a key queued or about to be, all of them unique, if and only if it is no search for the key while another thread is about to append one |
| QueueRaces.OneWithoutOverlap | src/event.cpp:733-754 | The same over every run from the start |
| QueueRaces.OverlapQueuesTwo | src/event.cpp:733-754 | After such a search the next step of each of the two threads makes two queued events of the key |
| QueueRaces.TwoUniqueQueued | src/event.cpp:733-754 | A run from the start in which this happens |
| Subscriptions.EventInterpreter.SubscriptionById | src/event.cpp:505-517 | A subscription of the ID, if there is one |
| Subscriptions.EventInterpreter.UniqueSubscriptionId | src/event.cpp:519-526 | The first free candidate, found after at most one more lookup than there are subscriptions |
| Subscriptions.UniqueIdMeaning | src/event.cpp:519-526 | The proposal where it is free, else the proposal with the first number behind it that makes it free |
| Subscriptions.EventInterpreter.Subscribe | src/event.cpp:472-477 | The subscription is added at the end |
| Subscriptions.EventInterpreter.Unsubscribe | src/event.cpp:479-489 | The first subscription with the ID goes, the others stay in order |
| Subscriptions.Pigeonhole | src/event.cpp:519-526 | N subscriptions cannot take N + 1 candidates |
| RelaySessions.InternalRelay.HandleEvent | src/eventinterpreterplugins.cpp:661-666 | The target registered for the subscription; an unknown ID gets an empty entry |
| RelaySessions.SubscriptionSession.SubscribeTo | src/eventcollector.cpp:63-77 | A new ID enters interpreter, relay and collector |
| RelaySessions.SubscriptionSession.UnsubscribeFrom | src/eventinterpreterplugins.cpp:640-649 | The ID leaves interpreter and collector, and its relay entry is emptied |
| RelaySessions.SubscriptionSession.Subscribe | src/eventsubscriptionsession.cpp:47-56 | An earlier subscription to the event ends, and the name maps to the new ID |
| RelaySessions.SubscriptionSession.Unsubscribe | src/eventsubscriptionsession.cpp:58-68 | The subscription of the event ends, or the error of a name that is not subscribed leaves all as it was |
| RelaySessions.SubscriptionSession.Drain | src/eventinterpreterplugins.cpp:628-632 | The loop of the destructor ends every subscription of the collector |
| RelaySessions.EveryRunAgrees | src/eventsubscriptionsession.cpp:47-68 | Over every run of any number of sessions, closings included, each subscribed event name has exactly one live subscription of its session, no other name has any, and the interpreter lists no subscription of the relay but these |
| RelaySessions.RunKeepsAgreement | src/eventinterpreterplugins.cpp:628-674 | After every run interpreter list, relay map, collector lists and session maps agree: what one of them holds of the relay, the others hold |
| RelaySessions.OthersUntouched | src/eventsubscriptionsession.cpp:47-68 | Over every run of the sessions the subscriptions of other handlers stay as they were, in their order |
| RelaySessions.NewIdText | src/eventcollector.cpp:63-77 | The ID of a subscription is event and relay name, with a number behind it only where that is taken |
| RelaySessions.DrainedEmpty | src/eventinterpreterplugins.cpp:628-632 | Closing a session leaves in the interpreter exactly the subscriptions that were not its own, and in the relay no target for its own |

## Left out

- SplitString.FindAndUnescape: the delimiter is not a backslash, and a start position on a delimiter has no backslash before it; the callers of the source meet both.
- SplitString.SplitFields: the delimiter is not a backslash.
- SensorLog.SensorLog.SendPacket: m_upload_run is an unbounded integer here; the model does not capture its wrap-around after 2^31 events in one run.
- SensorLog.EveryRunConserves: the uploader calls back exactly once if and only if it took the packet; the web service, its retries and its JSON are not part of this model.
- SetBuilder.Builder.ReadDsid: how text becomes a dSUID is a parameter of the apartment; so are zones and groups by name.
- LoaderMeaning.DocumentReads: a value element that holds other elements is covered by the other results about the loader only.
- SetExpression.BuildSetDenotes: white space inside names, and text that no expression tree prints as, are covered by SetParsing.SetAt only.
- ElementTree.SetupMessage: values stay text; their conversion to typed protobuf values, and the variants that start a message, are not modelled.
- PropertyNode.TreeNode.AddChild: the child has no parent yet; moving a node from another parent is not modelled.
- PropertyNode.TreeNode.RemoveChild: the node is a child of the one it is removed from.
- PropertyParser.TreeParser.ElementStart: the tree that is loaded into is a value and node pointers are positions in it; an unknown type, which fails an assertion in the source, stops the loader.
- PropertySave.XmlWriter.SaveAsXml: output is a sequence of tags and texts; a node whose child list was emptied is written with the white space of an open element.
- SaveLoad.LoadSaved: doubles are opaque, and their printing and reading are parameters; strings hold no NUL and integers fit their C++ types.
- Schedule.ICalIterator.constructor: the occurrences libical will yield are known in advance, and the UTC offset of the zone does not change during a run.
- EventLoop.EventRunner.RaisePendingEvents: events are values, so that properties merged into a recurring event do not reach an occurrence of it that is still queued; the values in the monitor node, an exception while a pass shows an event there, and a runner without a queue are not modelled.
- EventLoop.EventQueue.PushEvent: the time is a parameter, and the event counter does not wrap around.
- UniqueEvents.RunKeepsOne: one call at a time; QueueRaces.OneWithoutOverlap and RunnerRaces.MergeLostExactly are the statements about interleaved calls.
- RelaySessions.SubscriptionSession.Subscribe: the collector is created with the session and not with its first use.
- Notification of property listeners: callbacks may change the lists being walked in any way.
- Property aliases and proxies: an alias does not detach from an earlier target, so no two-way invariant holds.
- XML escaping and the bytes of XML documents: left to the XML library; the model starts at its callbacks.
- Running property queries, the JSON they produce, and filters of event subscriptions.
- HTTP, Avahi, sqlite, mail, files, logging, process start-up and signals: no logic of their own.
- JavaScript contexts and plug-ins, scene access, structure changes and monitoring tasks: they rest on classes that are not part of this model.
