# Dafny model of QUINTSES: XML, queues and replication

The project models three parts of the repository and proves what they are for.

**RapidXML.** `Parser.dfy` is a pure parser of zero-terminated text; `Printer.dfy` is the printer with its loops
and the text it must produce. `RoundTrip.dfy` shows what comes back when any tree is printed and parsed, with and
without indentation; `NormalForm.dfy` says what that is and for which trees it is the tree itself, `Reparse.dfy`
for which parsed texts. `References.dfy` does the same for escapes and for numeric references, on the byte level of
UTF-8.
`InPlace.dfy` and `InPlaceParser.dfy` are the destructive parser over an array: it overwrites the text that it
reads, drops terminators over delimiters and keeps names and values as slices of the same array, and it is proved
to compute what the pure parser computes from the original text (`Layout.dfy` says how the result lies in the
buffer). `Translation.dfy` relates the default flags to the non-destructive ones and to validated closing tags, and
`ElementValues.dfy` says when the values of elements follow. `Grammar.dfy` is the language itself, by how a document
can be written and what it denotes; `GrammarParse.dfy` and `GrammarComplete.dfy` show that the parser accepts just
that language and gives just those trees. `Spelling.dfy` says the same of references, by a table of the predefined
names, and `Lines.dfy` how a printed document is laid out.
`Arena.dfy` is the bump allocator with its address arithmetic, `Dom.dfy` the intrusive child list and the deep copy
of a node. `Text.dfy`, `CharRefs.dfy` and `Bits.dfy` hold the character tables, the references and the bitwise
operators.

**The message queues.** `LocklessQueue.dfy` and `LockedQueue.dfy` are state machines over atomic steps, with any
number of producers and one consumer, as the repository uses them. The lock-free queue is a stack; it is the
locked one that keeps the order.

**Replication.** `WireCodec.dfy` and `SocketWrapper.dfy` are the encoding of messages and its reading and writing
on a stream. `Replication.dfy` is the protocol between server, clients and physics thread as a state machine with
queues that keep the order; `Server.dfy` has the server, the physics bookkeeping and the client's display as
objects whose methods perform the steps of that machine. `StackReplication.dfy` is the same protocol over the
lock-free queues, which is what the default build has: it says which runs keep the clients' displays and the
physics thread in step, and what goes wrong in the others. `StackOrder.dfy` is about lists of additions and
removals taken in either order. `Display.dfy` says what a client shows of each object, `Inputs.dfy` that input reaches
the characters.

Some things the code does that its documentation does not say:

- The lock-free queue delivers last in, first out, although it is named a queue (`core/util/queue.hpp:58-93`), and
  it is the one in use unless `QNT_USE_LOCKED_QUEUE` is defined. Over it `Replication.NoGhosts` and
  `Replication.PhysicsAgrees` fail (`StackReplication.GoneAtOnce`): they hold if and only if no player disconnects
  while its announcement waits for a client, or its character waits to be made (`StackReplication.StackGhosts`,
  `StackReplication.StackPhysics`).
- Looking up a client that is not loaded enters it with identifier 0 (`server/localserver.hpp:41`), and loading a
  player twice strands a character; both come with the exact condition under which all is well.
- A string with a NUL arrives cut short, and one of 2^32 - 1 bytes has no buffer (`core/util/socket.hpp:18-26`).
- An element whose first text starts with a reference to NUL takes its value from a later text
  (`3rdparty/rapidxml/rapidxml.hpp:1979-1982`).
- A closing tag may carry any name unless `parse_validate_closing_tags` is given, and the repository's own world file
  needs that (`data/world.xml:16`); `GrammarComplete.MismatchedParses` is the case.
- A decimal reference may hold hexadecimal digits, which count 10 to 15 in base ten
  (`3rdparty/rapidxml/rapidxml.hpp:1667-1678`), and a NUL ends the text wherever it stands.

## Model

| member | source | states |
|---|---|---|
| RoundTrip.PrintThenParse | 3rdparty/rapidxml/rapidxml_print.hpp:107-294 | parsing the print of a document gives the document back if and only if it is in normal form (no NUL, no blank text, no two texts side by side, elements with their first text as value, and under indentation text only where it stands alone), with closing tags validated or not |
| RoundTrip.PrintedReread | 3rdparty/rapidxml/rapidxml_print.hpp:107-294 | what parsing the print of any document gives whose names can be written and whose sections hold no end mark, with or without indentation: the error for a NUL, or the tree with its texts gathered between tags, blank ones dropped and all indentation in them |
| RoundTrip.IndentationIsInvisible | 3rdparty/rapidxml/rapidxml_print.hpp:169-174 | the indented and the unindented text of a document that survives without indentation parse to the same result if and only if all its text stands alone |
| RoundTrip.IndentationShows | 3rdparty/rapidxml/rapidxml_print.hpp:169-174 | the tree of `<a>x<b/></a>` comes back without indentation and does not come back with it |
| RoundTrip.NodeRereads | 3rdparty/rapidxml/rapidxml.hpp:2037-2077 | the text of one node, at any depth and in any surroundings, parses to the node that is to be read there and the parser stops right behind it, or fails if it holds a NUL |
| RoundTrip.ContentsReread | 3rdparty/rapidxml/rapidxml.hpp:2167-2233 | the printed contents of an element, from any of its children on and behind any text not yet read, parse to the children that are to be read there, and the element adopts their first text |
| RoundTrip.TextParses | 3rdparty/rapidxml/rapidxml.hpp:1940-1994 | escaped text up to a tag is an error if it holds a NUL, leaves nothing if it is blank, and otherwise leaves one data node with the text, which the element adopts if it has no value yet |
| NormalForm.DocumentSame | 3rdparty/rapidxml/rapidxml_print.hpp:242-294 | a document is what is read back from its print if and only if it is in normal form |
| RoundTrip.CDataEnds | 3rdparty/rapidxml/rapidxml.hpp:1997-2033 | a CDATA section ends at the first `]]>`, which is the printed one when the text has none |
| Reparse.ParsedIsNormal | 3rdparty/rapidxml/rapidxml.hpp:1381-1411 | an accepted document is in normal form if and only if no text or attribute value holds a NUL, no data text is all white space and no two data nodes are adjacent |
| Reparse.ReparseIsParse | 3rdparty/rapidxml/rapidxml_print.hpp:107-294 | for every text that is accepted, parsing the print of the parse gives the parse again if and only if the document is of that kind and, under indentation, all its text stands alone |
| Reparse.BlankIsLost | 3rdparty/rapidxml/rapidxml.hpp:2167-2180 | the text `<a>&#32;</a>` parses to an element with a blank text, and its print parses to something else |
| RoundTrip.AdoptsFirst | 3rdparty/rapidxml/rapidxml.hpp:1979-1982 | of several data children it is the first that gives the element its value |
| GrammarComplete.ParserIsGrammar | 3rdparty/rapidxml/rapidxml.hpp:1381-1411 | the parser accepts a text if and only if the text can be written by the grammar (white space inside tags and around `=`, either quote, any closing name, comments, declarations, instructions, document types, sections, a byte order mark) and what is written denotes a tree, and it then gives that tree, however the text is cut into a written document; there is no tree only if a reference cannot be expanded or a validated closing name is not its element's |
| GrammarParse.DocumentRead | 3rdparty/rapidxml/rapidxml.hpp:1381-1411 | every document written by the grammar parses to the tree it denotes, or to an error if it denotes none because of a reference or a validated closing name |
| GrammarComplete.AcceptedIsWritten | 3rdparty/rapidxml/rapidxml.hpp:1381-1411 | whatever the parser accepts is written by the grammar |
| GrammarParse.ClosingTagRead | 3rdparty/rapidxml/rapidxml.hpp:2193-2205 | a closing tag of any name and white space is taken up to its bracket if and only if closing tags are not validated or the name is the element's |
| GrammarComplete.ValidationIsMatching | 3rdparty/rapidxml/rapidxml.hpp:2193-2205 | what is accepted without validation is accepted with it, as the same tree, if and only if every closing tag carries its element's name |
| GrammarComplete.MismatchedParses | data/world.xml:16 | the text `<X>0</x>` is an element X with the text 0 by default, and an error if closing tags are validated |
| GrammarParse.TextRead | 3rdparty/rapidxml/rapidxml.hpp:1940-1994 | text in front of a tag is dropped if it is white space, is otherwise one data node with the meaning of the text, and is an error if a reference in it has none |
| GrammarParse.NodeRead | 3rdparty/rapidxml/rapidxml.hpp:2081-2163 | what stands behind a `<` gives the element or section that is written there, nothing for a comment, an instruction, a declaration or a document type, and the parser stops right behind it |
| GrammarParse.ContentsRead | 3rdparty/rapidxml/rapidxml.hpp:2167-2233 | the written contents and the closing tag of an element give its children in order, its first text as value, and the check of the closing name |
| GrammarParse.AttributesRead | 3rdparty/rapidxml/rapidxml.hpp:2237-2298 | attributes, with any white space and in either quote, are read in order with the meaning of their values |
| Text.LookupTables | 3rdparty/rapidxml/rapidxml.hpp:2308-2537 | the character tables, by the codes that they map to 1 or to 0 |
| References.ExpandUndoesEscape | 3rdparty/rapidxml/rapidxml.hpp:1570-1718 | expansion of an escaped NUL-free string gives the string back and stops exactly at the delimiter, for text and for both kinds of attribute value |
| Spelling.SpellingExpands | 3rdparty/rapidxml/rapidxml.hpp:1589-1718 | text made of plain characters, predefined names, numeric references and ampersands that start nothing expands to what these stand for in order, the names by the table of section 4.6 of XML 1.0, up to the character that ends the scan |
| Spelling.ExpansionIsSpelled | 3rdparty/rapidxml/rapidxml.hpp:1570-1718 | whatever an expansion accepts is such text, and its result is what the pieces stand for |
| Spelling.TranslatedIsSpelled | 3rdparty/rapidxml/rapidxml.hpp:1570-1718 | a raw value has a meaning if and only if it is such text, and then however it is cut into pieces |
| Spelling.LoneAmpersand | 3rdparty/rapidxml/rapidxml.hpp:1686-1690 | an ampersand behind which neither a predefined name with its semicolon nor `#` follows starts no reference |
| Spelling.EscapeSpells | 3rdparty/rapidxml/rapidxml_print.hpp:47-81 | escaping writes each character as the name that stands for it in the same table, except for the one that is left alone, and every other character as it is |
| CharRefs.DigitTable | 3rdparty/rapidxml/rapidxml.hpp:2540-2560 | the table maps the hexadecimal digits to their values in order, in both cases, and nothing else |
| References.EscapeHidesStop | 3rdparty/rapidxml/rapidxml_print.hpp:47-81 | an escaped string never contains the byte at which its scan stops |
| References.CodeRefsExpand | 3rdparty/rapidxml/rapidxml.hpp:1650-1683 | any list of code points below 0x110000, written in any mix of decimal and hexadecimal references, expands to their UTF-8 bytes in order |
| References.CodeRefsDecode | 3rdparty/rapidxml/rapidxml.hpp:1650-1683 | those bytes decode, by the bit layout of section 3 of RFC 3629, to the original list |
| CharRefs.Utf8Decodes | 3rdparty/rapidxml/rapidxml.hpp:1511-1554 | the bytes written for one code point decode to that code point and leave what follows alone |
| References.ReadNumeralWraps | 3rdparty/rapidxml/rapidxml.hpp:1650-1683 | a numeral of any length is read modulo the range of `unsigned long` |
| References.ExpandPureRun | 3rdparty/rapidxml/rapidxml.hpp:1581-1587 | skipping a prefix of plain characters at once is what character-by-character expansion does with them |
| References.StepStopsShort | 3rdparty/rapidxml/rapidxml.hpp:1570-1718 | what a reference consumes ends before the stop byte and the end of the text, so a scan never runs over either |
| CharRefs.NumericRef | 3rdparty/rapidxml/rapidxml.hpp:1650-1683 | a numeric reference is longer than the bytes it stands for, even when its number has wrapped around |
| Bits.ContinuationBits | 3rdparty/rapidxml/rapidxml.hpp:1528-1548 | the mask-and-mark expression yields a continuation byte with the code's low six bits |
| InPlace.SkipAndExpandCharacterRefs | 3rdparty/rapidxml/rapidxml.hpp:1570-1718 | the destructive scan leaves at the front of the value exactly the naive expansion of the original text, never writes a byte that is still to be read, and reports the same errors at the same places |
| InPlace.InsertCodedCharacter | 3rdparty/rapidxml/rapidxml.hpp:1511-1554 | writes the UTF-8 bytes of the code at the destination and changes nothing else |
| InPlace.NumericFits | 3rdparty/rapidxml/rapidxml.hpp:1650-1683 | the bytes to be written for a numeric reference fit in front of what is still to be read |
| InPlace.SkipText | 3rdparty/rapidxml/rapidxml.hpp:1557-1565 | the cursor ends on the first byte that the predicate rejects, found within the terminator |
| InPlaceParser.Parse | 3rdparty/rapidxml/rapidxml.hpp:1381-1411 | the destructive parser, on every text and for every combination of the modelled flags, stops, stays within the terminator, fails exactly where and as the pure parser does, and otherwise leaves slices in the mutated buffer that hold the pure parser's names and values, in order and without overlap; with the non-destructive flags the buffer is unchanged |
| InPlaceParser.ParseNodeContents | 3rdparty/rapidxml/rapidxml.hpp:2167-2233 | the same for the contents of one element: its children and its value are stored where the pure parser says, between the given bounds |
| InPlaceParser.ParseAndAppendData | 3rdparty/rapidxml/rapidxml.hpp:1940-1994 | the same for one data node, with the cursor backed up to the start of the contents, the terminator dropped over the markup that follows, and that markup's first byte remembered |
| InPlaceParser.ParseNodeAttributes | 3rdparty/rapidxml/rapidxml.hpp:2237-2298 | the same for the attributes of an element |
| InPlaceParser.ParseElementInPlace | 3rdparty/rapidxml/rapidxml.hpp:2037-2077 | the same for a whole element |
| InPlaceParser.ParseNodeInPlace | 3rdparty/rapidxml/rapidxml.hpp:2081-2163 | the same for whatever follows a `<` |
| InPlaceParser.ParseDoctypeInPlace | 3rdparty/rapidxml/rapidxml.hpp:1814-1876 | the cursor ends behind the document type that the pure parser skips, or the same error is reported |
| InPlaceParser.ParseClosingTagInPlace | 3rdparty/rapidxml/rapidxml.hpp:2191-2210 | the closing tag is compared with the stored name even though the buffer has been overwritten, with the pure parser's outcome |
| InPlaceParser.SlicesDisjoint | 3rdparty/rapidxml/rapidxml.hpp:1381-1411 | of the slices that a parse returns, no two share a byte of the buffer, terminators included, and all lie within the text |
| Layout.NodeSurvives | 3rdparty/rapidxml/rapidxml.hpp:1940-1994 | what is stored for a node stays as it is as long as nothing is written between its bounds |
| Parser.ParseNode | 3rdparty/rapidxml/rapidxml.hpp:2081-2163 | whatever follows a `<` is consumed by at least one byte and never past the terminator, which bounds the mutual recursion |
| Parser.ParseContents | 3rdparty/rapidxml/rapidxml.hpp:2167-2233 | each round of the contents loop consumes at least one byte although the cursor is backed up before data |
| Parser.DoctypeEnds | 3rdparty/rapidxml/rapidxml.hpp:1814-1876 | a document type ends with the first `>` outside all square brackets and fails if the text ends before it |
| Parser.DoctypeScan | 3rdparty/rapidxml/rapidxml.hpp:1820-1852 | the same from any point of the scan, whatever brackets are open there |
| Parser.ClosingTagMatches | 3rdparty/rapidxml/rapidxml.hpp:2193-2205 | a closing tag that passes validation is the element's name, whitespace and `>` |
| Text.FindMark | 3rdparty/rapidxml/rapidxml.hpp:1773-1810 | the end mark that is found is the first one, and without one the error is at the terminator |
| Translation.DefaultParseTranslates | 3rdparty/rapidxml/rapidxml.hpp:269 | the default parse accepts a text exactly when the non-destructive one does and all references in its raw tree can be expanded; the tree is then the raw tree with every data and attribute value expanded |
| Translation.ExpandLocal | 3rdparty/rapidxml/rapidxml.hpp:1570-1718 | expanding the raw slice on its own gives what expanding it inside the whole text gives |
| Translation.ScanTranslates | 3rdparty/rapidxml/rapidxml.hpp:1570-1579 | one scan in the default mode succeeds exactly when the raw slice can be expanded, ends at the same place and yields its expansion |
| ElementValues.ElementValueTranslates | 3rdparty/rapidxml/rapidxml.hpp:1979-1982 | whenever both parses accept a text, the default value of an element, anywhere in the tree, is the expansion of its raw value if and only if it has no raw data text, or the first does not start with a reference to NUL, or all do and the last expands to the same text as the first |
| ElementValues.RawContents | 3rdparty/rapidxml/rapidxml.hpp:2167-2233 | in a raw tree every element has the value that its data children give, and none of their texts starts with a NUL |
| ElementValues.FirstIsAdopted | 3rdparty/rapidxml/rapidxml.hpp:1979-1982 | of a list of texts the element adopts the first if and only if there is none, or the first does not start with a NUL, or all do and the last equals the first |
| ElementValues.NulStealsElementValue | 3rdparty/rapidxml/rapidxml.hpp:1979-1982 | the text `<a>&#0;<![CDATA[]]>y</a>` gives its element the raw value `&#0;` and the default value `y`: the condition is needed |
| Translation.ValidationOnlyFilters | 3rdparty/rapidxml/rapidxml.hpp:2193-2205 | what is accepted with validated closing tags is accepted without, with the same tree |
| Printer.Print | 3rdparty/rapidxml/rapidxml_print.hpp:387-391 | the recursive printer writes the specified text of the document |
| Printer.CopyAndExpandChars | 3rdparty/rapidxml/rapidxml_print.hpp:47-81 | the loop appends the escaped characters, leaving the given one as it is |
| Printer.FindChar | 3rdparty/rapidxml/rapidxml_print.hpp:94-100 | the character is found if and only if it occurs |
| Printer.PrintAttributes | 3rdparty/rapidxml/rapidxml_print.hpp:178-204 | every attribute is written, in the quote that its value does not contain unless it contains both |
| Printer.PrintElementNode | 3rdparty/rapidxml/rapidxml_print.hpp:242-294 | an element is written in the short form, with its value only, or with its children on their own lines |
| Printer.PrintNode | 3rdparty/rapidxml/rapidxml_print.hpp:107-165 | a node is written with its line break after it |
| Printer.QuoteFits | 3rdparty/rapidxml/rapidxml_print.hpp:178-204 | the value holds the quote chosen for it only if it holds both kinds, and only that quote is escaped |
| Lines.DocumentIsLaid | 3rdparty/rapidxml/rapidxml_print.hpp:107-294 | the printed text is the lines of the document in order, each behind one tab for every element around it and ended by a line break, or all of them joined without either |
| Arena.RunIsSound | 3rdparty/rapidxml/rapidxml.hpp:599-631 | in every run of allocations and clears, what is handed out is aligned, lies in an owned block, and overlaps neither a header nor anything else handed out; every block obtained is owned or was given back once |
| Arena.BlockSuffices | 3rdparty/rapidxml/rapidxml.hpp:607-625 | wherever the system places a new block, the slack of two alignments leaves room for its aligned header and the aligned allocation |
| Arena.AllocateKeeps | 3rdparty/rapidxml/rapidxml.hpp:599-631 | one allocation keeps all of this, for any size |
| Arena.AllocationSpends | 3rdparty/rapidxml/rapidxml.hpp:599-631 | an allocation starts at the first aligned address of the current block if it fits there and spends only what it asks for; otherwise the new block has the set size or the requested one, and the slack |
| Arena.SmallRunsStay | 3rdparty/rapidxml/rapidxml.hpp:599-631 | as long as the requests, rounded up, fit into the static block, the system is never asked for memory |
| Arena.AlignsUp | 3rdparty/rapidxml/rapidxml.hpp:573-577 | the mask expression moves an address up to the next multiple of the alignment |
| Arena.ClearFreesOnce | 3rdparty/rapidxml/rapidxml.hpp:525-537 | clearing gives every dynamic block back exactly once and ends at the static block, as a new pool does |
| Arena.ReleaseKeeps | 3rdparty/rapidxml/rapidxml.hpp:529-534 | the header found by aligning the block's start again leads to the block before it, and the other headers stay readable |
| Arena.MemoryPool.AllocateAligned | 3rdparty/rapidxml/rapidxml.hpp:599-631 | the method performs the specified allocation and returns the address of the span handed out |
| Arena.MemoryPool.Clear | 3rdparty/rapidxml/rapidxml.hpp:525-537 | the loop performs the specified clearing, giving back just the pool's dynamic blocks |
| Dom.XmlNode.PrependNode | 3rdparty/rapidxml/rapidxml.hpp:1076-1092 | the child becomes the first of the sequence, and every other list stays in order |
| Dom.XmlNode.AppendNode | 3rdparty/rapidxml/rapidxml.hpp:1097-1113 | the child becomes the last of the sequence, and every other list stays in order |
| Dom.XmlNode.InsertNode | 3rdparty/rapidxml/rapidxml.hpp:1119-1135 | the child stands right before the given one, or last if none is given |
| Dom.XmlNode.InsertBetween | 3rdparty/rapidxml/rapidxml.hpp:1127-1134 | the case with a sibling on either side |
| Dom.XmlNode.RemoveFirstNode | 3rdparty/rapidxml/rapidxml.hpp:1140-1150 | the sequence loses its first node, which loses its parent |
| Dom.XmlNode.RemoveLastNode | 3rdparty/rapidxml/rapidxml.hpp:1155-1167 | the sequence loses its last node, which loses its parent |
| Dom.XmlNode.RemoveNode | 3rdparty/rapidxml/rapidxml.hpp:1171-1185 | the sequence loses just the given node |
| Dom.XmlNode.RemoveAllNodes | 3rdparty/rapidxml/rapidxml.hpp:1188-1193 | no child is left and none of the former ones has a parent |
| Dom.XmlNode.Forward | 3rdparty/rapidxml/rapidxml.hpp:1004-1018 | the walk from the first node meets the children in order |
| Dom.XmlNode.Backward | 3rdparty/rapidxml/rapidxml.hpp:981-995 | the walk from the last node meets them in reverse order |
| Dom.XmlNode.Spliced | 3rdparty/rapidxml/rapidxml.hpp:1129-1133 | two neighbours led to the node between them form one chain with it |
| Dom.XmlNode.AppendAttribute | 3rdparty/rapidxml/rapidxml.hpp:1217-1233 | the attribute becomes the last of the sequence, and every other list stays in order |
| Dom.XmlNode.RemoveAllAttributes | 3rdparty/rapidxml/rapidxml.hpp:1309-1314 | no attribute is left and none of the former ones has a parent |
| Dom.CloneNode | 3rdparty/rapidxml/rapidxml.hpp:497-520 | the copy stands for the same tree, at any depth, with its lists and parents in order; all nodes and attributes below it are new, also if the result is given, which then keeps its own parent and siblings; the source and everything else that is known keep what they say |
| Dom.CloneAttributes | 3rdparty/rapidxml/rapidxml.hpp:516-517 | the attributes are copied in order, all of them new |
| Dom.CloneChildren | 3rdparty/rapidxml/rapidxml.hpp:514-515 | the children are copied in order, all of them new |
| LocklessQueue.RunIsStack | core/util/queue.hpp:58-93 | in every interleaving no deleted item is touched, the list from the head is acyclic and alive, the successful exchanges form one last-in-first-out run, and every linked value is in the list, in the consumer's hand or returned once, even when addresses are used again |
| LocklessQueue.PopCompletes | core/util/queue.hpp:83-93 | in every reachable state a pop that nobody disturbs returns the top value and unlinks its item, and changes nothing if there is none |
| LocklessQueue.PushCompletes | core/util/queue.hpp:58-64 | in every reachable state a push that nobody disturbs puts its value on top of the others |
| LocklessQueue.CallsAreStack | core/util/queue.hpp:58-93 | whole pushes and pops, in any order, hold and return what a stack does |
| LocklessQueue.StepKeeps | core/util/queue.hpp:58-93 | every atomic step of every producer and of the consumer keeps the invariant behind this |
| LocklessQueue.FailureMeansProgress | core/util/queue.hpp:61-63 | an exchange fails only if another push or pop has completed since the head was read |
| LocklessQueue.ReplayConserves | core/util/queue.hpp:58-93 | a stack run conserves its values: pushed is popped plus kept |
| LockedQueue.RunIsFifo | core/util/queue.hpp:12-37 | over every run what is popped is a prefix of what was pushed, and the queue holds the rest |
| LockedQueue.NoLostWakeup | core/util/queue.hpp:12-28 | a consumer asleep on a queue that holds something is woken by producers that only finish the push they are in |
| LockedQueue.SleeperGetsValue | core/util/queue.hpp:12-28 | such a consumer gets the front value: producers finish their pushes, and it wakes, takes the lock and leaves with it |
| LockedQueue.PopCompletes | core/util/queue.hpp:21-37 | in every reachable state with the lock free a pop hands out the front value and takes out just that; on an empty queue `try_pop` reports nothing and `wait_pop` falls asleep and gives the lock back |
| LockedQueue.PushCompletes | core/util/queue.hpp:12-19 | in every reachable state with the lock free a push puts its value behind the others and wakes the consumer if it sleeps on the empty queue |
| LockedQueue.HandsOutLast | core/util/queue.hpp:21-37 | in every reachable state what a pop is about to hand to its caller is the value taken out last |
| LockedQueue.CallsAreFifo | core/util/queue.hpp:12-37 | whole pushes and pops, in any order, hold and hand out what a first-in-first-out queue does |
| LockedQueue.RunKeeps | core/util/queue.hpp:12-37 | every run keeps the lock's owner and the pending notifications consistent |
| WireCodec.ClientStreamArrives | client/remoteserver.cpp:121-128 | decoding the concatenated encodings of any list of client messages whose strings fit consumes all bytes and gives the list with each string cut at its first NUL |
| WireCodec.ServerStreamArrives | server/remoteclient.cpp:67-72 | the same for server messages |
| WireCodec.ClientMsgArrives | core/messages/client/clientmsg.cpp:8-24 | one client message is read back whatever bytes follow it, and leaves them |
| WireCodec.ServerMsgArrives | core/messages/server/servermsg.cpp:9-19 | one server message is read back whatever bytes follow it, and leaves them |
| WireCodec.ClientsUnchanged | client/remoteserver.cpp:121-128 | decoding what was encoded gives the same list and leaves nothing if and only if every template is NUL-free and shorter than 2^32 - 1 |
| WireCodec.ClientStreamStops | core/util/socket.hpp:18-26 | the receiver stops for good at the first message whose string size it has no buffer for, with all before it received |
| WireCodec.ServersUnchanged | server/remoteclient.cpp:67-72 | the same for server messages |
| WireCodec.StringUnchanged | core/util/socket.hpp:18-32 | decoding an encoded string gives it back if and only if it is NUL-free and shorter than 2^32 - 1 |
| WireCodec.PodRoundTrip | core/util/socket.hpp:9-16 | the bytes of a number give the number back |
| WireCodec.StringBytes | core/util/socket.hpp:28-32 | a string is its length, lowest byte first, and its characters without a terminator |
| WireCodec.ClientBytes | core/messages/client/clientmsg.cpp:8-24 | the bytes of each kind of client message: the number of the kind, the identifier and the rest, each number lowest byte first |
| WireCodec.ServerBytes | core/messages/server/servermsg.cpp:9-19 | the bytes of each kind of server message |
| Socket.SocketWrapper.ReadString | core/util/socket.hpp:18-26 | reads the specified string off the stream and leaves the rest |
| Socket.SocketWrapper.WriteString | core/util/socket.hpp:28-32 | appends the specified encoding |
| Socket.SocketWrapper.WriteClientMsg | server/remoteclient.cpp:29-32 | appends the type tag and the body |
| Socket.SocketWrapper.ReadClientMsg | client/remoteserver.cpp:121-123 | decodes one message as specified, or fails for an unknown type or missing bytes |
| Socket.SocketWrapper.WriteServerMsg | client/remoteserver.cpp:92-95 | appends the type tag and the body |
| Socket.SocketWrapper.ReadServerMsg | server/remoteclient.cpp:67-69 | decodes one message as specified, or fails for an unknown type or missing bytes |
| Socket.SocketWrapper.ReceiveClientMsgs | client/remoteserver.cpp:121-129 | reading one message after the other gives what the stream decodes to |
| Replication.NoGhosts | server/localserver.cpp:90-187 | in every run over queues that keep the order, a client whose inbox is empty shows exactly the baddies and the living players that were there when it connected or were loaded no earlier than its own; identifiers are unique and no client is both loaded and in the lobby |
| Replication.PhysicsAgrees | server/bullet/btphysics.cpp:206-311 | in every run over queues that keep the order, the pending messages turn the characters into exactly the living players and baddies, and a deletion finds its character when it is taken out |
| StackReplication.StackGhosts | server/localserver.cpp:90-187 | in every run over the lock-free queues, a client that has taken all its messages, newest first, shows what it must and, besides, just the players that went while their announcement waited for it; it is right if and only if there are none |
| StackReplication.StackPhysics | server/bullet/btphysics.cpp:294-311 | in every run over the lock-free queues, a deletion finds its character if and only if it was not sent while the character still waited to be made; those that were are just the ones that miss, and the characters come out as the living ones if and only if there are none |
| StackReplication.StackRunKeeps | server/localserver.cpp:90-187 | every such run keeps the invariant behind both |
| StackReplication.GoneAtOnce | server/bullet/btphysics.cpp:300-303 | two players load and one disconnects at once: in order the other sees itself alone, newest first it sees the one who left, and the first deletion the physics thread takes has no character |
| StackReplication.DisplayEitherWay | client/localclient.cpp:28-42 | in every state that a run in order can reach, a client that took its messages newest first would show what it must if and only if none of them removes a player whom another announces |
| StackReplication.PhysicsEitherWay | server/bullet/btphysics.cpp:142-144 | in every such state the waiting deletions, newest first, all find their character if and only if each of these is there already, and the characters come out as the living ones if and only if none waits to be made and to be deleted |
| StackReplication.TrafficIsStack | core/util/queue.hpp:85-93 | what the physics thread takes in such a run is one run of the stack that the lock-free queue implements, which is left with the waiting messages, newest on top |
| StackOrder.OrderMatters | core/util/queue.hpp:58-93 | taking any list of additions and removals newest first leads to the same identifiers, whatever was in use before, if and only if the first and the last word about each identifier agree |
| StackOrder.LocklessTakesNewest | core/util/queue.hpp:85-93 | the next value that the lock-free queue can hand out is the last one pushed of those it holds |
| Display.DisplayByPosition | client/opengl/glrender.cpp:22-57 | after any list of messages a display shows the identifiers that were added and not removed since, each with the colour of the template that added it and the transform that was the last to name it since then, or none |
| Display.ShowsLastMove | client/opengl/glrender.cpp:41-48 | in every run over queues that keep the order, a client with an empty inbox shows each object where the last tick moved it that named it while it was on display, and in its colour |
| Display.Colors | client/opengl/glrender.cpp:27-35 | players are green, baddies red and everything else white |
| Inputs.InputArrives | server/bullet/btphysics.cpp:226-239 | in every run over queues that keep the order, when no message waits for the physics thread, the character of a loaded client has the state that the client sent last since it was loaded |
| Replication.RunKeeps | server/localserver.cpp:90-187 | every run keeps the invariant behind both |
| Replication.LoadPlayerKeeps | server/localserver.cpp:175-187 | loading a player keeps the invariant |
| Replication.RemoveClientKeeps | server/localserver.cpp:107-121 | removing a client keeps it, loaded or not |
| Replication.AddClientKeeps | server/localserver.cpp:90-105 | connecting keeps it: the greetings name just what the newcomer must see |
| Replication.PushTransformsKeeps | server/localserver.cpp:142-154 | transforms keep it, even of identifiers that are already gone |
| Replication.ClientReceivesKeeps | client/opengl/glrender.cpp:22-57 | a client taking a message keeps it |
| Replication.PhysicsReceivesKeeps | server/bullet/btphysics.cpp:232-316 | the physics thread taking a message keeps it |
| Replication.TransShowsNothingNew | client/opengl/glrender.cpp:41-48 | late transforms neither bring an identifier back nor take one away |
| Replication.SendAllOnce | server/localserver.cpp:114-119 | sending to the loaded clients and then to the lobby reaches each of them once |
| Replication.LoadPlayerNeedsLobby | server/localserver.cpp:175-187 | loading keeps the protocol sound if and only if the client is waiting in the lobby; after a load for a loaded client every run keeps a character that stands for nobody, and after one for a client that is not connected every run that does not disconnect it keeps a table entry and a character for it |
| Replication.SecondLoadStrands | server/localserver.cpp:182 | a second load leaves a character that no client owns, since inserting does not replace the entry |
| Replication.StrandedForever | server/localserver.cpp:107-121 | no run ever deletes such a character |
| Replication.HauntedForever | server/localserver.cpp:107-121 | the entry and the character of a client that is not connected stay unless that client is disconnected |
| Replication.LookupNeedsLoadedClient | server/localserver.hpp:41 | looking a client up keeps server and physics in agreement if and only if the client is loaded; otherwise the table holds a player with identifier 0 and there is no such character |
| Server.LocalServer.AddClient | server/localserver.cpp:90-105 | the loops push the specified greetings to the new client alone |
| Server.LocalServer.RemoveClient | server/localserver.cpp:107-121 | performs the specified removal |
| Server.LocalServer.LoadPlayer | server/localserver.cpp:175-187 | performs the specified load |
| Server.LocalServer.PushClientTransforms | server/localserver.cpp:142-154 | the nested loops perform the specified broadcast |
| Server.LocalServer.PushToAll | server/localserver.cpp:114-119 | in whatever order the table is walked, every client in it gets the message once and nobody else does |
| Server.LocalServer.GetClientId | server/localserver.hpp:41 | returns the identifier, or enters the client with 0 |
| Server.LocalServer.GetNextIdentifier | server/localserver.cpp:171-173 | hands out the counter and advances it modulo 2^32 |
| Server.LocalServer.LoadMobGroup | server/localserver.cpp:235-242 | the nested loops leave the state from which every run starts, with consecutive identifiers |
| Server.BtPhysics.ParseMessage | server/bullet/btphysics.cpp:232-316 | the bookkeeping for each kind of message |
| Server.BtPhysics.Step | server/bullet/btphysics.cpp:142-144 | taking one message off the queue performs the specified step |
| Server.BtPhysics.SetInputStateCallback | server/bullet/btphysics.cpp:226-230 | the state changes if and only if the character exists |
| Server.GlRender.PushMessage | client/opengl/glrender.cpp:22-57 | folds one message into the drawables |
| Server.GlRender.PushMessages | client/opengl/glrender.cpp:22-57 | folding a queue, front first, gives the specified drawables |

## Left out

- Parser.ParseNode: nodes for declarations, comments, document types and processing instructions, trimming and normalising whitespace and the other optional flags are not modelled; only the default, the non-destructive flags and `parse_validate_closing_tags` are, so these constructs leave no node.
- GrammarComplete.ParserIsGrammar: which error is reported, and where, for a text outside the language is what the pure parser says; the grammar only says that there is one.
- InPlaceParser.Parse: the tree of slices is a value; that the parser links its nodes with the child list and takes them from the pool is modelled separately in `Dom.dfy` and `Arena.dfy`, and the same tree is not threaded through all three.
- InPlace.InsertCodedCharacter: one character is one `char` of at most a byte's range; wide characters and `parse_no_utf8` are not modelled, and `unsigned long` has 64 bits.
- RoundTrip.PrintThenParse: declarations, comments, document types and processing instructions are not printed, as a default parse makes no such nodes.
- Arena.MemoryPool.AllocateAligned: addresses are unbounded naturals, so pointer arithmetic and the computed block size do not wrap; custom allocation functions are represented by the address that the system returns.
- Dom.XmlNode.AppendAttribute: the other operations on attributes mirror those on children statement by statement and are not repeated.
- Dom.XmlNode.InsertNode: the position of the given sibling is a ghost argument; that a sibling whose parent is this node is among its children is what a sound document gives.
- Dom.CloneNode: a name or value is a string, so that the copy shares the memory of the source's texts is not visible.
- Look-ups by name, iterators, files and streams of RapidXML: short loops that add no hard property.
- LocklessQueue.RunIsStack: one consumer only, as the repository uses it; memory is sequentially consistent.
- LockedQueue.NoLostWakeup: one consumer only; spurious wakeups are steps, but fairness of the scheduler is not modelled.
- WireCodec.ClientStreamArrives: for a string size of 2^32 - 1 the receiver's buffer size wraps to 0 and the code has no defined meaning; the model lets the read fail there.
- Socket.SocketWrapper.ReadClientMsg: connections, Asio handlers and their errors are a stream of bytes that may end early.
- Replication.NoGhosts: runs in which a client loads once from the lobby, input is processed for loaded clients, and fewer than 2^32 identifiers are handed out; `LoadPlayerNeedsLobby` and `LookupNeedsLoadedClient` say why. A transform is an opaque matrix.
- StackReplication.StackPhysics: the same runs; a deletion that finds no character dereferences null in the code (`server/bullet/btphysics.cpp:300-303`), while the model records it and goes on, and which transform a client shows when it takes the newest first is not stated.
- Server.LocalServer.LoadMobGroup: the world file, the spawn point, positions and blockers are not modelled, nor are the tick counter, `runTickCallbacks`, thread start and shutdown.
- Server.BtPhysics.ParseMessage: Bullet's objects and static planes are not modelled, only which characters exist and their input state.
- Rendering, audio and window code: calls into libraries.
