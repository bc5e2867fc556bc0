# A model of Aham's engine

Aham is a terminal and web assistant written in C.  This project models the six parts of it that hold
the hardest logic and proves what they promise.

- **The JSON engine** (`src/core/cJSON.c`). `StringLiteral` and `LiteralExact` treat string literals.
  `Json` gives the text of a value (`Render`) and the value of a text (`ParseValue`) as functions on
  strings; `RoundTrip` proves that they are inverse to each other. `Numeral`, `Layout` and `LayoutExact` say,
  without the parser, what every text spells, and that parsing finds exactly that; `PrintLayout` says the same
  of what is printed, and `Paths` what the limits on depth count. `Tree`, `Printer`, `TreePrinter`,
  `Scanner`, `Parser`, `TreeParser`, `ListEdit`, `ListRun`, `Copy` and `TreeCompare` hold the imperative
  code: heap nodes with `next`, `prev` and `child`, a print buffer that grows, a parse buffer with a
  cursor, each proved against those functions. `CompareMeaning` says which trees compare equal.  `Minify`,
  `MinifyPieces`, `MinifyExact` and `MinifyBuffer` treat the in-place minifier. Array bounds are checked at every write, so that the methods verify at all says that
  no write leaves its buffer.
- **The agent's history** (`src/agent/agent.c`).  `Conversation` describes a turn and a run over an
  arbitrary provider and arbitrary tools, `Transcript` what is said in it, message by message, and `Thinking`
  the blocks that are dropped from a reply; `AgentLoop` is the object with its message array, and `Request`
  the JSON that a history is sent as.
- **The gateway's threads** (`src/gateway/gateway.c`).  `Gateway` is a step machine with one program
  counter a thread, composed with `Conversation`; `GatewayRequests` follows every connection and every chat
  request through it.
- **The Markdown memory** (`src/memory/md_memory.c`).  `MemoryFile`, `MemoryLaws` and `MemoryMap` treat
  the file as text, `MemoryDocument` as a list of lines, whoever wrote them; `MemoryStore` is the object with
  the two line loops.
- **The scheduler** (`src/tools/scheduler/scheduler.c`).  `Schedule`, `ScheduleHistory`, which tells
  the table and the runs from the calls alone, and `SchedulerTable`.
- **Tool calls from Ollama** (`src/providers/ollama/ollama.c`).  `ToolCalls`, `OllamaProvider`, and
  `Wire` with the fields of replies and requests; the main result crosses the provider, the agent and the JSON
  round trip.

A `char` stands for one byte.  Where a class method is proved, its `ensures` ties the new state to a
function of the old one, and the properties are lemmas about that function.

Parameters of the model: what the provider and the tools answer (`World`, which may answer differently
every time), the clock (an argument of every tick and every added task), what a connection carries and
whether `accept`, `malloc` and `pthread_create` succeed, and what `parse_interval` makes of its text.

## Where the code does not do what it promises

- `src/agent/agent.c:13` says that compaction never splits a tool call from its result.  It can:
  `Conversation.CompactionCanSplit` is a reachable run, `Conversation.PendingCallCanGo` one in which the call
  goes before its result is appended, `Conversation.OrphansAfterCompaction` says exactly when it happens, and
  `Conversation.RunPaired` says under which conditions it never does.
- A roll-back uses an index taken before the turn; `Conversation.ChatRollsBack` says what it leaves.  After a
  compaction in the same turn the index can fall between a call and its results:
  `Conversation.RollBackKeepsComplete` says exactly when, for any number of calls a reply, and
  `Conversation.RollBackCanSplit` is a reachable run of four turns that ends that way.
- A final reply with neither text nor tool calls makes `agent_chat` return a null pointer: the program's own
  `strdup` (src/core/types.c:107-109) passes it on, and the gateway sends an empty text for it
  (src/gateway/gateway.c:232).  `Conversation.WhenThereIsNoReply` says exactly when that happens; the model's
  reply is then `None`.
- Dropping thinking blocks can put a new tag together; `Thinking.WhenTagsForm` says exactly when.
- Arguments that came as a string may nest up to 1000 deep, but inside the next request they stand under five
  more containers, so that above 995 the request goes out without any messages (`Request.SentExactly`).
- A `\u` escape with a character that is no hexadecimal digit is not refused: it reads as a NUL and cuts the
  string.  `LiteralExact.LiteralsExactly` says exactly which literals are accepted and as what.
- `cJSON_Parse` accepts more than RFC 8259: every control character counts as white space, numbers may have
  leading zeros or no digit behind the point, a raw control character may stand in a string, and anything may
  stand behind the value. `LayoutExact.DocumentsExactly` says exactly what it accepts, `LayoutExact.StandardTexts`
  that every text of the standard is read as it should be.
- Comparing a tree with its own copy can fail (`Copy.DuplicateKeysDiffer`); `Copy.SameAsCopyExactly` says for
  exactly which trees it does.
- `cJSON_Minify` takes the second of two backslashes in front of a quote for an escape.
  `MinifyExact.MinifyPrintedExactly` says for exactly which trees it still does its work.
- `memory_store` compares a heading untrimmed and `memory_recall` trims it
  (`MemoryMap.StrayBlankKeepsTheOldValue`), a bullet can be glued to a last line without a newline
  (`MemoryMap.GluedFile`; what that does to the other keys is in `MemoryMap.RecallWhenGlued`), and a file
  over 256 KB reads as empty. `MemoryMap.RecallAfterStoreExactly` says for every file whose lines fit
  whether a stored fact is recalled, and what is recalled when it is not.

## Model

| member | source | states |
|---|---|---|
| Number.DecimalFitsNumberBuffer | src/core/cJSON.c:591-658 | "%d" of any int takes at most 11 bytes, so the 26-byte number buffer is never overrun |
| Number.StrtodDecimal | src/core/cJSON.c:307-408 | reading the decimal text of an int gives that int back and uses all of it |
| Number.DecimalInjective | src/core/cJSON.c:591-658 | different ints have different texts |
| Number.DigitsAreDecimal | src/core/cJSON.c:591-658 | the text of a number is its decimal expansion without leading zeros |
| Number.SaturateTruncates | src/core/cJSON.c:389-401 | valueint is the double cut toward zero, or the bound of an int that it passes |
| Numeral.StrtodReads | src/core/cJSON.c:307-408 | a number spelled from sign, digits, fraction and exponent is taken whole and as what it stands for, whatever follows |
| Numeral.StrtodFinds | src/core/cJSON.c:307-408 | whatever is taken for a number is such a spelling, taken as far as it goes |
| Utf8.MaskForms | src/core/cJSON.c:661-816 | the masks and shifts of the encoder are the sums and quotients of the specification |
| Utf8.SurrogateMasks | src/core/cJSON.c:738-752 | the masks and the shift that combine two surrogates are the sum of the specification |
| Utf8.EncodeDecode | src/core/cJSON.c:698-816 | for every scalar value the emitted bytes decode to it under sections 3 and 4 of RFC 3629 |
| Utf8.Utf16LiteralMeaning | src/core/cJSON.c:698-816 | what a \u escape is converted to: a scalar value alone, a surrogate pair, and failure for every lone surrogate |
| StringLiteral.ReadStringMeaning | src/core/cJSON.c:819-946 | every literal built from the units of section 7 of RFC 8259 reads as the bytes its units stand for, up to the first NUL |
| StringLiteral.ReadQuote | src/core/cJSON.c:819-1068 | a quoted string reads back as the string, with whatever follows left over |
| StringLiteral.LoneSurrogateRefused | src/core/cJSON.c:698-816 | a literal with a surrogate out of place is refused wherever it stands, also a high one in front of an escape that is no low one |
| StringLiteral.EscapeTable | src/core/cJSON.c:866-1068 | which escape every character is written as, and what the short escapes are read as |
| LiteralExact.LiteralsExactly | src/core/cJSON.c:819-946 | for every text: it is accepted as a literal if and only if its body is spelled from readable pieces, malformed \u escapes and hidden quotes included, and every backslash of it has a partner; then it reads as what the pieces denote, up to the first NUL |
| LiteralExact.SpelledUnescape | src/core/cJSON.c:866-927 | the second pass turns every sequence of readable pieces into what they denote |
| Json.RenderTail | src/core/cJSON.c:1418-1881 | what is printed behind a value never changes how the value is printed |
| Json.ParseValue | src/core/cJSON.c:1363-1415 | every successful parse consumes at least one character; the mutual recursion terminates |
| Json.ParseItems | src/core/cJSON.c:1492-1587 | the element loop makes progress on every round |
| Json.ParseMembers | src/core/cJSON.c:1652-1767 | the member loop makes progress on every round; what it accepts is in LayoutExact.DocumentsExactly |
| Json.SkipWhite | src/core/cJSON.c:1085-1108 | skipping white space never moves past the last character |
| RoundTrip.ParseRendered | src/core/cJSON.c:1363-1881 | in any context and at any depth, a rendered value parses to itself and leaves the rest, if and only if depth and nesting fit the limit |
| RoundTrip.PrintThenParse | src/core/cJSON.c:1363-1881 | for every printable tree, formatted or not: the printed text parses if and only if the tree is nested at most 1000 deep, and then to the same tree |
| RoundTrip.PrintedInjective | src/core/cJSON.c:1418-1881 | different trees have different texts, however deep they are |
| RoundTrip.RenderNulFree | src/core/cJSON.c:1418-1881 | the printed text has no NUL in it, so strlen finds its end |
| RoundTrip.ParsedShape | src/core/cJSON.c:1363-1767 | whatever its numbers are, what parsing finds is within the nesting limit and has no NUL in a string or key |
| RoundTrip.PrintableIs | src/core/cJSON.c:1418-1881 | a tree can be printed as modelled if and only if its strings have no NUL and its numbers are integers in int range |
| RoundTrip.ParseThenPrint | src/core/cJSON.c:1363-1881 | a text of integers, however laid out, parses to the same tree after printing what was parsed |
| Layout.LayoutReads | src/core/cJSON.c:1363-1767 | in any context: the text of a layout (any gaps around brackets, commas, colons, keys and values, strings and numbers in any spelling) is read as what it stands for, if and only if depth and nesting fit the limit |
| LayoutExact.LayoutFinds | src/core/cJSON.c:1363-1767 | whatever parsing accepts is the text of such a layout |
| LayoutExact.DocumentsExactly | src/core/cJSON.c:1142-1767 | for every text and value: it parses to the value if and only if it is a byte order mark or none, a gap, a layout of the value and anything behind it, nested at most 1000 deep |
| LayoutExact.StandardTexts | src/core/cJSON.c:1142-1767 | every text of sections 2 to 7 of RFC 8259, with or without a byte order mark, parses exactly when it is nested at most 1000 deep, to what it stands for |
| LayoutExact.StrictIsValid | src/core/cJSON.c:1142-1767 | such a text is spelled from the layouts above as soon as its strings and numbers are |
| PrintLayout.PrintedLayout | src/core/cJSON.c:1418-1881 | the printed text is character by character one layout: one line, or a blank behind the commas of an array, and each member on its own line, indented by a tab a level, with a tab behind its colon |
| PrintLayout.LaidOutIsValid | src/core/cJSON.c:1418-1881 | that layout is one of those that are read back |
| Paths.NestingIs | src/core/cJSON.c:1496-1501 | what the nesting limit counts: the greatest number of containers inside one another |
| Tree.Node.constructor | src/core/cJSON.c:241-250 | a new item is zeroed, numbers included, and in no list |
| Tree.Link | src/core/cJSON.c:1540-1553 | linking a new node behind the last keeps both directions of the list |
| Tree.Adopted | src/core/cJSON.c:1567-1575 | a closed list of apart trees makes its parent a well-formed tree |
| Printer.PrintBuffer.Ensure | src/core/cJSON.c:485-568 | room is made exactly when the capacity allows it, and no written byte is lost when the buffer moves |
| Printer.PrintBuffer.UpdateOffset | src/core/cJSON.c:571-581 | strlen stops at the NUL behind the text, so the offset ends right behind it |
| Printer.PrintBuffer.PrintNumber | src/core/cJSON.c:591-658 | the decimal text stands behind the prefix, if and only if it fits |
| Printer.PrintBuffer.PrintString | src/core/cJSON.c:949-1068 | the quoted string stands behind the prefix, ended by a NUL, if and only if it fits |
| Printer.PrintBuffer.CopyEscaped | src/core/cJSON.c:997-1065 | escaping one by one, with the NUL that sprintf leaves behind an escape, writes exactly the quoted string into the room that was counted |
| Printer.CountEscapes | src/core/cJSON.c:970-997 | the first pass counts exactly the bytes that escaping adds |
| TreePrinter.PrintValue | src/core/cJSON.c:1418-1489 | on success the buffer holds the old prefix and the rendering, ended by a NUL; it succeeds if and only if prefix, text and two bytes fit the capacity |
| TreePrinter.PrintArray | src/core/cJSON.c:1590-1649 | the same for an array, and the depth is restored |
| TreePrinter.PrintObject | src/core/cJSON.c:1770-1881 | the same for an object |
| TreePrinter.PrintClosing | src/core/cJSON.c:1639-1649 | the closing bracket or brace completes the text exactly when it fits, and the depth is restored |
| TreePrinter.Print | src/core/cJSON.c:1234-1310 | printing gives the rendering, and nothing exactly when it is longer than an int allows |
| TreePrinter.PrintPreallocated | src/core/cJSON.c:1343-1360 | the caller's buffer is enough if and only if it has two bytes more than the text, and then holds it |
| Scanner.UnescapeFits | src/core/cJSON.c:819-946 | for every body, malformed escapes included, the second pass writes at most as many bytes as the first counted |
| Scanner.SecondPassStep | src/core/cJSON.c:866-927 | each round of the second pass writes no more than the count drops by |
| Scanner.PassesCanDisagree | src/core/cJSON.c:832-927 | a malformed \u makes the two passes pair backslashes differently |
| Scanner.ParseHex4 | src/core/cJSON.c:661-695 | the value of four hexadecimal digits, and 0 when one of them is none |
| Scanner.PutUtf8 | src/core/cJSON.c:776-807 | the encoding loop appends exactly the UTF-8 bytes |
| Scanner.Utf16LiteralToUtf8 | src/core/cJSON.c:698-816 | consumed length, bytes written and failure agree with the specification on every input |
| Parser.ParseBuffer.SkipWhitespace | src/core/cJSON.c:1085-1108 | the cursor moves exactly over the white space, with the step back at the end |
| Parser.ParseBuffer.ParseNumber | src/core/cJSON.c:307-408 | the node and the cursor agree with the specification of numbers |
| Parser.ParseBuffer.FindEnd | src/core/cJSON.c:832-853 | the first pass finds the closing quote and counts the bytes that will be needed |
| Parser.ParseBuffer.Unescaped | src/core/cJSON.c:866-927 | the second pass stays inside the array whatever the escapes look like, and gives the specified bytes |
| Parser.ParseBuffer.ParseString | src/core/cJSON.c:819-946 | success, value and new cursor agree with the specification |
| TreeParser.ParseValue | src/core/cJSON.c:1363-1415 | success, the new tree, the new cursor and the restored depth agree with the specification; the nodes are new and apart |
| TreeParser.ParseArray | src/core/cJSON.c:1492-1587 | the same for an array, with the sibling list closed |
| TreeParser.ParseObject | src/core/cJSON.c:1652-1767 | the same for an object, white space on both sides of the colon included |
| TreeParser.Parse | src/core/cJSON.c:1142-1225 | parsing a text gives a well-formed tree of new nodes with exactly the specified value, or fails as specified; LayoutExact.DocumentsExactly says for every text which of the two, and with which value |
| ListEdit.AddItemToArray | src/core/cJSON.c:2012-2043 | the item is the last child; links, tail pointer and value stay in agreement, and of the old children only the sibling pointers change |
| ListEdit.GetArrayItem | src/core/cJSON.c:1907-1924 | the child at the index, or nothing |
| ListEdit.DetachItemViaPointer | src/core/cJSON.c:2243-2277 | exactly that child is gone from list and value, and is loose with its name and its own tree untouched; a stranger is refused and nothing changes |
| ListEdit.DetachItemFromArray | src/core/cJSON.c:2279-2287 | the child at the index is taken out and handed over, or nothing changes |
| ListEdit.InsertItemInArray | src/core/cJSON.c:2319-2350 | list and value are the old ones with the item inserted at the index, or behind the last |
| ListEdit.ReplaceItemViaPointer | src/core/cJSON.c:2353-2400 | list and value are the old ones with exactly that child replaced |
| ListEdit.ReplaceItemInArray | src/core/cJSON.c:2402-2410 | the child at the index is replaced, or nothing changes |
| ListRun.Do | src/core/cJSON.c:2012-2410 | one edit, whichever it is, does to the children, the value and the pool of loose items what it does to sequences |
| ListRun.Run | src/core/cJSON.c:2012-2410 | any sequence of appends, insertions, detachings and replacements, detached items used again included: the container and the loose items stay well formed and apart, and children and value are the old ones with the same edits done on sequences |
| ListEdit.Unlink | src/core/cJSON.c:2243-2277 | the pointer writes of detaching leave a well-linked list without the node |
| ListEdit.LinkBefore | src/core/cJSON.c:2338-2349 | the pointer writes of inserting leave a well-linked list with the node in place |
| ListEdit.Relink | src/core/cJSON.c:2370-2396 | the pointer writes of replacing leave a well-linked list, also when head and tail are the same node |
| Copy.Duplicate | src/core/cJSON.c:2774-2858 | a disjoint well-formed tree with the same value, if and only if the item has at most 10000 levels of children |
| Paths.LevelsAre | src/core/cJSON.c:2774-2850 | what the limit on copying counts: the length of the longest way down |
| Copy.SameSymmetric | src/core/cJSON.c:3057-3180 | comparing values is symmetric |
| Copy.SameAsCopyExactly | src/core/cJSON.c:3057-3180 | a tree compares equal to its copy if and only if every member has the same value as the first sibling with its key |
| Copy.SameAsCopy | src/core/cJSON.c:3057-3180 | so it does when sibling keys are unique under the case rule |
| Copy.DuplicateKeysDiffer | src/core/cJSON.c:3126-3151 | with a key twice a tree can compare unequal to its own copy |
| CompareMeaning.CompareDecidesData | src/core/cJSON.c:3057-3180 | trees of integers whose siblings have different keys compare equal if and only if they hold the same data: equal leaves, equal lists and equal maps, with keys folded or not |
| CompareMeaning.Tolerance | src/core/cJSON.c:583-588 | two doubles are taken for equal exactly when they differ by at most 2^-52 times the larger |
| TreeCompare.GetObjectItem | src/core/cJSON.c:1936-1966 | the first child with the key under the case rule, or nothing; for a parent of any kind, a child without a key ends a case-sensitive search with nothing |
| TreeCompare.Compare | src/core/cJSON.c:3057-3180 | on any two trees, whatever they share and repeat, the result is `Alike`; trees with equal values compare equal, and only they do unless the trees share nodes and both have a key twice |
| TreeCompare.AlikeSymmetric | src/core/cJSON.c:3057-3180 | comparing heap trees is symmetric, pointer tests and repeated keys included |
| TreeCompare.AlikeIsSame | src/core/cJSON.c:3057-3180 | the comparison of heap trees is that of their values where the pointer test makes no difference, and never finds less |
| TreeCompare.CompareMembers | src/core/cJSON.c:3126-3151 | every member of one object is found in the other, and the first with its key is alike |
| Minify.MinifyTwice | src/core/cJSON.c:2860-2955 | minifying twice is minifying once, on every text |
| MinifyPieces.MinifiesExactly | src/core/cJSON.c:2860-2955 | every text is made of blanks, comments, single slashes, strings and plain characters, and exactly the strings and the plain characters are left, in order; a comment or a string that is not ended takes the rest |
| Minify.Minified | src/core/cJSON.c:2909-2955 | the result is never longer than the text |
| Minify.MinifyPrinted | src/core/cJSON.c:2887-2955 | minified formatted output is the unformatted output, and parses to the same tree, when no string or key ends in a backslash |
| MinifyExact.MinifyPrintedExactly | src/core/cJSON.c:2887-2955 | for every tree: that equation holds if and only if no string and no key ends in a backslash, or the only one that does is the last thing in the text |
| MinifyExact.Misread | src/core/cJSON.c:2887-2907 | in every other tree the two texts differ at some position, whatever follows |
| MinifyBuffer.CopyString | src/core/cJSON.c:2887-2907 | the string is copied up to its closing quote without touching what is still to be read |
| MinifyBuffer.MinifyInPlace | src/core/cJSON.c:2909-2955 | the buffer holds the minified text; the writer never passes the reader and nothing behind the old end is touched |
| Conversation.CompactKeeps | src/agent/agent.c:55-91 | a compaction at two or more messages removes at least one and keeps the system message and a suffix in order |
| Conversation.AddSound | src/agent/agent.c:93-108 | appending, compaction or not, keeps count, order and tool protocol, and the new message stands last |
| Conversation.RunSound | src/agent/agent.c:363-475 | in every run: at most max(limit, 2) messages, the system message first and nowhere else, tool messages only behind calls or other tool messages |
| Conversation.ToolRun | src/agent/agent.c:55-108 | each maximal run of tool messages starts right behind tool calls or at index 1 |
| Conversation.OrphansAfterCompaction | src/agent/agent.c:66-108 | exactly when appending to a full history leaves a result without its call behind the system message, a call removed while its result is pending included: a condition on the messages around the first cut |
| Conversation.CompactionCanSplit | src/agent/agent.c:13 | a reachable run with such an orphan, against the header's claim |
| Conversation.PendingCallCanGo | src/agent/agent.c:66-108 | under a limit of 2 the first turn asks the provider a second time with a result whose call was removed |
| Conversation.ChatRollsBack | src/agent/agent.c:377-474 | a turn that ends in an error or out of iterations leaves the history as it was, unless a compaction fired; then it is no longer |
| Conversation.CutBetweenPairs | src/agent/agent.c:66-74 | with one call a reply and a limit of at least 8 the cut falls between two pairs |
| Conversation.RunPaired | src/agent/agent.c:66-447 | with one call a reply, a limit of at least 8 and no roll-back after a compaction in one turn, no run ever separates a result from its call |
| Conversation.RollBackKeepsComplete | src/agent/agent.c:285-411 | for any number of calls a reply: a roll-back keeps calls and results together if and only if the first message that goes is no result |
| Conversation.RollBackKeepsPairs | src/agent/agent.c:285-411 | the same with one call a reply: if and only if the message in front of the index has no calls |
| Conversation.RollBackCanSplit | src/agent/agent.c:403-411 | a reachable run: three turns, then one that compacts twice and fails, leave a call without its result |
| Conversation.WhenThereIsNoReply | src/agent/agent.c:413-468 | an iteration ends a turn without a reply exactly when the provider's answer has neither text nor calls |
| Conversation.ChatReplies | src/agent/agent.c:363-475 | with a provider that never answers so, every turn has a reply |
| Transcript.ChatSays | src/agent/agent.c:363-475 | a turn message by message: the provider is first asked with the history and the text of the user, which stands last; each answer with tool calls is followed by the question that holds it and the result of each call in order; the last answer decides reply and history: its stripped text, its error, or the message that the iterations are used up, the last two with a roll-back |
| Transcript.ToolsSay | src/agent/agent.c:424-447 | each result that is appended is what the tool answered for that call, or the text for an unknown tool |
| Transcript.LastStands | src/agent/agent.c:93-108 | what is appended last stands last, whatever is compacted on the way |
| Transcript.RoomForAll | src/agent/agent.c:93-108 | while there is room, appending loses nothing |
| Transcript.NothingIsAsked | src/agent/agent.c:363-375 | an empty text is refused at once, and without iterations no provider is asked |
| Transcript.AQuarterGoes | src/agent/agent.c:55-91 | how much a compaction removes: a quarter of the limit, at least one message and at most all behind the first, but not a last one with calls while there is another |
| Transcript.LimitIs | src/agent/agent.c:55-108 | a limit from 1 to 128 is taken as it is, any other is 128 |
| Thinking.PlainTextIsKept | src/agent/agent.c:296-327 | a text without an opening tag is kept as it is |
| Thinking.BlockIsDropped | src/agent/agent.c:296-327 | a thinking block goes from its opening tag to the first closing one, and the rest is treated the same way |
| Thinking.OpenBlockTakesTheRest | src/agent/agent.c:296-327 | a block that is never closed swallows the rest |
| Thinking.WhenTagsForm | src/agent/agent.c:296-327 | for every reply: the stripped text holds an opening tag if and only if a kept piece and what is kept behind it put one together |
| Thinking.TagsCanForm | src/agent/agent.c:296-327 | an instance: a block between the two halves of a tag |
| Thinking.StrippedIsTrimmed | src/agent/agent.c:296-327 | of what is kept the white space at both ends goes, and nothing else |
| Text.TrimIs | src/core/types.c:140-148 | trimming takes the white space from both ends and nothing else |
| Text.FindIs | src/agent/agent.c:305-311 | the search finds the first occurrence, and nothing if and only if there is none |
| AgentLoop.Agent.CompactHistory | src/agent/agent.c:55-91 | the array holds exactly the specified history, and fewer messages than before |
| AgentLoop.Agent.RemoveAfterFirst | src/agent/agent.c:83-88 | the memmove keeps the first message and the suffix in order |
| AgentLoop.Agent.AddMessage | src/agent/agent.c:93-108 | the message is appended as specified and no write leaves the array of 128 |
| AgentLoop.Agent.RollBackTo | src/agent/agent.c:285-288 | popping leaves the first `count` messages |
| AgentLoop.Agent.NewConversation | src/agent/agent.c:270-274 | the history is empty |
| AgentLoop.Agent.StripTags | src/agent/agent.c:296-327 | the loop drops exactly the blocks that the three lemmas above describe |
| AgentLoop.Agent.RunToolCalls | src/agent/agent.c:424-447 | the results of all calls are appended in order, with the compactions in between |
| AgentLoop.Agent.Ask | src/agent/agent.c:381-468 | one iteration: roll-back on an error, tool calls, or the final text, as specified |
| AgentLoop.Agent.Chat | src/agent/agent.c:363-475 | history, reply and number of calls made are those of the specified turn, which Transcript.ChatSays gives message by message |
| Gateway.SlotsAreConserved | src/gateway/gateway.c:312-428 | in every reachable state free slots, the listener's slot and live workers add up to 8; at most 8 workers live, and all slots are free in the end |
| Gateway.MutualExclusion | src/gateway/gateway.c:218-221 | at most one worker is between lock and unlock, and it is the holder |
| Gateway.NoDeadlock | src/gateway/gateway.c:312-406 | until the listener has stopped and all workers have left, some thread can move |
| Gateway.RestStep | src/agent/agent.c:363-475 | no step inside the locked region changes how the turn will end |
| Gateway.Serialisable | src/gateway/gateway.c:218-221 | for every interleaving: with the mutex free the history is that of the turns one after another in lock order, and every reply sent is the one of that serial run; which turns those are is in GatewayRequests.RequestsAreConserved |
| Gateway.SerialInvariant | src/gateway/gateway.c:218-221 | while a worker is inside, its turn is about to end as the serial run does |
| Gateway.EveryTurnAnsweredOnce | src/gateway/gateway.c:218-236 | every turn that has left the locked region is in the hands of exactly one worker or has exactly one reply on record; that every chat request gets its turn is in GatewayRequests.EveryRequestIsAnswered |
| GatewayRequests.RequestsAreConserved | src/gateway/gateway.c:195-340 | for every interleaving: the chat requests that came in are, as a multiset, those that wait for the agent and those that were said to it, and also those in the hands of a worker and those that were answered |
| GatewayRequests.EveryRequestIsAnswered | src/gateway/gateway.c:195-340 | from every reachable state the gateway can go on until all workers have left and every chat request has been said once and answered once, with the reply of its turn in the serial run |
| GatewayRequests.ConnectionsAreConserved | src/gateway/gateway.c:342-406 | every accepted connection is in the hand of the listener, was dropped for want of memory or a thread, or got a worker of its own; the listener stops only when it was told to |
| GatewayRequests.NextConnectionIsServed | src/gateway/gateway.c:342-406 | as long as the gateway runs it can go on from every reachable state to serve the next connection |
| GatewayRequests.GatewayStops | src/gateway/gateway.c:342-428 | after a shutdown it can go on until the listener has stopped, the workers have left and all 8 slots are free |
| GatewayRequests.OneMoreAtMost | src/gateway/gateway.c:342-406 | behind a shutdown at most one more connection gets a worker |
| MemoryFile.WhichSection | src/memory/md_memory.c:73-89 | for every category, or none, exactly which section it stands for: the first it names, without one the first that one of its words stands for, and else the last |
| MemoryFile.NamedSection | src/memory/md_memory.c:75-80 | the loop stops at the first section that contains the category or is contained in it, and at none before |
| Text.ContainsNoCaseIs | src/memory/md_memory.c:75-89 | a category contains a word when the word stands somewhere in it, upper and lower case being one |
| MemoryMap.SectionsNameThemselves | src/memory/md_memory.c:50-89 | a category that is the name of a section stands for that section and no other |
| MemoryMap.CanonicalIsGood | src/memory/md_memory.c:50-89 | each of them makes a heading that both loops read the same way |
| MemoryLaws.BulletLine | src/memory/md_memory.c:225-226 | a written bullet is one line that holds its key and its value and nothing else |
| MemoryLaws.GluedIsLost | src/memory/md_memory.c:293-303 | a bullet glued to a last line without newline never matches its key |
| MemoryMap.RecallStored | src/memory/md_memory.c:218-361 | from any state of the loops: a stored fact is recalled as its trimmed value, or not at all, exactly when it was glued |
| MemoryMap.RecallStoredExactly | src/memory/md_memory.c:218-361 | from any state of both loops, whatever the headings look like: the recall gives the new trimmed value, or what it gave before the store, exactly when it misses the place of the new bullet |
| MemoryMap.RecallAfterStoreExactly | src/memory/md_memory.c:92-361 | the same for whole files, with the size limit |
| MemoryMap.RecallAfterStore | src/memory/md_memory.c:92-361 | on every well-formed file the recall gives the trimmed value if and only if the new file is within 256 KB and nothing was glued |
| MemoryMap.HeadingsClash | src/memory/md_memory.c:252-335 | the two loops never read one heading as two different sections |
| MemoryMap.GluedFile | src/memory/md_memory.c:293-303 | gluing only puts the bullet behind the last line, and the next store never glues |
| MemoryMap.OthersUnchanged | src/memory/md_memory.c:218-361 | every other section and key is recalled as before, in a file with stray blanks, too, for the four sections |
| MemoryMap.RecallWhenGlued | src/memory/md_memory.c:218-361 | when the bullet was glued: any key is recalled as before unless the recall reaches the last line, and then the longer line decides where the shorter did; only a last line that is a bullet makes a difference |
| MemoryMap.GluedValueGrows | src/memory/md_memory.c:293-361 | the key of that bullet takes the new bullet into its value |
| MemoryMap.StoreTwice | src/memory/md_memory.c:218-312 | storing a fact twice gives the same file as storing it once, stray blanks or not |
| MemoryMap.StoredAgain | src/memory/md_memory.c:218-312 | the same from any state of the loop, and the file stays well formed |
| MemoryMap.RunIsMap | src/memory/md_memory.c:218-361 | over any run of stores the file is a map: each key has the value last stored, or the one of the first file |
| MemoryMap.OnlyGoodKeysAreFound | src/memory/md_memory.c:344-352 | no file yields a key with a colon, a newline, white space around it or 512 bytes, so the condition on keys is needed |
| MemoryMap.StrayBlankKeepsTheOldValue | src/memory/md_memory.c:252-335 | with a blank behind its heading every such file misses: the recall returns the old value after a store |
| MemoryMap.FirstFileIsGood | src/memory/md_memory.c:133-145 | the first file is well formed and ends in a newline |
| MemoryStore.Memory.Store | src/memory/md_memory.c:218-312 | the file becomes the specified text, or the call is refused and the file kept |
| MemoryStore.Memory.Recall | src/memory/md_memory.c:318-361 | the result is the one that MemoryDocument.RecallReads reads off the lines of the file |
| MemoryDocument.LinesOf | src/memory/md_memory.c:218-361 | every file whose lines fit is a list of headings, bullets with a first colon, and other lines |
| MemoryDocument.RecallReads | src/memory/md_memory.c:318-361 | from any state of the loop, whoever wrote the file: the recall gives the value of the first bullet with the key below a heading of the section, blanks around titles, keys and values aside, with the cuts at 255 and 511 bytes |
| MemoryDocument.FileReads | src/memory/md_memory.c:318-361 | the same for whole files within the size limit |
| MemoryDocument.StoreWrites | src/memory/md_memory.c:218-312 | from any state of the loop: the lines that the store writes, with the new bullet in the place of the old one, in front of the next heading, at the end, or in a new section, cut to 2047 bytes |
| MemoryDocument.FileWrites | src/memory/md_memory.c:218-312 | the same for whole files within the size limit |
| MemoryDocument.LongFile | src/memory/md_memory.c:92-361 | a file over 256 KB reads as empty: nothing is recalled from it, and a store writes a new one |
| Schedule.RunsAreSpaced | src/tools/scheduler/scheduler.c:84-183 | for every clock: additions and runs of one task are at least its interval apart, no id is given out twice, an active task has a command, and at most 64 tasks are ever added |
| Schedule.TickRunsTheDue | src/tools/scheduler/scheduler.c:92-104 | a tick runs exactly the tasks that are active, not paused and due, each once |
| Schedule.GapIsBounded | src/tools/scheduler/scheduler.c:92-104 | a task that was running at the last tick, or was added since, is run less than its interval plus the tick gap after its last run |
| Schedule.StoppedStaysQuiet | src/tools/scheduler/scheduler.c:92-240 | a deleted task never runs again, and a paused one not until it is resumed |
| ScheduleHistory.TableIsTold | src/tools/scheduler/scheduler.c:84-252 | over every run: one task for each accepted call in order, with the name, the command and the interval of that call until it is deleted, and paused when that was said last |
| ScheduleHistory.MarksAreTold | src/tools/scheduler/scheduler.c:84-252 | over every run: whatever was run was the command of an accepted call |
| ScheduleHistory.MarksAreApart | src/tools/scheduler/scheduler.c:84-183 | two marks of one task are at least the interval apart that the call asked for |
| ScheduleHistory.TickRunsWhatWasAsked | src/tools/scheduler/scheduler.c:92-104 | over every run: a tick runs exactly the commands of the accepted calls whose task is not deleted, not paused, and was last marked at least its interval ago |
| ScheduleHistory.AddAnswerIsTold | src/tools/scheduler/scheduler.c:146-175 | which answer an added task gets, from the calls before it |
| ScheduleHistory.ControlAnswerIsTold | src/tools/scheduler/scheduler.c:213-252 | a control call is done exactly when its task was added and not deleted |
| SchedulerTable.Scheduler.RunTick | src/tools/scheduler/scheduler.c:84-108 | table and record of runs become the specified ones |
| SchedulerTable.Scheduler.ScheduleAdd | src/tools/scheduler/scheduler.c:146-175 | table, next id, record and answer are the specified ones; a refused call changes nothing; which task that is, is in ScheduleHistory.TableIsTold |
| SchedulerTable.Scheduler.ScheduleControl | src/tools/scheduler/scheduler.c:213-252 | the first active task with the id is changed as the action says, or nothing is |
| ToolCalls.ArgumentsSurvive | src/providers/ollama/ollama.c:160-199 | a call is kept exactly when its arguments are absent, a string that parses, or a value within the nesting limit; then the stored string decodes to what was meant on both paths |
| ToolCalls.ReadingsAgree | src/agent/agent.c:209-359 | the tool and the next request read every stored string alike |
| Request.BuildMessages | src/agent/agent.c:136-242 | the loops build exactly the specified messages |
| Wire.RequestOrder | src/agent/agent.c:136-242 | one message in the request for each of the history, one call for each of its calls, in order |
| Wire.MessageFields | src/agent/agent.c:136-242 | the role and the content of a message, the id and name of a result and the calls stand in the fields of these names, which are missing otherwise |
| Wire.CallFields | src/agent/agent.c:136-242 | id, name and arguments of a call stand in its fields, the arguments as text or as a value |
| Request.SentExactly | src/providers/ollama/ollama.c:36-39 | the provider gets exactly the history, or no messages at all: it gets it if and only if the decoded arguments nest at most 995 deep and the text fits an int |
| Request.MessagesAtMost | src/agent/agent.c:136-242 | arguments stand under exactly five more containers in a request |
| Request.ObjectArgumentsNest | src/providers/ollama/ollama.c:141-199 | arguments that came as an object always nest at most 995 deep |
| Request.DeepStringLosesTheMessages | src/providers/ollama/ollama.c:164-173 | a string of 996 levels is kept with its call, and the next request has no messages |
| ToolCalls.WhichCallsAreKept | src/providers/ollama/ollama.c:142-199 | for a reply that was parsed, whatever numbers stand outside the arguments, the nesting limit never drops a call |
| ToolCalls.NormaliseMaps | src/providers/ollama/ollama.c:141-214 | the normalised calls are the kept items in order, each with its name, meaning and number |
| ToolCalls.ReplyCalls | src/providers/ollama/ollama.c:70-226 | a reply hands over exactly the normalised calls, whichever branch it ends in |
| Wire.UnreadableReply | src/providers/ollama/ollama.c:70-79 | a body that does not parse is an error |
| Wire.ErrorReply | src/providers/ollama/ollama.c:83-89 | an error field is handed on as the error |
| Wire.TruncatedReply | src/providers/ollama/ollama.c:91-117 | calls of a generation that stopped early are refused with a text that names the reason, cut to 127 bytes |
| Wire.TextReply | src/providers/ollama/ollama.c:119-243 | without calls the reply is the content field |
| Wire.CallsReply | src/providers/ollama/ollama.c:141-243 | with calls it is the content and the normalised calls, or an error when there is neither |
| Wire.CallIsRead | src/providers/ollama/ollama.c:141-214 | a call with a name and readable arguments is kept, with its number in its id, its name and its arguments as text |
| ToolCalls.RunOfReplies | src/providers/ollama/ollama.c:141-214 | over any run of replies the k-th call stands for the k-th kept item and has the number k |
| ToolCalls.IdsAreUnique | src/providers/ollama/ollama.c:202-205 | in every run of replies two calls have the same id if and only if a multiple of 2^32 calls lies between them |
| OllamaProvider.Ollama.Serialise | src/providers/ollama/ollama.c:160-192 | the string that is stored, or none when the call must be skipped |
| OllamaProvider.Ollama.NormaliseCalls | src/providers/ollama/ollama.c:141-214 | calls and counter are the specified ones |
| OllamaProvider.Ollama.Complete | src/providers/ollama/ollama.c:70-243 | reply and counter are the specified ones in every branch |

## Left out

- Numbers that "%d" does not print: `sprintf("%1.15g")` and rounding to doubles are not modelled; trees are printed with integers in int range, and `Strtod` is exact.
- TreePrinter.PrintValue: asks for printable trees (integers in int range, strings without NUL), for the same reason.
- TreePrinter.PrintPreallocated: nothing is said of the caller's bytes behind the text and its NUL.
- OllamaProvider.Ollama.Complete: asks that the numbers in the arguments of tool calls are integers in int range, for the same reason; all other numbers are free.
- Allocation failure, allocator hooks, `cJSON_Delete`, `cJSON_Raw`, references, constant keys, non-recursive duplication, and the plumbing that adds, detaches or replaces by key.
- ListEdit.AddItemToArray: like the other list operations, stated for a container that is itself in no tree; a container inside a tree would need the ghost fields of its ancestors updated too. The pointer writes are the same.
- ListEdit.InsertItemInArray: inserting a container into itself in front of one of its children is outside the statement, because it makes a cycle.
- MinifyBuffer.MinifyInPlace: asks for a buffer with a NUL in it, as the source does.
- ListEdit.DetachItemViaPointer: asks that an item in no list of this container is linked into no other list either; the source would cut it out of that list without its parent knowing.
- ListEdit.ReplaceItemViaPointer: asks that the item is a child of the container, for the same reason.
- Request.SentExactly: asks for integers in the decoded arguments, as printing does; normalised calls always have a function and an arguments string, so the branches without them are left out.
- `Settings` is fixed over a run: the system prompt and the limit do not change between conversations.
- Thinking callbacks, the request's JSON around the messages (model, tools), HTTP, sockets, files, processes and terminals.
- Gateway.Serialisable: about the gateway's workers among themselves. The command line calls `agent_chat` (src/cli/main.c:554) without taking the gateway's mutex and is not part of this model.
- `gateway_destroy` frees the gateway while detached workers may still run; only its clearing of `running` is modelled.
- MemoryStore.Memory.Store: asks for lines below 2048 bytes; above that the source copies bytes from behind its line buffer, which has no defined result.
- MemoryMap.RecallAfterStore: the value is cut to 510 bytes and the bullet must fit 2046 bytes, as the source's buffers do.
- MemoryMap.RunIsMap: starts from a file that ends in a newline, as the first file does; what happens without it is in MemoryMap.RecallAfterStore.
- Write failures of the memory file, migration of old files (it stores values of several lines) and `memory_search`.
- `parse_interval` and its `sscanf` formats: its result is a parameter of `ScheduleAdd`; overflow of a long interval is not modelled.
- Locking in the memory and the scheduler: each operation is one atomic step, as it is under their mutexes.
- Running the command of a task (double fork), listing tasks and stopping the scheduler thread.
- Configuration, tool registry, allowlist, history log, templates, slash commands, heartbeat, skills, serial and user interface code: plumbing around the parts above.
