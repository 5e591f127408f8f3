# A verified model of the Ape framework's core

Ape is a C++ framework for event-driven network servers. This project models the parts of it that keep state, and proves
what they are relied upon for. Each part is modelled twice where the source changes things in place: once as objects and
methods with the source's branches, constants and edge cases, once as plain functions or a state machine, with the
methods proved to compute the functions; the theorems are about the functions and the machines.

- **Timer wheel** (`WheelArithmetic`, `NodeTiming`, `Rings`, `TimerManager`, `NodeRings`, `NodeWalks`, `CallbackWalks`).
  Five wheels of 256 and four times 64 spokes form a clock in mixed radix; nodes cascade from wheel to wheel. The wall
  clock is read afresh at every place the source reads it and may have advanced by any amount in between. For every run:
  a node becomes ready at a closing wheel time at most one granule after its deadline, never before the deadline less
  the lag of its last placement, whatever number of cascades it went through; a timer stopped is not called before it is
  started again, also when a callback of the same batch stops it. The pointer walks, over rings that are being taken
  apart under them, are proved separately.
- **TinyXML2** (`XmlText`, `XmlMeaning`, `XmlTree`, `XmlParser`, `XmlRoundTrip`, `XmlInputs`, `XmlPrinter`,
  `XmlIndented`, `XmlReader`, `XmlStrings`, `XmlBytes`, `ChildLists`, `MemPool`). The compact print of every normalised
  tree parses back to the tree; the indented print does so exactly when no plain text stands directly before an element,
  and what comes back otherwise is stated exactly. What a text means is said by its pieces, and what the reader makes of
  input that no printer wrote, errors included, by its form. The in-place unescaper, the UTF-8 encoder, the child lists
  and the free-list pool are proved against plain specifications.
- **Sessions** (`Session`, `SessionRuns`, `SessionLaws`, `SessionObject`, `HttpSession`). The request life cycle as a
  machine over connect, send, read, time-out and close events: conservation of requests, one ending each, armed timers
  exactly for the remembered requests; laws of what every event adds to the log and of what reaches the owner in
  every run; and pipelined HTTP answers leaving in the order of the requests.
- **Framing** (`Thrift`, `ThriftParser`, `Buffer`, `Framing`, `PacketLimit`, `Connection`). Every way of cutting a
  stream of Thrift frames into reads delivers the same messages and keeps exactly the unfinished frame, unless a read
  overfills the buffer; and no read does exactly as long as no frame is longer than 10484736 bytes.
- **HTTP codec** (`HttpText`, `HttpDecoder`, `HttpEncoder`, `HttpNumbers`, `HttpRoundTrip`, `HttpHeaders`, `HttpStart`,
  `HttpMessages`, `HttpRequests`, `HttpTargets`, `HttpBodies`, `HttpParser`). Chunked bodies, responses and streams of
  requests come back as they were written, and decoding stops where the next message begins.
- **Priority queue** (`MessageQueue`, `MessageRings`). Three rings under one monitor: a sequential refinement; order and
  accounting in any interleaving of putters and getters; and no lost wake-up exactly as long as no timed wait gives up a
  notification that somebody else needed.

`Wrappers` holds the optional value the modules share, `Sequences` what they say of sequences, `Digits` what digits
spell. Integers are unbounded unless a wrap-around is written out; it is where the source's 32-bit arithmetic can wrap
on values it is handed (spoke indices, tick counts, frame sizes, request numbers, `atoi`).

## Where the code departs from what one would expect

These are modelled as the code has them, with a lemma each:

- A time-out looks its request up by sequence id. With two outstanding requests of one id, the wrong one can be struck
  off (`DuplicateIdLosesRequest`); `ExpireExact` says exactly when that does not happen, and `TimersSafe` when it cannot
  happen next. HTTP messages all have sequence id 0 (frame/event/httpmessage.h:33), for which `EqualIdsQueue` gives the
  order that keeps time-outs sound.
- After a failed connect the session stays in the connecting state. Dialling takes place exactly outside the connecting
  and the connected state (`DialsExactly`), and only the end of the connection or of the session leaves these
  (`FailedConnectSticks`); so the reconnect timer, armed for this, runs out in vain (`ReconnectTimerInVain`).
- A request sent after `Close` dereferences a null owner (`RequestAfterCloseFaults`).
- Thrift sequence numbers come back with their bytes swapped; an echoing peer swaps them back (`EncodeDecode`,
  `EchoRestoresSeqid`).
- A Thrift method length that points past its frame makes the result depend on bytes that follow (`IndependentFrames`).
- A Thrift frame whose size does not cover its own method is taken apart all the same, and bytes are read that were
  never received; sixteen bytes suffice (`ShortFrameReadsPastEnd`). `ReadsPastEnd` says exactly when, by the frame's own
  fields, and `ReadsPastBuffer` for a whole buffer.
- A partial HTTP request line is an error, not an incomplete message (`PartialRequestIllegal`); a complete request
  without any header line is taken to be incomplete (`HeadlessIncomplete`, `HeadWaits`), and swallows the line that
  follows (`FollowerSwallowed`).
- Frames longer than 10484736 bytes are well within the packet limit of 16 MB, yet two of them in a row are delivered or
  not depending on how they are cut into reads (`LongFramesDepend`).
- An empty HTTP/1.1 response body is written as two last chunks, of which the decoder takes one (`ResponseRoundTrip`).
- A status code without a text of its own is cut to six characters (`StatusCode`).
- An ampersand that starts no known reference is replaced, in place, by a character that stood elsewhere
  (`StrayAmpersandLost`); `ScanIsUnescape` says exactly when in-place unescaping is the plain one, and
  `ReferencesResolve` that it is whenever every ampersand starts a reference.
- The indented print puts an element's indentation behind a text in front of it (`IndentedThenParse`, `IndentedExact`).
- Inserting a child after itself makes it its own sibling, unless it is the last (`InsertAfterChild`).
- A timed wait may end by its timeout although a notification has reached it, and the notification is then not passed
  on. So an item can stay stored with a getter waiting (`GetTimeoutLosesWakeUp`), or a slot free with a putter waiting
  (`PutTimeoutLosesWakeUp`). `RunExact` says exactly when a run is free of this, `RunWithin` how much can be lost in any
  run, and `SafeGetters` and `SafePutters` which set-ups of threads never meet it.
- A timer started while the wheel lags behind the clock can be called before its deadline (`StartedWhileLagging`);
  `EarlyCallExact` says exactly when.

## Model

| member | source | states |
|---|---|---|
| WheelArithmetic.PlacementFallsDueInTime | frame/common/timermanager.cc:108-131 | the spoke chosen for an interval is emptied when the interval is over on wheel 0, and on a higher wheel at its last step not after it; holds for an index equal to the wheel size and for the 32-bit wrap on the last wheel |
| WheelArithmetic.SpokeIsStepsAhead | frame/common/timermanager.cc:115-131 | the chosen spoke lies exactly the interval's whole steps ahead of the current digit, modulo the wheel |
| WheelArithmetic.StepEmptiesOneSpoke | frame/common/timermanager.cc:41-44 | a step of a wheel changes the next emptying of the spoke under its index only |
| WheelArithmetic.Carry | frame/common/timermanager.cc:41-44 | a wheel that is stepped on a multiple of its weight reaches a whole number of turns and carries exactly when its digit becomes zero |
| WheelArithmetic.NoCarry | frame/common/timermanager.cc:93-99 | wheels above one that did not carry have the same number of turns before and after the tick |
| NodeTiming.FreshNodeOnTime | frame/common/timermanager.cc:102-107 | a new timer's node starts with the whole promise: due between deadline less lag and one granule later on wheel 0, never after the deadline less lag above, cascades within budget |
| NodeTiming.NeverClimbs | frame/common/timermanager.cc:77-92 | the remaining time of a cascaded node fits 32 bits and asks for no higher wheel, however far the clock ran ahead |
| NodeTiming.CascadedNodeOnTime | frame/common/timermanager.cc:77-92 | re-placing a node when its spoke is emptied keeps the promise, so error does not accumulate over cascades |
| NodeTiming.BudgetSuffices | frame/common/timermanager.cc:77-92 | every prompt cascade counts against the wheel the node is taken off and leaves it within its budget: to a lower wheel, or once more to the same |
| NodeTiming.BudgetKept | frame/common/timermanager.cc:77-92 | a prompt node is taken off each higher wheel at most twice, and off wheel 0 by no cascade |
| NodeTiming.HarvestedNodePunctual | frame/common/timermanager.cc:31-40 | a node harvested from wheel 0 becomes ready at a closing wheel time in (deadline - lag, deadline - lag + 10] |
| NodeTiming.OverdueNodePunctual | frame/common/timermanager.cc:77-92 | a node readied straight from a cascade has reached its deadline by the clock and is not late by wheel time |
| NodeTiming.StillHungNotOverdue | frame/common/timermanager.cc:25-48 | while a node hangs on a spoke, wheel time has not passed its deadline less its lag |
| NodeTiming.EarlyOnlyByLag | frame/common/timermanager.cc:25-48 | a node that becomes ready with the clock before its deadline does so on wheel 0 and was hung up lagging |
| TimerManagement.EarlyCallExact | frame/common/timermanager.cc:25-48 | a timer hung on wheel 0 can be called before its deadline if and only if the wheel lagged, when it was hung up, by more than the interval lacks to the next granule |
| TimerManagement.StartedWhileLagging | frame/common/timermanager.cc:102-137 | readings of the clock for which that happens |
| TimerManagement.StepWheel | frame/common/timermanager.cc:41-44 | one wheel's step keeps the odometer: indices are the digits of the tick count, with the transient full index, and the carry happens on whole weights |
| TimerManagement.DetachSpoke | frame/common/timermanager.cc:67-76 | the nodes of the spoke under the index are exactly those due now, and the promises of all others survive the step |
| TimerManagement.CallNeedsStart | frame/common/threadtimer.cc:10-29 | between a stop or a call of a timer and its next call lies a start of it |
| TimerManagement.CircularRestarted | frame/common/threadtimer.cc:23-29 | in the history of a visit each call of a circular timer is followed at once by its being stopped and started again |
| TimerManagement.OneShotNotRestarted | frame/common/threadtimer.cc:23-29 | a one-shot timer is started during a visit only by an action of some callback that starts it |
| TimerManagement.TimerManager.Perform | frame/common/threadtimer.cc:10-22 | what an action adds to the history: a start stops and starts, a stop stops, a new timer starts if it is made to and is heard of by nobody else |
| TimerManagement.TimerManager.constructor | frame/common/timermanager.cc:13-19 | a manager starts sound, at wheel time equal to the clock |
| TimerManagement.TimerManager.AddToReadyNode | frame/common/timermanager.cc:49-55 | the node goes to the end of the ready list, punctually |
| TimerManagement.TimerManager.AddTimerNode | frame/common/timermanager.cc:108-137 | the node goes to the end of the chosen spoke's ring and nothing else moves |
| TimerManagement.TimerManager.HarvestSpoke | frame/common/timermanager.cc:32-40 | wheel 0's current spoke moves, in order, to the end of the ready list |
| TimerManagement.TimerManager.Rehang | frame/common/timermanager.cc:77-92 | of the nodes of a cascading spoke exactly the overdue become ready, the others go to the same or a lower wheel |
| TimerManagement.TimerManager.TakeSpoke | frame/common/timermanager.cc:67-76 | the wheel is stepped and exactly the nodes of the spoke it has left are taken off, each due at this tick |
| TimerManagement.TimerManager.Cascade | frame/common/timermanager.cc:67-101 | the wheel is stepped, its spoke's nodes are hung up again, and the carry goes on; no node is lost, none climbs, none leaves the ready list |
| TimerManagement.TimerManager.Tick | frame/common/timermanager.cc:31-46 | one tick advances wheel time by ten and keeps indices, rings and every node's promise |
| TimerManagement.TimerManager.AddTimer | frame/common/timermanager.cc:102-107 | a fresh pending node with deadline clock plus interval |
| TimerManagement.TimerManager.RemoveTimer | frame/common/timermanager.cc:138-150 | exactly that node leaves its ring, the ready list included |
| TimerManagement.TimerManager.DoTimeOutCallBack | frame/common/timermanager.cc:56-66 | terminates, since callbacks cannot make nodes ready, with an empty ready list and nothing unaccounted for; the history gains, round by round, a call, the restart of a circular timer, and what the actions of that callback add, in order |
| TimerManagement.TimerManager.DetectTimerList | frame/common/timermanager.cc:25-48 | wheel time catches up; whatever was called had expired punctually; a timer a granule overdue has been called or removed, unless the clock ran 2^32 granules ahead; the history gains exactly the rounds of the callbacks, in order |
| TimerManagement.ThreadTimer.Start | frame/common/threadtimer.cc:10-15 | stops first, then has exactly one pending node, due one interval from the clock reading |
| TimerManagement.ThreadTimer.Stop | frame/common/threadtimer.cc:16-22 | no pending node afterwards, the history still stop safe |
| TimerManagement.ThreadTimer.Callback | frame/common/threadtimer.cc:23-29 | the history gains exactly the call, a stop and a start if the timer is circular, and what the actions add, in order; without actions a circular timer is left armed one interval from the clock and a one-shot timer without a node |
| TimerManagement.RunActions | frame/common/threadtimer.cc:28-28 | a callback may start and stop any timers and make new ones; the history gains what each action adds, in order, and with no action nothing changes |
| NodeRings.SelfLinkedEmpty | frame/common/timermanager.h:16-20 | a head linked to itself is the empty ring, and conversely |
| NodeRings.Walk | frame/common/timermanager.cc:56-63 | following next pointers from the head meets the nodes in order and then the head, and so backwards |
| NodeRings.Append | frame/common/timermanager.cc:49-55 | the pointer writes append to the ring |
| NodeRings.Detach | frame/common/timermanager.cc:36-38 | the pointer writes take exactly that node out, which keeps its own pointers |
| NodeRings.Remove | frame/common/timermanager.cc:138-150 | as Detach, and the node's pointers are cleared |
| NodeRings.MoveAll | frame/common/timermanager.cc:33-40 | the harvest loop empties one ring into the end of another, in order, walking by the pointers left in moved nodes |
| NodeWalks.EmptyHead | frame/common/timermanager.cc:70-76 | only the head is reset: its ring is empty, and its nodes still form a chain that ends at the head |
| NodeWalks.Rehang | frame/common/timermanager.cc:76-92 | the walk over that chain while its nodes are relinked elsewhere, the emptied ring included: every ring gains exactly the nodes hung up in it, at its end and in their order |
| NodeWalks.HungAllInOrder | frame/common/timermanager.cc:77-92 | what that is for each ring: what it held, and then the nodes bound for it, in order |
| CallbackWalks.CallBackAll | frame/common/timermanager.cc:56-66 | the callback walk, which deletes nodes without unlinking them, while callbacks stop timers, ready or hung in other rings, and start timers: the nodes called are those not stopped before their turn, in order; the other rings end as the callbacks left them; nothing is read from or written to a node once deleted |
| CallbackWalks.CalledOrStopped | frame/common/timermanager.cc:56-66 | each ready node is called or stopped, exactly once |
| CallbackWalks.TakeFrom | frame/common/timermanager.cc:138-150 | a node is taken off its ring and the other rings stay as they are |
| XmlText.Utf8RoundTrip | frame/tinyxml2/tinyxml2.cpp:282-327 | every code below 0x200000 is encoded with the lead and continuation bits of its length, and decodes to itself (section 3 of RFC 3629) |
| XmlBytes.ConvertUTF32ToUTF8 | frame/tinyxml2/tinyxml2.cpp:282-327 | the masks, marks and shifts, applied bit by bit from the last byte to the first, write exactly that encoding and nothing else |
| XmlBytes.Continuation | frame/tinyxml2/tinyxml2.cpp:308-320 | marking and masking any word leaves its low six bits with the mark of a continuation byte |
| XmlText.CharacterRef | frame/tinyxml2/tinyxml2.cpp:330-405 | what a numeric reference stands for is never longer than the reference, so writing in place stays behind reading |
| XmlMeaning.ReferenceMeans | frame/tinyxml2/tinyxml2.cpp:330-405 | a numeric reference, in decimal or in hexadecimal digits of either case, whatever follows it, is the UTF-8 form of the number its digits spell from the left, for every number below 2^32 |
| XmlMeaning.TextMeans | frame/tinyxml2/tinyxml2.cpp:178-260 | a text put together from characters, named entities, numeric references and line ends is read in place as what these mean, piece by piece; CR LF, LF CR, CR and LF are each one LF |
| XmlText.MalformedReference | frame/tinyxml2/tinyxml2.cpp:330-405 | a numeric reference is malformed if and only if no semicolon ends it, or something but digits stands between the semicolon and the last marker before it |
| XmlText.ScanIsUnescape | frame/tinyxml2/tinyxml2.cpp:178-260 | the in-place scan equals plain unescaping if and only if each unknown ampersand happens to leave the right character behind |
| XmlText.StrayAmpersandLost | frame/tinyxml2/tinyxml2.cpp:237-241 | a text for which it does not |
| XmlText.ReferencesResolve | frame/tinyxml2/tinyxml2.cpp:178-260 | if every ampersand starts a named or numeric reference, the in-place scan is the plain unescaping, or fails where that fails |
| XmlText.EscapeRoundTrip | frame/tinyxml2/tinyxml2.cpp:1900-1935 | unescaping what the writer escaped gives the text back, for both entity sets |
| XmlRoundTrip.EscapeLacks | frame/tinyxml2/tinyxml2.cpp:1900-1935 | an escaped text holds no angle bracket, and an escaped attribute value no quote of either kind |
| XmlRoundTrip.EscapeSpares | frame/tinyxml2/tinyxml2.cpp:1900-1935 | a text without any of these characters is written as it is, and so is one with quotes where these are not escaped |
| XmlText.InPlaceRoundTrip | frame/tinyxml2/tinyxml2.cpp:178-260 | and so does the scan in place (sections 2.11 and 4.6 of XML 1.0) |
| XmlStrings.GetStr | frame/tinyxml2/tinyxml2.cpp:178-260 | on an array: the write position never passes the read position, the bytes written are the scanned text and a NUL, everything outside stays; a malformed reference ends in a null pointer; and for every text put together from pieces, numeric references with any digits among them, what is written is what the pieces mean |
| XmlRoundTrip.ParseAttributesFinds | frame/tinyxml2/tinyxml2.cpp:1426-1480 | written attributes are read back in order, up to the tag's end |
| XmlInputs.AttributesRead | frame/tinyxml2/tinyxml2.cpp:1426-1480 | attributes are read in order however they are written: either quote, any white space before the name, around the equals sign and before the end of the tag |
| XmlInputs.AttributeTwice | frame/tinyxml2/tinyxml2.cpp:1446-1450 | a name given twice is an error, wherever the second one stands |
| XmlRoundTrip.TextRead | frame/tinyxml2/tinyxml2.cpp:874-899 | a written text is read back up to the next tag, leading white space included |
| XmlRoundTrip.LeafRead | frame/tinyxml2/tinyxml2.cpp:937-1040 | comments, declarations, unknowns and CDATA are read back after any white space |
| XmlRoundTrip.EndTagRead | frame/tinyxml2/tinyxml2.cpp:833-841 | an end tag ends the children |
| XmlInputs.ElementReads | frame/tinyxml2/tinyxml2.cpp:1487-1515 | an element is read with attributes in any form and any content that its own end tag ends |
| XmlInputs.TagsMustMatch | frame/tinyxml2/tinyxml2.cpp:843-861 | an element that another end tag ends is the error of mismatched elements |
| XmlInputs.ElementMustEnd | frame/tinyxml2/tinyxml2.cpp:822-832 | an element that nothing ends is the plain parsing error |
| XmlInputs.OpenAtEnd | frame/tinyxml2/tinyxml2.cpp:845-850 | an open tag that is all there is left is the error of mismatched elements |
| XmlInputs.SealedReads | frame/tinyxml2/tinyxml2.cpp:1465-1468 | a sealed tag is an element without children |
| XmlInputs.WrongEndTag | frame/tinyxml2/tinyxml2.cpp:795-871 | so whatever well-formed nodes stand before: these are read, and a tag with an end tag of another name stops the reader with the error of mismatched elements |
| XmlInputs.NodeMustEnd | frame/tinyxml2/tinyxml2.cpp:937-1040 | a comment, declaration, unknown or CDATA that does not end is an error of its own kind |
| XmlInputs.TextMustEnd | frame/tinyxml2/tinyxml2.cpp:890-898 | so is a text that no tag follows |
| XmlInputs.NothingToRead | frame/tinyxml2/tinyxml2.cpp:1763-1784 | white space, with or without a byte order mark, is an empty document, which is an error |
| XmlInputs.DocumentRead | frame/tinyxml2/tinyxml2.cpp:1763-1789 | what follows white space and a byte order mark is read as siblings, and the error that stops them is the document's |
| XmlRoundTrip.NodesRead | frame/tinyxml2/tinyxml2.cpp:795-871 | written nodes are read back in order, and reading goes on where they end |
| XmlRoundTrip.NodesResolve | frame/tinyxml2/tinyxml2.cpp:178-260 | the values read, once unescaped, are the values written |
| XmlInputs.ValuesMean | frame/tinyxml2/tinyxml2.cpp:178-260 | references are read in attribute values and plain texts; in CDATA, comments, declarations and unknowns only line ends are |
| XmlRoundTrip.PrintThenParse | frame/tinyxml2/tinyxml2.cpp:1763-1789 | parsing the compact print of a normalised document, with or without a byte order mark, gives the document and the mark back, without an error (sections 2.4 and 3.1 of XML 1.0) |
| XmlPrinter.WriterRenders | frame/tinyxml2/tinyxml2.cpp:1950-2141 | the streaming writer's flags make it write, in compact form, the plain rendering of the tree |
| XmlPrinter.XMLPrinter.PrintString | frame/tinyxml2/tinyxml2.cpp:1900-1935 | runs between entities and entities in place add up to the escaped text |
| XmlPrinter.XMLPrinter.OpenElement | frame/tinyxml2/tinyxml2.cpp:1950-1968 | seals an open tag, breaks the line and indents as the flags say |
| XmlPrinter.XMLPrinter.CloseElement | frame/tinyxml2/tinyxml2.cpp:2012-2035 | closes in the short form or by an end tag, and resets the text depth of its own text only |
| XmlPrinter.XMLPrinter.PushText | frame/tinyxml2/tinyxml2.cpp:2045-2060 | sets the text depth before sealing, writes the text as CDATA, escaped, or as it is when entities are turned off |
| XmlPrinter.XMLPrinter.VisitEnter | frame/tinyxml2/tinyxml2.cpp:2144-2151 | the document's byte order mark is written first, and its setting of entities taken over |
| XmlPrinter.XMLPrinter.Print | frame/tinyxml2/tinyxml2.cpp:2144-2201 | printing a document node by node writes what the flags decide, behind the mark; in compact form with entities, the plain rendering |
| XmlIndented.DrawsAll | frame/tinyxml2/tinyxml2.cpp:1950-2141 | what the indenting writer writes, node by node, for any tree and any state of its flags |
| XmlIndented.LaidReads | frame/tinyxml2/tinyxml2.cpp:795-871 | how that text is read: the tree, with indentation swallowed by a text in front of an element |
| XmlIndented.IndentedThenParse | frame/tinyxml2/tinyxml2.cpp:1763-1789 | parsing the indented print of a normalised document gives it back, but for the texts directly before an element, which end in the element's indentation |
| XmlIndented.IndentedExact | frame/tinyxml2/tinyxml2.cpp:1950-2060 | it gives the same document if and only if there is no such text |
| XmlReader.XMLDocument.ParseText | frame/tinyxml2/tinyxml2.cpp:111-128 | the search for an end tag stops at its first occurrence or fails at the end of the input |
| XmlReader.XMLDocument.ParseAttributes | frame/tinyxml2/tinyxml2.cpp:1426-1480 | the loop over attributes agrees with the reader's function: duplicates, missing values and missing brackets are the errors the source gives |
| XmlReader.XMLDocument.Identify | frame/tinyxml2/tinyxml2.cpp:493-560 | the kind of the next node, a text keeping its leading white space |
| XmlReader.XMLDocument.ParseElement | frame/tinyxml2/tinyxml2.cpp:1487-1515 | agrees with the reader's function, mismatched and unclosed elements included |
| XmlReader.XMLDocument.ParseChildren | frame/tinyxml2/tinyxml2.cpp:795-871 | the loop over siblings agrees with the reader's function: nodes, end tag handed up, error left behind |
| XmlReader.XMLDocument.Parse | frame/tinyxml2/tinyxml2.cpp:1763-1789 | the whole input: tree, error and byte order mark |
| ChildLists.XMLNode.Unlink | frame/tinyxml2/tinyxml2.cpp:624-640 | exactly that child leaves the list, links of its siblings and both ends kept consistent |
| ChildLists.XMLNode.InsertEndChild | frame/tinyxml2/tinyxml2.cpp:650-678 | the node becomes the last child, leaving wherever it was, another parent's list included; a node of another document is refused |
| ChildLists.XMLNode.InsertFirstChild | frame/tinyxml2/tinyxml2.cpp:681-710 | the same at the front |
| ChildLists.XMLNode.InsertAfterChild | frame/tinyxml2/tinyxml2.cpp:713-738 | the node stands behind the anchor; added behind itself, the list is kept if and only if it is the last child |
| MemPools.MemPoolT.Alloc | frame/tinyxml2/tinyxml2.h:342-364 | a chunk that is not in use: the first free one, or from a new block; the counters follow |
| MemPools.MemPoolT.Free | frame/tinyxml2/tinyxml2.h:365-376 | the chunk is free again and first in line; the counter of chunks in use is their number |
| SessionRuns.ExpireExact | frame/session/session.cc:214-229 | a time-out keeps all books if and only if the entry found by sequence id is the request that timed out |
| SessionRuns.TimersSafe | frame/session/session.cc:214-229 | no time-out that can happen next loses a request if and only if the remembered requests have different sequence ids |
| SessionRuns.StepExact | frame/session/session.cc:41-268 | every possible event keeps the books, with that one exception, and then they are broken |
| SessionRuns.RunExact | frame/session/session.cc:41-268 | a run keeps the books throughout if and only if every time-out meets its own request |
| SessionRuns.Conservation | frame/session/session.cc:103-268 | in every run with distinct outstanding sequence ids: each request given is in exactly one of waiting list, history and finished, and finished once; timers armed are those of the history; a closed session holds nothing; responses and time-outs are for requests that were sent, with the response's sequence id |
| SessionRuns.StepTold | frame/session/session.cc:231-268 | a request is discarded silently only without an owner, and without one no handler is called |
| SessionRuns.InsertSorted | frame/session/session.cc:185-187 | the history stays in order of sequence id |
| SessionLaws.StepAdds | frame/session/session.cc:41-268 | what every event adds to the log, said of the state before it: what is read reaches the owner, a response answers the first request of its id, waiting messages leave or fail in order, what is outstanding ends in order, sent before waiting |
| SessionLaws.StepMoves | frame/session/session.cc:41-268 | what every event does to the waiting list, the remembered requests, the status, the owner and the timers: a request is placed behind those of its id or smaller ones, and the first of an id is struck off |
| SessionLaws.RunFollows | frame/session/session.cc:41-268 | every run is made of such steps |
| SessionLaws.ReceivedLaw | frame/session/session.cc:119-156 | in every run the requests handed to the owner are, in order, exactly those read, no heartbeats, while there was an owner |
| SessionLaws.BeatLaw | frame/session/session.cc:79-130 | a heartbeat is written exactly for each heartbeat request read, and by the heartbeat timer while connected or timed out |
| SessionRuns.EqualIdsQueue | frame/event/httpmessage.h:33-33 | with equal sequence ids the history is first in, first out |
| SessionRuns.DuplicateIdLosesRequest | frame/session/session.cc:214-229 | a run with two equal ids after which one request is nowhere and the other in two places |
| SessionRuns.DialsExactly | frame/session/session.cc:70-78 | of all events only a connect request and the reconnect timer dial, and these if and only if the session is neither connecting nor connected |
| SessionRuns.FailedConnectSticks | frame/session/session.cc:41-78 | a session connecting or connected does not dial again, whatever happens, until its connection is reported closed or it is closed |
| SessionRuns.ReconnectTimerInVain | frame/session/session.cc:41-78 | a run from the start in which the connect fails, the reconnect timer is armed and runs out, and nothing is dialled |
| SessionRuns.RedialsAfterPeerClose | frame/session/session.cc:103-118 | once a connection is reported closed, the reconnect timer does dial |
| SessionRuns.RequestAfterCloseFaults | frame/session/session.cc:175-183 | after Close, a send faults if and only if it is a request |
| SessionObject.CSession.ConnectResult | frame/session/session.cc:41-69 | status, timers, owner and waiting list after a connect attempt, as in the machine |
| SessionObject.CSession.OnPeerClose | frame/session/session.cc:103-118 | closes, answers everything outstanding, and rearms or tells the owner |
| SessionObject.CSession.OnRead | frame/session/session.cc:119-156 | heartbeats, requests and responses as in the machine: a heartbeat request is answered by one, any other request goes to the owner if there is one, and of a response the first request of that id leaves with its timer |
| SessionObject.CSession.DoSendTo | frame/session/session.cc:157-174 | waits, is sent and remembered, or fails, as in the machine |
| SessionObject.CSession.DoRequestTimeOut | frame/session/session.cc:214-229 | the entry found by sequence id goes, the request that timed out is answered |
| SessionObject.CSession.CleanRequestAndCallBack | frame/session/session.cc:231-249 | history in order of sequence id, then the waiting list in order, all answered or deleted, their timers stopped |
| SessionObject.CSession.DealWaitingList | frame/session/session.cc:251-268 | the waiting list goes out in order, or fails in order |
| SessionObject.DealAllSplits | frame/session/session.cc:251-268 | dealing with the waiting messages one by one, testing the status each time, comes to sending all or failing all |
| SessionObject.CSession.Close | frame/session/session.cc:198-212 | owner dropped first, everything outstanding deleted |
| SessionObject.CSession.Accounted | frame/session/session.cc:41-268 | the object inherits the theorems about runs: after any events with distinct outstanding ids its fields account for every message given to it, and its books were right throughout if and only if every time-out met its own request |
| SessionObject.CSession.HandedOver | frame/session/session.cc:119-156 | after any events the object's owner has been handed, in order, exactly the requests read while there was one |
| HttpSession.AnswersLeaveInOrder | frame/session/httpsession.cc:16-46 | after any interleaving of reads and answers the messages sent are the answers to requests 1 to m in order, m being the longest answered prefix, the connection closing behind exactly those that do not keep it alive, and the oldest queued request has no answer; numbers may wrap (section 6.3.2 of RFC 7230) |
| HttpSession.RespondAgrees | frame/session/httpsession.cc:23-46 | one answer: the search of the queue finds the oldest outstanding request of that number |
| HttpSession.CHttpSession.OnRead | frame/session/httpsession.cc:16-22 | a request gets the next number and is queued |
| HttpSession.CHttpSession.DoSendBack | frame/session/httpsession.cc:23-46 | the loops over the queue do what the machine says |
| Framing.SplitIndependence | frame/net/connection.cc:124-190 | however a stream of well-formed frames is cut into reads: same messages in order, exactly the unfinished frame kept, more than 1024 bytes free before the next read; if and only if no read fills the buffer past the packet limit, else the connection closes; with frames of at most 10484736 bytes none does |
| Framing.ReadsPastBuffer | frame/net/connection.cc:144-176 | taking all frames off a buffer reads past its end if and only if one of them is shorter than its method |
| Framing.UnknownTypeCloses | frame/net/connection.cc:144-176 | a frame that is neither a call nor a reply closes the connection; the frames before it have been handed over, and nothing behind it is |
| Framing.RunDelivers | frame/net/connection.cc:124-190 | the same from any point of a stream |
| Framing.SmallFramesFit | frame/net/connection.cc:138-143 | with frames of at most 10484736 bytes the buffer never outgrows the limit, whatever the reads |
| PacketLimit.FrameBoundExact | frame/net/connection.cc:138-190 | that bound is exact: no run of frames of at most n bytes meets the packet limit if and only if n is at most 10484736 |
| PacketLimit.LongFramesDepend | frame/net/connection.cc:138-190 | two frames one byte longer, both delivered under one cutting into reads, and the connection closed under another |
| Connection.CConnection.HandleRead | frame/net/connection.cc:124-190 | a failed read closes; a completed one is one step of the stream: frames handed over in order, the rest moved to the front, the buffer grown, or the connection closed and the session told; without a session the first frame closes the connection |
| Connection.DecodableExact | frame/net/connection.cc:144-176 | what is decoded is read within the bytes received if and only if its frames, each at the place the sizes before it say, are long enough for their methods |
| Connection.CConnection.TakeFrames | frame/net/connection.cc:144-176 | the decode loop hands over all complete frames and stops at a partial or illegal one, or at the first one nobody can take |
| Connection.CConnection.AsyncReadInner | frame/net/connection.cc:102-123 | reads on only while connected and not within the decode loop |
| Connection.CConnection.OnPeerClose | frame/net/connection.cc:258-271 | the session attached to an open connection is told and let go of; no session is told twice, however often this is called |
| Connection.CConnection.SetOwner | frame/net/connection.h:34-34 | a session attached anew can be told once more |
| Buffers.CBuffer.Append | frame/interface/buffer.h:26-32 | contents grow by the bytes, capacity to three times and the bytes when there is no room |
| Buffers.CBuffer.AddCapacity | frame/interface/buffer.h:16-23 | contents survive reallocation |
| Buffers.CBuffer.KeepFrom | frame/net/connection.cc:180-184 | the unread bytes move to the front |
| Thrift.EncodeDecode | frame/protocol/thriftparser.cc:27-78 | decoding an encoding followed by anything consumes exactly the frame and restores method, body and direction; the sequence number comes back swapped |
| Thrift.FieldsDecode | frame/protocol/thriftparser.cc:27-63 | a frame laid out from its fields, whatever follows it, decodes to a request for types 1 and 4, to a response for type 2 and to nothing else, with its method, body and number, and as a heartbeat exactly if the method is AllsparkHeartBeat letter by letter in any case |
| Thrift.EncodeLaid | frame/protocol/thriftparser.cc:64-78 | what is written is such a frame: version 0x8001, type 2 for a response and 1 otherwise, the number in network order |
| Thrift.HeartBeatRead | frame/protocol/thriftparser.cc:53-55 | comparing without case is comparing letter by letter |
| Thrift.SwapTwice | frame/protocol/thriftparser.cc:74-75 | swapping bytes twice is nothing |
| Thrift.EchoRestoresSeqid | frame/session/session.cc:131-148 | a request and an echoed reply restore the number used for correlation |
| Thrift.FrameDecodes | frame/protocol/thriftparser.cc:27-63 | a whole well-formed frame is read the same whatever follows |
| Thrift.PartIncomplete | frame/protocol/thriftparser.cc:27-39 | every proper prefix of one is waited for |
| Thrift.IndependentFrames | frame/protocol/thriftparser.cc:50-62 | a complete frame of any content is read independently of what follows if and only if its method length stays within it, or its type is unknown |
| Thrift.ReadsPastEnd | frame/protocol/thriftparser.cc:27-63 | the decoder reads past the bytes received if and only if a frame passes its tests but is shorter, by its own size, than its method; otherwise it stops at the end its size says |
| Thrift.ShortFrameReadsPastEnd | frame/protocol/thriftparser.cc:51-62 | sixteen bytes that make it do so, whatever follows |
| ThriftParser.Decode | frame/protocol/thriftparser.cc:27-63 | the running 32-bit offset computes the frame's decoding and fills the message; for every frame laid out from its fields that is what the fields say, direction and heartbeat included |
| ThriftParser.Encode | frame/protocol/thriftparser.cc:64-78 | four appends add the frame to the output buffer |
| HttpRoundTrip.ChunksDecode | frame/protocol/httpparser.cc:169-187 | any chunks with any spelling of their sizes, ended by a zero chunk and an empty line, decode to their concatenation, and decoding stops past the final line end (section 4.1 of RFC 7230) |
| HttpRoundTrip.LinesRead | frame/protocol/httpparser.cc:150-166 | clean header lines are found and read back, up to the empty line |
| HttpRoundTrip.AddAllCollects | frame/protocol/httpparser.cc:159-162 | the headers collected are, for each name in lower case, the last value given |
| HttpHeaders.LineSays | frame/protocol/httpparser.cc:154-221 | a header line with any blanks is kept under its name in lower case; names and values are compared in any case: close and keep-alive decide about the connection, chunked about the body |
| HttpHeaders.LengthSays | frame/protocol/httpparser.cc:213-214 | a content length is the number its digits spell |
| HttpHeaders.ForwardedSays | frame/protocol/httpparser.cc:210-212 | of the addresses forwarded for, separated by commas, the first one counts |
| HttpHeaders.NoColonNothing | frame/protocol/httpparser.cc:157-163 | a line without a colon is passed over |
| HttpText.TrimSolid | frame/protocol/httpparser.cc:10-24 | blanks around a text are dropped and nothing else |
| HttpText.AtoiPrint | frame/protocol/httpparser.cc:213-214 | a printed length is scanned back whatever follows |
| HttpText.ScanHexPrint | frame/protocol/httpparser.cc:171-175 | a printed chunk size is scanned back |
| HttpNumbers.PrintMeans | frame/protocol/httpparser.cc:396-405 | a length is printed in its own digits, in lower case and without leading zeros |
| HttpNumbers.AtoiMeans | frame/protocol/httpparser.cc:213-214 | decimal digits, with white space and a sign before them, are scanned as the number they spell from the left |
| HttpNumbers.ScanHexMeans | frame/protocol/httpparser.cc:171-175 | and hexadecimal digits of either case |
| HttpText.ScanHexLine | frame/protocol/httpparser.cc:171-177 | a size line means the same with the stream behind it |
| HttpStart.StatusCode | frame/protocol/httpparser.cc:41-66 | the code written is the code read if and only if it prints in at most six characters |
| HttpStart.RequestLineRead | frame/protocol/httpparser.cc:114-134 | a request line of a known method is read once all but its line end has arrived, and is an error before, whatever is in memory behind what has arrived |
| HttpHeaders.UnknownMethod | frame/protocol/httpparser.cc:82-113 | what begins neither with one of the eight methods nor with the protocol, in any letter case, is incomplete below sixteen characters and illegal from there on |
| HttpStart.PartialRequestIllegal | frame/protocol/httpparser.cc:117-120 | until then the decoder answers incomplete below sixteen characters and illegal from there on, whatever is in memory behind them |
| HttpStart.HeadlessIncomplete | frame/protocol/httpparser.cc:148-153 | a complete request without a header line is answered incomplete, whatever is in memory behind it, since the empty line is looked for behind the end of the request line |
| HttpStart.FollowerSwallowed | frame/protocol/httpparser.cc:148-166 | and when more arrives, the line after it is passed over as a header of it |
| HttpStart.StatusLineRead | frame/protocol/httpparser.cc:125-148 | a status line is read back: version, default of keeping alive, code |
| HttpMessages.ResponseRoundTrip | frame/protocol/httpparser.cc:336-411 | whatever follows it, a written response is read back: version, connection, body, lower-cased clean headers, and the code if it was written whole; decoding stops at its end, or five characters before it for an empty chunked body |
| HttpBodies.ResponseCarries | frame/protocol/httpparser.cc:377-408 | a decoded response has the connection, date and length or chunking headers, and the server's own ones unless the message has its own |
| HttpRequests.RequestRoundTrip | frame/protocol/httpparser.cc:256-335 | whatever follows it, a written request is read back: method, version, connection, body and clean headers, and decoding stops at its end; the path is that of HttpTargets.AddressArrives |
| HttpTargets.AddressArrives | frame/protocol/httpparser.cc:264-286 | a request for an address with the scheme in any case, a host and perhaps a path decodes with that path, or with / if there is none, and with that host in its host header unless the message gives its own; one for a path decodes with the path |
| HttpTargets.TargetIs | frame/protocol/httpparser.cc:264-278 | the scheme in any letter case is recognised, the host ends at the next slash, and an empty path is / |
| HttpBodies.RequestCarries | frame/protocol/httpparser.cc:312-330 | a decoded request has the connection header its message asked for, the length of its body if there is one, and the client's name unless it has its own |
| HttpBodies.BodyArrives | frame/protocol/httpparser.cc:189-196 | a request without chunks is complete exactly when as much body has arrived as its headers say, and reading stops behind that |
| HttpBodies.ChunkWaits | frame/protocol/httpparser.cc:170-183 | a chunk that has not wholly arrived is waited for, whatever is in memory behind it |
| HttpBodies.SizeMissing | frame/protocol/httpparser.cc:171-175 | where a chunk should begin, anything but a size makes the message illegal |
| HttpRequests.HeadWaits | frame/protocol/httpparser.cc:148-197 | when the last character of a head that announces no chunks arrives, the decoder waits on if and only if there was no header line or one that announces a body |
| HttpRequests.RequestsSelfDelimiting | frame/protocol/httpparser.cc:82-197 | any sequence of requests written one after another is read one after another, each decoding stopping at the next one's first byte |
| HttpParser.TrimText | frame/protocol/httpparser.cc:10-24 | the two scans and the copy compute the trimmed text, in lower case if asked |
| HttpParser.CHttpParser.ParseHeader | frame/protocol/httpparser.cc:203-221 | what one header does to the message and to the parser's fields |
| HttpParser.CHttpParser.ReadHeaders | frame/protocol/httpparser.cc:155-166 | the loop over header lines computes the decoder's function |
| HttpParser.CHttpParser.ReadChunks | frame/protocol/httpparser.cc:169-187 | so does the loop over chunks |
| HttpParser.CHttpParser.Decode | frame/protocol/httpparser.cc:82-197 | and the decoder as a whole |
| HttpParser.CHttpParser.WriteOwn | frame/protocol/httpparser.cc:287-296 | the message's own headers are written, and the defaults of the same names struck off the list |
| HttpParser.CHttpParser.EncodeRequest | frame/protocol/httpparser.cc:256-335 | the appends to the output buffer add exactly the request's text; for an address it begins with the method and the address's path, whatever the case of the scheme |
| HttpParser.CHttpParser.EncodeResponse | frame/protocol/httpparser.cc:336-411 | and the response's |
| MessageQueue.StepKeeps | frame/common/msgqueueprio.cc:17-84 | a step keeps the wake-up invariant if and only if it is not an untimely timeout: one of a notified thread, with somebody left waiting and no other notified thread to spare |
| MessageQueue.RunExact | frame/common/msgqueueprio.cc:17-84 | the invariant holds all along a run if and only if every timeout in it is timely |
| MessageQueue.RunWithin | frame/common/msgqueueprio.cc:17-84 | in every run, late timeouts included: items put are items got and items stored, in order per priority, counters count the waiting threads, and no more items or slots are unannounced than there were untimely timeouts |
| MessageQueue.NoLostWakeUp | frame/common/msgqueueprio.cc:17-84 | in every run of timely timeouts: with a getter blocked and unsignalled, no more items are stored than getters are signalled, and likewise free slots and putters |
| MessageQueue.SafeGetters | frame/common/msgqueueprio.cc:44-84 | no run loses a getter's wake-up if and only if no get is limited in time or at most one thread gets |
| MessageQueue.SafePutters | frame/common/msgqueueprio.cc:17-43 | no run loses the wake-up of a putter of one queue if and only if no put to it is limited in time or at most one thread puts there |
| MessageQueue.StillSpokenFor | frame/common/msgqueueprio.cc:17-84 | with nobody signalled, a blocked getter means an empty queue and a blocked putter a full one |
| MessageQueue.GetTimeoutLosesWakeUp | frame/common/msgqueueprio.cc:75-78 | a run from the start after which an item is stored, a getter waits and nobody is notified |
| MessageQueue.PutTimeoutLosesWakeUp | frame/common/msgqueueprio.cc:26-29 | a run from the start after which a slot is free, a putter waits and nobody is notified |
| MessageRings.MsgQueue.Store | frame/common/msgqueueprio.cc:34-38 | the ring's contents grow at the end; the put position is the get position plus the size, modulo the capacity |
| MessageRings.MsgQueue.Take | frame/common/msgqueueprio.cc:59-63 | the oldest item leaves |
| MessageRings.MsgQueuePrio.PutQ | frame/common/msgqueueprio.cc:17-43 | one visit of a putter to the monitor, as in the step system |
| MessageRings.MsgQueuePrio.GetQ | frame/common/msgqueueprio.cc:44-84 | one visit of a getter: the oldest item of the highest priority that has one |

## Left out

- Sockets, resolver, acceptor, service threads and logging are foreign; they appear as the events that drive the machines.
- The bytes of outgoing messages on the wire: the write buffer is not reset between writes, so only the order of messages handed to a connection is stated.
- Handlers that send or close from within a callback of their session; a callback's starts and stops of timers are modelled.
- Reconnection progress, equality of heartbeat flags, and any claim that a request eventually finishes: the code does not give them.
- TimerManagement.TimerManager.Rehang: rings and chains are sequences in the timer manager; that the pointers do what these sequences do is proved on its own, in NodeRings, NodeWalks and CallbackWalks.
- TimerManagement.TimerManager.Cascade: as for Rehang; the pointer walk over the detached chain is NodeWalks.Rehang.
- TimerManagement.TimerManager.DoTimeOutCallBack: as for Rehang; the pointer walk over nodes that are deleted without being unlinked is CallbackWalks.CallBackAll.
- TimerManagement.ThreadTimer.Callback: that a callback deletes a timer; the source's destructor leaves an armed timer's node in the wheel, which the caller must not let happen.
- SessionRuns.DuplicateIdLosesRequest: the source destroys the struck entry's armed timer with it; the machine leaves that timer armed.
- TimerManagement.TimerManager.AddTimer: deadlines and the clock are unbounded, without the wrap-around of 64 bits.
- The order in which sibling timers of one spoke were hung up is kept, but no claim is made about timers with different deadlines.
- MessageRings.MsgQueuePrio.PutQ: waiting and waking are steps of the system in MessageQueue, since a method here runs without interruption.
- Framing.SplitIndependence: streams of well-formed frames; malformed frames are covered by IndependentFrames and UnknownTypeCloses only.
- ThriftParser.Decode: what happens after reading past the buffer; the caller must not pass a frame shorter than its method (ReadsPastEnd).
- Connection.CConnection.HandleRead: what happens once the parser has read past the buffer; the condition on the input is exact (DecodableExact).
- Connection.CConnection.TakeFrames: as for HandleRead.
- HTTP streams cut into reads: a partial request line or chunk header is not treated as incomplete, so only complete messages are claimed.
- HttpParser.CHttpParser.Decode: text searches end at a NUL behind the buffer; an undefined pointer is the result `Stray`, which no theorem's message meets.
- HttpMessages.ResponseRoundTrip: cookies and dates are not modelled; the date is a parameter, and a header about cookies, the connection, the length or the date is not among the clean ones.
- HttpParser.CHttpParser.EncodeRequest: the order in which the hash map yields its headers is a parameter; cookies are not modelled.
- HttpParser.CHttpParser.EncodeResponse: likewise.
- HttpParser.CHttpParser.ParseHeader: the branch for `Set-Cookie`, as cookies are not modelled.
- HttpSession.CHttpSession.DoSendBack: the source reads the front of the queue without testing it; an answer needs an outstanding request.
- SessionObject.CSession.DoSendTo: the requirement that a request on a closed session have an owner is the source's null dereference.
- Reading with entity processing turned off, and collapsing white space, in TinyXML2; numeric formatting, file loading, visitors other than the printer.
- XmlStrings.GetStr: the string's owner flags other than the one for flushing.
- Resources handed back by destructors; memory exhaustion.
- Duplicate-attribute tests on names with a malformed reference, which cannot occur since names hold no ampersand.
- MemPools.MemPoolT.Alloc: what users write into chunks in use; a chunk's memory is only looked at while it is free.
- ChildLists.XMLNode.InsertAfterChild: adding the last child behind the one before it follows a null pointer in the source; the caller must not do it.
- ChildLists.XMLNode.InsertEndChild: that a node is not put below itself is left to the caller, as in the source.
- URL coding, address parsing, idle reaping and choice of sessions, the handler allocator, and the generated and example code.
