# Proofs about the Navigator headers

This project models the parts of the Mozilla Classic tree whose rules span several calls: an
intrusive list and an arena (`include/ds.h`), character boundaries, search and UTF-8
(`include/libi18n.h`), charset precedence (`include/intl_csi.h`), the two-thread event protocol
(`include/libevent.h`), MIME headers and parameters (`include/libmime.h`), the packed object key
(`include/libmocha.h`), timeouts (`include/fe_proto.h` and its two list implementations), undo
history and table text (`include/edt.h`).

The headers hold two kinds of statement. Some are code: the list macros, the key macro, and the
timer lists of `modules/libimg/src/xpcompat.cpp` and `base/src/xlib/nsTimerXlib.cpp`; those are
followed branch by branch. The others are comments that say exactly what a call does; there the
model takes the plainest steps that keep the comment, and proves what follows from it. Each file
says at its top which of the two it is.

What the source updates in place is a class, an object graph or a loop here: real `next`/`prev`
assignments for the list, fields of a class elsewhere. Each such method is tied to a function on
values (`View() == Next(old(View()), step)`), and the theorems are about all runs of that function.

## Modules

| module | what it covers | kind |
|---|---|---|
| `DsList` | circular lists, several in one heap | macros |
| `DsArena` | bump allocation, zeroing, growing | documented contract |
| `Segments` | cutting a sequence by a step table; shared by the text modules | reasoning only |
| `IntlText`, `IntlSearch`, `IntlUtf8` | boundaries, comparison, UCS-2 and UTF-8 | documented contract, RFC 2279 |
| `Basics` | optional values, bytes, blanks | shared definitions |
| `CharSetInfo` | charset precedence, relayout flag | documented contract |
| `EventChannel` | events, acks and document writes between two threads | documented contract |
| `TimerWalk` | records, and the loop that calls what is past, shared by the two timer lists | code |
| `WinTimeouts` | the timeout guarantees and the list that keeps them | code |
| `XlibTimers` | the live Xlib timer list, which keeps them only under conditions | code |
| `MappingKey` | 4 + 14 + 14 bit key and the table keyed by it | macro |
| `MimeHeaders`, `MimeParameter` | header index and lookup; RFC 2231 parameters | documented contract |
| `TabTable` | tab-delimited tables out and in | documented contract |
| `EditHistory` | undo, redo, limit, batches | documented contract |

## What turned out not to hold

* **The Xlib timers can fire early.** `TimerImpl::Init` adds the delay in microseconds to
  `tv_usec` without carrying, and adds the whole seconds to `tv_sec` as well. Guarantee B of
  `FE_SetTimeout` fails exactly when the microseconds of the start and the odd milliseconds of the
  delay exceed one second together, or the 32-bit product wraps below the odd milliseconds, or the
  sum does not fit a 32-bit `long` (`XlibTimers.EarlyExactly`). Setting 900 ms at 0.9 s fires 0.8 s
  early (`EarlyExample`).
* **The Xlib timers can fire out of order.** Guarantee C is about nominal timestamps, start plus
  delay, which the code never computes. All passes to come fire in that order exactly when the state
  is `Orderly` (`OrderGuarantee`): nothing listed is due before something already called, and of any
  two listed timers the first is due no later and, if it is due earlier, is not found past later.
  `Init` keeps this exactly when its two-field comparison agrees with the due times (`InOrderExactly`,
  `GuaranteeKeptExactly`; `RunFitsExactly` over runs). It need not: 2 ms then 1 ms fires the longer first (`OutOfOrderExample`),
  and 900 ms at 0.6 s then 100 ms at 1.0 s does so although the stored times are in order
  (`StoredOrderExample`).
* **An Xlib pass need not end.** It reads the clock once, at its start, and a timer set during it is
  fired by that very pass exactly if it has no delay and the clock still shows the same microsecond
  (`SamePassExactly`). When functions set timers and cancel none, the pass ends exactly if for some m
  the timers past at its start and those its first m functions set so are no more than m
  (`PassEndsExactly`); with cancels that is still enough (`PassEndsWhenUsedUp`). An endless pass needs
  a clock that shows that one microsecond for ever (`EndlessNeedsStoppedClock`): from the function on
  that finds it moved, the pass runs to its end (`PassEndsOnceClockMoves`).
* **The Windows list wraps.** Its timestamp is right exactly while clock plus delay fits 32 bits
  (`TimestampWraps`); otherwise, whatever else is listed, a drain at the very tick of setting calls
  the function (`CalledAtOnceExactly`), so guarantee B is lost. Guarantee A needs one tick
  more: the code calls a function only at a tick later than its timestamp, and the last tick a DWORD
  can show has none later. A listed record can still be called exactly if its timestamp is not that
  one (`EverCalledExactly`). The run theorems ask for sums that fit and for drains before the clock
  itself runs over. That code is compiled out by `#if 0`.
* **The two zero-byte rules differ.** `INTL_CharLen` and `INTL_NextChar` split a text alike exactly
  when it does not end inside a character of which two or more bytes are there (`RulesAgree`).
* **UTF-8 round trips stop at U+0000**, because both strings are terminated by it; they are the
  identity exactly on sequences without one (`IntlUtf8.RoundTrip`).
* **The packed key forgets high bits.** Over a set of triples the packed table can stand for one
  keyed by the triple exactly when no two of them leave the same residue (`FaithfulExactly`).
* **An override does not survive a fresh load.** `INTL_CSIInitialize` resets the object before it
  looks at the override, so only a META reload sees one (`FreshLoadForgets`, `OverrideRulesReload`).
* **Setting a charset field back to CS_DEFAULT can lose what its guard refused meanwhile**
  (`ClearingLosesRefusedValues`). The guarded fields stand for a log of all calls, whatever values
  are set, exactly for the runs whose last calls were accepted, from the highest source down to the
  first that the log has a value of (`LogExactlyByShape`; `LogExactly` for a single run of distinct
  values). A run without default arguments always does (`PrecedenceIsLog`).

## How open points were read

* `INTL_CSIInitialize`: its first two points are the reset-or-reload choice, the others the choice
  of charset. "Document charset" without "field" means the highest-ranked one that is set; a
  charset is known when it is neither `CS_DEFAULT` nor `CS_UNKNOWN`. The values of these come from
  the expressions in `include/csid.h`, not from its trailing comments.
* The relayout theorems are about resets, loads and reports; they take it that nobody stores a flag
  of their own choice with `INTL_SetCSIRelayoutFlag`, or a charset with `INTL_SetCSIWinCSID`.
* `DSArenaStr`: the header gives the fields and says that growing works best for the last item. That
  such an item grows in place, that a smaller one stays where it is without giving bytes back, and
  that a chunk is made as large as a large item are choices of the model
  (`DsArena.GrowStaysExactly` says what they come to); the refinement does not depend on addresses.
* `INTL_UTF8ToUCS2` answers NULL for what section 2 of RFC 2279 does not produce: longer forms,
  surrogates, stray or missing continuation bytes.
* `MimeHeaders_get`: what separates contents appended together and what ends the first token are
  parameters. Blanks around the contents are dropped, names match in either case, and a newline
  followed by a space or tab folds (section 3.1.1 of RFC 822).
* `MimeHeaders_get_parameter`: numbered sections win over the extended form, which wins over the
  plain form; a percent sign without two hexadecimal digits stands for itself, and an extended text
  without two quotes is all value; quoted strings are those of section 3.3 of RFC 822.
* `include/edt.h`: a new edit empties the redo list; lowering the limit drops the commands farthest
  from the present, undo commands first; batches do not nest, and undo and redo wait for their end.
* `include/libevent.h`: acks and document writes come back through one queue.
* Clocks, `malloc` contents, callbacks, what the server sends, and the answers of the mocha thread
  are parameters, quantified in every theorem.

## Model

| member | source | states |
|---|---|---|
| DsList.DS_InitList | include/ds.h:124-129 | after it the sentinel is an empty ring pointing at itself, and its thing is cleared |
| DsList.DS_AppendLink | include/ds.h:143-149 | the four pointer writes turn the ring of xs into the ring of xs with the link at its end, the empty list with its aliased sentinel included |
| DsList.DS_InsertLink | include/ds.h:151-157 | the four pointer writes turn the ring of xs into the ring with the link in front |
| DsList.DS_RemoveLink | include/ds.h:159-165 | the ring closes over the gap, the removed link ends with null pointers, and only the link and its two neighbours are written |
| DsList.InitAmong | include/ds.h:124-129 | initialising one list leaves every other list in the heap a ring with the same links |
| DsList.AppendAmong | include/ds.h:143-149 | appending to one of several lists changes that list's sequence at its end and no other |
| DsList.InsertAmong | include/ds.h:151-157 | inserting into one of several lists changes that list's sequence at its front and no other |
| DsList.RemoveAmong | include/ds.h:159-165 | given only the link, the list that holds it loses it and every other list is untouched |
| DsList.WithoutIsDelete | include/ds.h:159-165 | taking out a link that occurs once is deleting its one index |
| DsList.RemovedFromOne | include/ds.h:159-165 | removal, defined over all lists at once, changes only the list that holds the link |
| DsList.RemovedIsDeleteAt | include/ds.h:159-165 | among well-formed lists removal is delete-at-index on one list |
| DsList.Run | include/ds.h:111-165 | every finite run of the macros over any number of lists keeps all of them rings and ends in the abstract lists the run describes |
| DsList.NodesApplied | include/ds.h:111-165 | no step touches a link that is neither in some list nor named by the step |
| DsList.LinksInvert | include/ds.h:114-165 | in well-formed lists next and prev are mutual inverses on every link, sentinels included |
| DsList.Walk | include/ds.h:134-141 | a loop from the head until iteration is done visits every link once, in order, and ends |
| DsList.RemoveEach | include/ds.h:134-165 | a loop that saves next before removing leaves exactly the subsequence it did not remove, in order |
| DsList.RemoveEachAmong | include/ds.h:134-165 | the same loop on one of several lists changes that list alone |
| DsList.HalfwayIsKept | include/ds.h:134-165 | after i steps of that loop the list is the kept part of the first i links followed by the rest |
| DsList.Drain | include/ds.h:131-165 | taking the head until the list is empty yields its links front to back and leaves the empty ring |
| DsList.AppendsQueue | include/ds.h:143-149 | a run of appends is allowed and puts the links behind the list in the order given: with Drain, first in, first out |
| DsList.InsertsStack | include/ds.h:151-157 | a run of inserts puts the links in front in reverse order: with Drain, last in, first out |
| DsList.RemoveAppended | include/ds.h:143-165 | removing what was just appended gives back the same abstract lists |
| DsList.AppendThenRemove | include/ds.h:143-165 | appending and then removing a link restores next and prev of every other link and of every sentinel in the heap |
| DsArena.BumpedSound | include/ds.h:232-252 | taking bytes off the free area keeps the arena sound, leaves old chunks as they were, and gives a block in the last chunk apart from all live blocks |
| DsArena.AllocRefines | include/ds.h:250-252 | an allocation adds one block of the size asked for and changes no byte any caller holds |
| DsArena.ZallocRefines | include/ds.h:254-256 | a zeroing allocation adds a block of zeros and changes no byte any caller holds |
| DsArena.GrowRefines | include/ds.h:258-263 | growing keeps the old bytes, shrinking keeps the first ones, whichever way it is done, and no other block changes |
| DsArena.LastGrowsInPlace | include/ds.h:258-263 | the item allocated last grows at its address, with all chunks as they are, for as long as the free area lasts |
| DsArena.PackedInOneChunk | include/ds.h:232-252 | items that together fit in one chunk are put in one of the size given, each where the one before it ends |
| DsArena.WriteRefines | include/ds.h:226-240 | a caller that fills its own block changes no other block |
| DsArena.StepRefines | include/ds.h:226-263 | each call keeps live blocks in their chunks, after the link word, outside the free area and pairwise apart, and acts as a heap of separate blocks would |
| DsArena.RunRefines | include/ds.h:226-263 | over every legal run, whatever malloc leaves at each call, all states are sound and each step is one of a heap of separate blocks |
| DsArena.DSArena.DS_NewArena | include/ds.h:242-244 | a new arena holds no chunk and no block, and is sound |
| DsArena.DSArena.DS_ArenaAlloc | include/ds.h:250-252 | the struct moves to the allocated state and the block returned is the new live one |
| DsArena.DSArena.DS_ArenaZalloc | include/ds.h:254-256 | the struct moves to the state with a zeroed new block, stored byte by byte |
| DsArena.DSArena.DS_ArenaGrow | include/ds.h:258-263 | the struct moves to the grown state; the block returned replaces the old one |
| IntlText.NextChar | include/libi18n.h:905-919 | the next character starts after this one and not past the terminator |
| IntlText.CharactersCover | include/libi18n.h:865-919 | by either zero-byte rule the characters put together are the text, one to four bytes each |
| IntlText.CharacterLengths | include/libi18n.h:865-919 | every character has as many bytes as its first one announces, up to the last, of which the rules count what is left or the first byte alone |
| IntlText.NextThenPrev | include/libi18n.h:946-980 | at every boundary the next index is a later boundary and the previous index undoes it |
| IntlText.PrevThenNext | include/libi18n.h:946-980 | at every boundary but the first the previous index is an earlier boundary and the next index undoes it |
| IntlText.AnyByte | include/libi18n.h:983-1017 | every byte position lies in exactly the character whose number the byte count gives, between its offset and its end |
| IntlText.AnyByteNext | include/libi18n.h:1020-1039 | from any byte of character k the next index is where character k + 1 starts |
| IntlText.AnyBytePrev | include/libi18n.h:1041-1060 | from any byte of character k, unless it is the first, the previous index is where character k - 1 starts |
| IntlText.AnyByteNth | include/libi18n.h:921-944 | the number of a byte is 0 in a single-byte character and otherwise its place in its character, counted from 1 |
| IntlText.CountsInvert | include/libi18n.h:983-1017 | counting characters undoes counting bytes, and the reverse holds exactly at boundaries |
| IntlText.WalkText | include/libi18n.h:905-919 | walking with the NextChar rule always makes progress, lands exactly on the terminator and takes as many steps as there are characters |
| IntlText.RulesAgree | include/libi18n.h:865-919 | the two zero-byte rules split a text alike if and only if its last character is whole or a single byte |
| IntlSearch.StrstrOnCharacters | include/libi18n.h:1921-1940 | the search is ordinary first-match search on the two texts split into characters, and returns where that match starts |
| IntlSearch.ComparisonsOnCharacters | include/libi18n.h:2017-2114 | is, begins-with, ends-with and contains are equality, prefix, suffix and sublist of the two splits |
| IntlSearch.MatchIsBytes | include/libi18n.h:1898-1919 | matching character by character succeeds exactly when the bytes are equal and stop at a boundary of the first text |
| IntlSearch.StrstrOnBytes | include/libi18n.h:1921-1940 | the search returns the first place where the bytes stand with both ends on boundaries, or none exists; never a place inside a character |
| IntlSearch.ComparisonsOnBytes | include/libi18n.h:2042-2114 | is, begins-with and ends-with are the byte comparisons plus one boundary each |
| IntlUtf8.EncodeUnit | include/libi18n.h:1848-1868 | a unit takes one to three bytes whose first byte tells how many and whose others are continuation bytes |
| IntlUtf8.DecodeEncode | include/libi18n.h:1824-1868 | reading what was printed gives back the units before the first zero unit |
| IntlUtf8.RoundTrip | include/libi18n.h:1824-1868 | for units that are no surrogates, printing and reading is the identity, count included, if and only if there is no zero unit |
| IntlUtf8.EncodeDecode | include/libi18n.h:1824-1868 | the parser accepts a text as these units if and only if the text is their encoding |
| IntlUtf8.EncodedLength | include/libi18n.h:1848-1868 | n units take between n and 3n bytes |
| IntlUtf8.CharactersOfEncoding | include/libi18n.h:865-919 | with the UTF-8 lead bytes the boundary functions split an encoded text into its units, by either rule |
| IntlUtf8.StrstrIsByteSearch | include/libi18n.h:1921-1940 | on UTF-8 texts the character-aware search is plain byte search |
| IntlUtf8.ByteSearchCutsCharacters | include/libi18n.h:1921-1940 | in a double-byte charset plain byte search finds a match inside a character, and the character-aware search does not |
| CharSetInfo.CharSetInfoObject.constructor | include/intl_csi.h:65-71 | a new object is what a reset gives |
| CharSetInfo.CharSetInfoObject.Reset | include/intl_csi.h:83-95 | all charset fields are CS_DEFAULT and the flag is NONE |
| CharSetInfo.CharSetInfoObject.SetOverrideDocCSID | include/intl_csi.h:229-239 | the override field alone changes |
| CharSetInfo.CharSetInfoObject.SetHTTPDocCSID | include/intl_csi.h:278-291 | the HTTP field alone changes, and only when no override is set |
| CharSetInfo.CharSetInfoObject.SetMetaDocCSID | include/intl_csi.h:252-265 | the META field alone changes, and only when neither override nor HTTP is set |
| CharSetInfo.CharSetInfoObject.SetDocCSID | include/intl_csi.h:203-216 | the document field alone changes, and only when no higher field is set |
| CharSetInfo.CharSetInfoObject.Initialize | include/intl_csi.h:97-142 | the fields move as the two choices of the comment say, and the window charset follows the effective one |
| CharSetInfo.CharSetInfoObject.ReportMetaCharsetTag | include/intl_csi.h:144-179 | the fields move by one report, whose outcome from any fields is `ReportsExactly` |
| CharSetInfo.CharSetInfoObject.LoadCycle | include/intl_csi.h:97-179 | load, report, reload ends after at most two loads, two exactly when the first asked for a relayout, and leaves no request standing |
| CharSetInfo.GuardedFields | include/intl_csi.h:203-291 | after a run of non-default setters each field holds the latest value of its source unless a higher source has spoken |
| CharSetInfo.PrecedenceIsLog | include/intl_csi.h:203-291 | over every run of non-default setters after a reset, the effective charset is the latest value of the highest-ranked source in a log of all calls |
| CharSetInfo.OrderAcrossRanksIsFree | include/intl_csi.h:203-291 | any reordering that keeps the order within each source gives the same effective charset |
| CharSetInfo.ClearingLosesRefusedValues | include/intl_csi.h:229-291 | a run with a default argument that disagrees with its log: a refused value does not come back |
| CharSetInfo.AcceptedIsLog | include/intl_csi.h:203-291 | whatever the arguments, a run whose last calls were accepted from the highest source down to the deciding one agrees with its log |
| CharSetInfo.LogExactly | include/intl_csi.h:203-291 | a run of distinct values agrees with its log if and only if those last calls were accepted |
| CharSetInfo.ShapeDecides | include/intl_csi.h:203-291 | which calls are accepted depends only on the order of the sources and on which calls clear |
| CharSetInfo.LogExactlyByShape | include/intl_csi.h:203-291 | for any shape of run, default arguments included, the fields stand for the log whatever values are set if and only if the last calls are accepted down to the deciding source |
| CharSetInfo.DoneStays | include/intl_csi.h:155-157 | once the flag is set no META tag changes anything or asks for a relayout |
| CharSetInfo.OneReportActs | include/intl_csi.h:144-179 | whatever tags a document contains, the result is that of its first known one, and at most one relayout is asked for |
| CharSetInfo.ReportsExactly | include/intl_csi.h:144-179 | from any fields with the flag NONE, an override set after the load among them: mail, news and unknown tags change nothing; else the first known tag decides between REQUESTRELAYOUT and HASCHARSET and is in the META field unless an override or HTTP guards it |
| CharSetInfo.FreshLoadForgets | include/intl_csi.h:100-111 | a fresh load starts as from a reset, an override included; a reload keeps the override |
| CharSetInfo.OverrideRulesReload | include/intl_csi.h:105-111 | an override set before a reload rules document and window charset of it, whatever the server, the META tags and later setters say |
| CharSetInfo.MailNeverRequests | include/intl_csi.h:151-153 | in mail and news contexts META tags change nothing and no load asks for a relayout |
| CharSetInfo.RequestsExactly | include/intl_csi.h:159-167 | a load asks for a relayout if and only if its first known META tag disagrees with what it started from, in charset or window charset |
| CharSetInfo.LoadExactly | include/intl_csi.h:97-179 | every field a fresh load leaves, whatever the object held; the flag is NONE when no tag acts, REQUESTRELAYOUT when the one that acts disagrees, HASCHARSET otherwise |
| CharSetInfo.ReloadExactly | include/intl_csi.h:104-142 | after any reload the flag is RELAYOUTDONE, whatever tags come, and the fields are those before it but for the one that override, server or default decides |
| CharSetInfo.CycleCharset | include/intl_csi.h:97-179 | after the whole cycle the charset is HTTP's if given, else the first known META tag's, else the default, and the window charset goes with it |
| EventChannel.LineMoves | include/libevent.h:203-240 | only sends and interrupts change the line of events: acking and delivering keep an event's place |
| EventChannel.ConservedRun | include/libevent.h:242-285 | over every interleaving each sent event is in the line once and in order, or was dropped once |
| EventChannel.EventsConserved | include/libevent.h:242-285 | a sent event not removed by an interrupt is in exactly one of pending, acked in flight and delivered; no closure runs twice or out of order |
| EventChannel.QuietMeansAnswered | include/libevent.h:242-261 | when nothing is queued and nothing was dropped, every event sent has been answered, in the order sent |
| EventChannel.EverythingAnswered | include/libevent.h:242-256 | from wherever a run has come to, once mocha has taken what is pending and the mozilla thread what then is on its way, nothing is queued and every event not dropped has been answered, in the order sent |
| EventChannel.EverySendAnswered | include/libevent.h:242-256 | every send into an open window then has had its closure called, unless an interrupt removed the event |
| EventChannel.TakenByMocha | include/libevent.h:242-245 | pending events are taken one at a time, in the order queued |
| EventChannel.TakenBack | include/libevent.h:109-119 | acks and writes are taken off the queue one at a time, in the order posted |
| EventChannel.StampsAreCurrent | include/libevent.h:207-212 | an event carries the document its context showed when it was sent |
| EventChannel.SendQueues | include/libevent.h:242-261 | the reverse: in every run each send into an open window puts one event at the end of the queue, stamped with the document shown then, and a send into a window that is not open puts none |
| EventChannel.InterruptExactly | include/libevent.h:280-285 | an interrupt removes the pending events of its context and nothing else |
| EventChannel.VerdictsArrive | include/libevent.h:564-569 | the decisions of the mocha thread, each with the event it was made for, reach the closures in the order made, none lost or exchanged |
| EventChannel.StatusIsCurrent | include/libevent.h:92-107 | in every run each answer was made by one dispatch after its event was sent, and passes on what mocha decided if the stamped document was current all the time from the sending to that dispatch, else PANIC |
| EventChannel.DeliveryMade | include/libevent.h:109-119 | every delivery of a run was made by one dispatch of an ack, with the status that the window then called for |
| EventChannel.ShownBetween | include/libevent.h:207-212 | a window that showed a document at one step shows it at a later one exactly if it showed it all the time between |
| EventChannel.ShowsLastLoaded | include/libevent.h:207-212 | in every run a window shows a document exactly while it is open, and it is the last one loaded into it, documents being numbered as loaded |
| EventChannel.GonePanics | include/libevent.h:252-256 | in every run, once a window no longer shows a document it showed, every later answer to an event stamped with it is PANIC |
| EventChannel.GoneStaysGone | include/libevent.h:207-212 | in every run, a document that was current and no longer is never becomes current again, in any window |
| EventChannel.OtherWritesCannotReach | include/libevent.h:609-617 | runs that differ only in the text of writes stamped for other documents leave the same text in a document |
| EventChannel.WritesArrive | include/libevent.h:609-617 | a document that is showing has received everything posted for it but what is still on the way, each text once and in order |
| EventChannel.EventThreads.ET_SendEvent | include/libevent.h:242-261 | the shared state moves by the send step; with an open window the answer is true and the event is last in the queue |
| EventChannel.EventThreads.ET_InterruptContext | include/libevent.h:280-285 | a loop over the pending events moves the shared state by the interrupt step |
| EventChannel.EventThreads.HandleEvent | include/libevent.h:92-119 | the oldest pending event is taken and its answer posted |
| EventChannel.EventThreads.ET_PostJsEventAck | include/libevent.h:564-569 | the answer goes to the end of the queue back |
| EventChannel.EventThreads.ET_lo_DoDocWrite | include/libevent.h:609-617 | the text goes to the end of the queue back with its document id |
| EventChannel.EventThreads.DispatchMessage | include/libevent.h:92-119 | the oldest message back is delivered to its closure, or written, or ignored when its document is not current |
| TimerWalk.UnlinkedAt | modules/libimg/src/xpcompat.cpp:734-754 | cutting out the first record with that id is unlinking it; when there is none nothing changes |
| TimerWalk.DoneKeeps | base/src/xlib/nsTimerXlib.cpp:117-206 | setting and clearing, also inside a callback, account for every record and list or call none twice |
| TimerWalk.FiredAtKeeps | modules/libimg/src/xpcompat.cpp:784-796 | calling the function of a record, with whatever it sets and clears, and taking the record out loses none |
| TimerWalk.PassDrains | base/src/xlib/nsTimerXlib.cpp:208-242 | whatever callbacks set and clear, a pass that has ended leaves nothing past listed, has called only what was, nothing twice, and every record is listed, called or cleared |
| TimerWalk.TripsCall | modules/libimg/src/xpcompat.cpp:782-810 | over a list in any order, a pass that ends calls a listed record no callback clears if and only if its time is past |
| TimerWalk.PassPartitions | base/src/xlib/nsTimerXlib.cpp:208-242 | when callbacks leave the list alone every record whose time is past is called and no other |
| TimerWalk.QuietIsPass | base/src/xlib/nsTimerXlib.cpp:208-242 | the loop that starts over after each call then ends and comes to calling them in list order in one go |
| TimerWalk.FiredAtDue | base/src/xlib/nsTimerXlib.cpp:219-236 | each call takes one off what is past and adds what its function sets so, less what that function clears |
| TimerWalk.UsedUpEnds | base/src/xlib/nsTimerXlib.cpp:218-241 | once what is past and what the next m functions set so is no more than m, the loop ends whatever else callbacks do |
| TimerWalk.EndsExactly | base/src/xlib/nsTimerXlib.cpp:218-241 | when callbacks clear nothing, the loop ends if and only if there is such an m |
| TimerWalk.EndlessGoesOn | base/src/xlib/nsTimerXlib.cpp:218-241 | a loop that does not end goes on meeting functions that set records past at once |
| TimerWalk.RearmingNeverEnds | base/src/xlib/nsTimerXlib.cpp:218-241 | with something past, functions that each set at least one record past at once and clear none keep the loop going for ever |
| TimerWalk.DoneCarries | base/src/xlib/nsTimerXlib.cpp:97-130 | one more call keeps every record tied to the request that got its id |
| TimerWalk.TripsCarry | base/src/xlib/nsTimerXlib.cpp:208-242 | so does a pass, with the requests its functions make added in the order of the calls |
| TimerWalk.RunCarries | modules/libimg/src/xpcompat.cpp:665-812 | over every run of either list the records carry what the events and plans asked for |
| TimerWalk.ClearedNeverCalled | include/fe_proto.h:98-104 | over every run of either list, a record cleared before it was called is never listed or called again |
| WinTimeouts.DoneGood | modules/libimg/src/xpcompat.cpp:665-761 | setting or clearing, also inside a callback, keeps list and calls in order and accounts for every id |
| WinTimeouts.FiredAtGood | modules/libimg/src/xpcompat.cpp:782-797 | calling a due function, with whatever it sets and clears, and taking its record out keeps all of that |
| WinTimeouts.TripsGood | modules/libimg/src/xpcompat.cpp:767-812 | at every trip of a pass the order holds and nothing the walk has gone past is due |
| WinTimeouts.RunKeeps | include/fe_proto.h:72-102 | over every run of calls and drains the invariant holds at the clock reached |
| WinTimeouts.TimeoutsInOrder | include/fe_proto.h:78-83 | over every run no function is called twice or before its timestamp, and the whole firing sequence is in order of timestamps, equal ones in the order set |
| WinTimeouts.UnclearedFires | include/fe_proto.h:78-83 | over every run whose sums and ticks fit 32 bits, after a drain every timeout no one cleared has been called or is not due yet |
| WinTimeouts.CalledWithItsClosure | modules/libimg/src/xpcompat.cpp:669-786 | over every run the k-th timeout asked for, by a caller or inside a callback, has id k and is listed and called with the closure and the time of that request, and an id counts as cleared exactly if someone asked so |
| WinTimeouts.TimestampWraps | modules/libimg/src/xpcompat.cpp:676 | the timestamp is the one asked for if and only if the sum fits 32 bits; else it lies in the past by what 2^32 takes off |
| WinTimeouts.CalledAtOnceExactly | modules/libimg/src/xpcompat.cpp:676-784 | among any other timeouts, one just set and cleared by no callback is called by a drain at the same tick if and only if the sum does not fit |
| WinTimeouts.EverCalledExactly | modules/libimg/src/xpcompat.cpp:784 | a listed record not called and not cleared is called by a pass at some tick from now on if and only if its timestamp is not the last a DWORD can show |
| WinTimeouts.SamePassExactly | modules/libimg/src/xpcompat.cpp:676-784 | a timeout set during a pass is due in it if and only if its sum runs over and past the tick the pass goes by |
| WinTimeouts.PassEnds | modules/libimg/src/xpcompat.cpp:782-810 | as long as the sums callbacks ask for fit, every pass ends, whatever they set and clear |
| WinTimeouts.PlaceAt | modules/libimg/src/xpcompat.cpp:681-711 | the place where the search stops is where the record belongs |
| WinTimeouts.TimeoutList.FE_SetTimeout | modules/libimg/src/xpcompat.cpp:665-717 | the search with two cursors puts the record at its place and returns a new id |
| WinTimeouts.TimeoutList.FE_ClearTimeout | modules/libimg/src/xpcompat.cpp:725-761 | the record with that id leaves the list; an unknown id changes nothing in it |
| WinTimeouts.TimeoutList.ProcessTimeouts | modules/libimg/src/xpcompat.cpp:767-812 | the walk that starts over after each call moves the state by one pass, for any pass that ends |
| XlibTimers.ExpiredFromInstant | base/src/xlib/nsTimerXlib.cpp:219-221 | a fire time counts as past from one instant on, which a microsecond count over a million pulls back to the next second and a negative one to its own |
| XlibTimers.LongExactly | base/src/xlib/nsTimerXlib.cpp:126 | the microseconds stored are the sum in a 64-bit long, and in one of 32 bits the number of its range that leaves the same remainder |
| XlibTimers.EarlyExactly | base/src/xlib/nsTimerXlib.cpp:124-126 | guarantee B can fail for a delay if and only if the start's microseconds and the delay's odd milliseconds exceed a second together, the 32-bit product wraps below the latter, or the sum does not fit a 32-bit long |
| XlibTimers.EarlyExample | base/src/xlib/nsTimerXlib.cpp:124-126 | a 900 ms delay set at 0.9 s fires 0.8 s early; with 32-bit longs 2200.5 s set at 0.1 s fires 0.6 s early |
| XlibTimers.SamePassExactly | base/src/xlib/nsTimerXlib.cpp:218-241 | a timer set during a pass is found past by it if and only if it has no delay and the clock has not moved |
| XlibTimers.PassEndsExactly | base/src/xlib/nsTimerXlib.cpp:208-242 | when callbacks set timers and cancel none, a pass ends if and only if after some number m of calls the timers past at its start and those its first m functions set without delay at its moment are no more than m |
| XlibTimers.PassEndsWhenUsedUp | base/src/xlib/nsTimerXlib.cpp:208-242 | with callbacks that cancel too, the same count is enough for the pass to end |
| XlibTimers.PassEndsOnceClockMoves | base/src/xlib/nsTimerXlib.cpp:208-242 | whatever callbacks set and cancel, a pass ends once the clock they read has moved |
| XlibTimers.EndlessNeedsStoppedClock | base/src/xlib/nsTimerXlib.cpp:211-241 | a pass that never ends meets again and again a timer set without delay by a clock that shows the microsecond it started at |
| XlibTimers.RearmingExample | base/src/xlib/nsTimerXlib.cpp:218-241 | a function that sets one timer without delay while the clock stands, every time, keeps any pass going for ever |
| XlibTimers.UncancelledFires | include/fe_proto.h:78-83 | over every run, after a pass that ended every timer no one cancelled has fired, once, or its stored time is not past (guarantee A) |
| XlibTimers.FiredWithItsClosure | base/src/xlib/nsTimerXlib.cpp:97-126 | over every run the k-th timer asked for, by a caller or inside a callback, has id k and is listed and fired with the closure and the times of that request, and an id counts as cancelled exactly if someone asked so |
| XlibTimers.OnePassGuarantee | include/fe_proto.h:80 | one pass, at whatever moment, fires in the order of start plus delay if and only if the list stands in that order |
| XlibTimers.OrderGuarantee | include/fe_proto.h:80 | whatever passes follow, the whole firing sequence is in the order of start plus delay (guarantee C) if and only if the state is orderly |
| XlibTimers.InOrderExactly | base/src/xlib/nsTimerXlib.cpp:132-159 | Init keeps an orderly state so if and only if its comparison of the two fields agrees with the due times of what it goes past and what it stops at |
| XlibTimers.GuaranteeKeptExactly | base/src/xlib/nsTimerXlib.cpp:132-159 | a timer set into an orderly state leaves guarantee C standing for all passes to come if and only if it fits |
| XlibTimers.UnsortedStays | base/src/xlib/nsTimerXlib.cpp:132-159 | a state out of order stays out of order under every Init |
| XlibTimers.RunInOrderExactly | base/src/xlib/nsTimerXlib.cpp:118-162 | after any number of Init calls between two passes the state is orderly if and only if it was before and each call fitted |
| XlibTimers.PassInOrder | base/src/xlib/nsTimerXlib.cpp:208-242 | a pass whose callbacks set only timers that fit keeps the state orderly at every trip |
| XlibTimers.RunFitsExactly | include/fe_proto.h:78-83 | over every run of calls and passes whose callbacks leave the list alone, at every moment all passes to come keep guarantee C if and only if every timer fitted where it was set |
| XlibTimers.TimersInOrder | include/fe_proto.h:78-83 | over every run in which each timer fits where it is set, callbacks included, the whole firing sequence is in the order of start plus delay |
| XlibTimers.OutOfOrderExample | base/src/xlib/nsTimerXlib.cpp:132-159 | two timers set at one moment, 2 ms and then 1 ms, fire longer first |
| XlibTimers.StoredOrderExample | base/src/xlib/nsTimerXlib.cpp:124-159 | 900 ms set at 0.6 s and 100 ms set at 1.0 s fire in the order stored, the one due last first |
| XlibTimers.TimerList.Init | base/src/xlib/nsTimerXlib.cpp:118-162 | the search with two cursors puts the timer exactly where the two-field comparison says |
| XlibTimers.TimerList.Cancel | base/src/xlib/nsTimerXlib.cpp:179-206 | the timer leaves the list; one that is not listed changes nothing in it |
| XlibTimers.TimerList.ProcessTimeouts | base/src/xlib/nsTimerXlib.cpp:208-242 | the walk that starts over after each call, with callbacks that set and cancel, moves the state by one pass, for any pass that ends |
| MappingKey.UnpackKey | include/libmocha.h:184-192 | unpacking a key gives the low 4, 14 and 14 bits of what was packed |
| MappingKey.KeyUnpacked | include/libmocha.h:184-192 | every 32-bit word is the key of the triple unpacking gives, and that triple fits |
| MappingKey.SameKey | include/libmocha.h:184-192 | two triples share a key if and only if they leave the same residue |
| MappingKey.PackingIsBijection | include/libmocha.h:184-192 | on triples that fit, packing is a bijection onto 32-bit words with exact inverse |
| MappingKey.TableOfResidues | include/libmocha.h:142-148 | over every run of put and remove the packed table answers as one keyed by residues |
| MappingKey.TableOfTriples | include/libmocha.h:142-148 | for triples that fit it answers as one keyed by the triple |
| MappingKey.FaithfulExactly | include/libmocha.h:142-192 | over a set of triples it can stand for a table keyed by the triple if and only if no two leave the same residue |
| MappingKey.IdToObjectMap.PutObject | include/libmocha.h:142-148 | the table moves by one put of the run |
| MappingKey.IdToObjectMap.RemoveObject | include/libmocha.h:142-148 | the table moves by one removal of the run |
| MappingKey.IdToObjectMap.LookupObject | include/libmocha.h:142-148 | lookup answers as a table keyed by residues would after the same run |
| MimeHeaders.HeadsFromIsIndex | include/libmime.h:46-55 | the positions collected are exactly the starts of distinct headers, in order |
| MimeHeaders.IndexUnique | include/libmime.h:46-55 | an index that lists exactly the header starts in order is determined by the buffer |
| MimeHeaders.IndexPartitions | include/libmime.h:46-55 | the index cuts the buffer into its headers, from the first byte on and without losing any |
| MimeHeaders.FoundIsScanned | include/libmime.h:46-52 | what the index finds of a name is what a look at every position of the buffer finds |
| MimeHeaders.ContentsExactly | include/libmime.h:77-83 | the contents are all that follows the colon without the blanks around it, and stripped they are its first token |
| MimeHeaders.PrintScan | include/libmime.h:46-88 | whatever headers were written, folded and padded in whatever way, what is found of a name is the contents of its headers, in either case of letters and in the order written |
| MimeHeaders.JoinAppends | include/libmime.h:85-88 | one header's contents stand alone and each further one comes after the separator |
| MimeHeaders.JoinAlternates | include/libmime.h:85-88 | joined contents are all of them, in order, with the separator between any two |
| MimeHeaders.HeaderBlock.AddText | include/libmime.h:39-45 | text is added at the end while the headers are being read |
| MimeHeaders.HeaderBlock.Finish | include/libmime.h:43-55 | one pass over the buffer builds the index when all headers have been read |
| MimeHeaders.HeaderBlock.Get | include/libmime.h:77-93 | the search through the index returns the first contents a scan of the whole buffer finds, or all of them in order with the separator between, stripped or not, and NULL when there is none or the text is empty |
| MimeParameter.ParamsOfPrinted | include/libmime.h:95-110 | reading a written parameter list gives the list back, whatever blanks or folded lines stand before each parameter and whichever texts are quoted |
| MimeParameter.CutQuoted | include/libmime.h:95-98 | a quoted text ends at its own closing quote whatever it contains, and unquoting gives the text back |
| MimeParameter.DecodeEncode | include/libmime.h:102-110 | percent decoding undoes percent encoding on all bytes |
| MimeParameter.DecodeSpelled | include/libmime.h:102-110 | bytes are read back however they were written: as they are or escaped, with digits in either case, and a percent sign that no two digits follow as itself |
| MimeParameter.SectionsDiffer | include/libmime.h:109 | section names match, case aside, exactly for the same number and the same mark |
| MimeParameter.Collected | include/libmime.h:102-110 | collecting from section i on gives the pieces from i on, joined |
| MimeParameter.SectionsRoundTrip | include/libmime.h:95-115 | for every value, charset, language and cut, sections extended or plain, quoted or not, folded anywhere and in any order among other parameters give back the whole value, with charset and language when the first is extended |
| MimeParameter.PrintExtract | include/libmime.h:95-115 | writing numbered sections, each extended or plain, with any blanks between, and extracting gives the value back |
| MimeParameter.ExtendedRoundTrip | include/libmime.h:108 | the single extended form gives back value, charset and language |
| MimeParameter.UnlabelledExtended | include/libmime.h:95-110 | an extended text without two quotes is all value, without charset and language |
| MimeParameter.PlainOrAbsent | include/libmime.h:95-100 | the plain form, quoted or not, gives its text without charset or language, and NULL exactly when no parameter has the name |
| TabTable.PrintParse | include/edt.h:605-609 | reading a printed table gives the same grid back if it is rectangular and refuses it otherwise |
| TabTable.ParsePrint | include/edt.h:664-670 | whatever the reader accepts is the print of what it returns |
| TabTable.AcceptedExactly | include/edt.h:664-670 | a text is accepted if and only if it is the print of a rectangular grid |
| TabTable.CanPasteTextAsTable | include/edt.h:664-670 | one pass that keeps counts and no cells answers as the parser does, with its row and column counts |
| EditHistory.NextKeeps | include/edt.h:355-390 | every call keeps the history lists fitting the document and within the limit |
| EditHistory.RunKeeps | include/edt.h:355-390 | over every run the lists fit the document and together never exceed the limit |
| EditHistory.UndoRedo | include/edt.h:355-373 | redo after undo restores the document and the whole history |
| EditHistory.RedoUndo | include/edt.h:355-373 | undo after redo restores the document and the whole history |
| EditHistory.UndoRedoTimes | include/edt.h:355-373 | as many redos as undos restore the document and the whole history |
| EditHistory.TrimLosesLeast | include/edt.h:377-382 | the limit costs no more commands than it must, and those farthest from the present |
| EditHistory.LimitSet | include/edt.h:377-382 | setting a limit puts it in force at once: the lists keep what is nearest the present and nothing else changes; a negative one changes nothing |
| EditHistory.LimitInForce | include/edt.h:377-382 | over every run the limit in force is the last one set that is not negative, and bounds the total of both lists |
| EditHistory.UndoReaches | include/edt.h:355-382 | after any edits of a fresh document k undos show it as it was k edits ago, as far back as the limit and no farther |
| EditHistory.EditGoesOnTop | include/edt.h:355-382 | after an edit one undo takes it back and k more show what k undos would have shown before it, as far back as the limit, a history with commands to redo included |
| EditHistory.EditEndsRedo | include/edt.h:355-373 | after an edit no redo does anything |
| EditHistory.EmptyBatch | include/edt.h:384-387 | a batch in which nothing is changed leaves document and history as they were, whatever undos, redos and begins are called in it |
| EditHistory.BatchIsOneCommand | include/edt.h:384-390 | however many changes a batch holds and whatever else is called in it, one undo takes all of them back and one redo returns them |
| EditHistory.BatchIsOneEdit | include/edt.h:384-390 | document and whole history after it are those after one edit to its last document |
| EditHistory.InBatch | include/edt.h:384-390 | while a batch is open edits change the document alone, and undo, redo and begin do nothing |
| EditHistory.History.EDT_Undo | include/edt.h:360-372 | the editor's state moves by the undo step |
| EditHistory.History.EDT_Redo | include/edt.h:360-373 | the editor's state moves by the redo step |
| EditHistory.History.EDT_SetCommandHistoryLimit | include/edt.h:377-382 | the state moves by the limit step, which is `LimitSet`: a negative limit changes nothing, any other is in force and trims both lists by loops |
| EditHistory.History.EDT_BeginBatchChanges | include/edt.h:384-389 | the state moves by the begin step |
| EditHistory.History.EDT_EndBatchChanges | include/edt.h:384-390 | the state moves by the end step: one command if anything changed, none otherwise |

## Left out

- XlibTimers.PassEndsExactly: takes callbacks that cancel nothing; with cancels the count is shown to be enough (`PassEndsWhenUsedUp`), since a cancelled timer no longer needs its call.
- XlibTimers.TimerList.ProcessTimeouts: is about passes that end, as a method here must; when they do is `PassEndsExactly`.
- WinTimeouts.TimeoutList.ProcessTimeouts: takes it that an id is not given out twice. There the id is the record's address; a callback that clears its own record and sets another may get the same address back, and the clearing after the call would take out the new one.
- XlibTimers.TimerList.Init: takes a new timer each time, as `NS_NewTimer` makes it; initialising one that is still listed is not modelled. Seconds are unbounded.
- XlibTimers.RunFitsExactly: takes passes whose callbacks set no timers; for the others fitting is shown to be enough (`TimersInOrder`) and, timer by timer, needed (`GuaranteeKeptExactly`), since what one callback puts out of order another may cancel before any pass meets it.
- DsArena.GrowStaysExactly: asks for a block that is not empty; an empty one may be moved to the address it had.
- WinTimeouts.TimeoutsInOrder: takes clocks and delays whose sum fits 32 bits; `CalledAtOnceExactly` says what happens to the others. The clock does not run over in a run.
- CharSetInfo.PrecedenceIsLog: takes non-default arguments; `LogExactlyByShape` covers all others.
- DsArena.RunRefines: freeing an arena, its reference count, address alignment and failing `malloc` are not modelled.
- IntlText.AnyBytePrev: says nothing of the previous index inside the first character, which the header leaves open.
- IntlUtf8.EncodeDecode: text and result are values; ownership and freeing of the returned buffers are not modelled.
- CharSetInfo.CharSetInfoObject.Reset: the MIME charset name field is not modelled; no rule reads it.
- EventChannel.EventsConserved: one thread step at a time; eager handling, priorities and locks are not modelled.
- EventChannel.WritesArrive: takes it that a write carries a document id that has been given out, which is what the stamp is for.
- MimeParameter.ParamsOfPrinted: says nothing of a parameter without an equals sign, which is read as a name with an empty text.
- MimeParameter.SectionsRoundTrip: a text that is not quoted has no blank, semicolon or quote; blanks around the equals sign and comments in parentheses are not read.
- `INTL_SetCSIRelayoutFlag`, which stores any flag value, `FORCERELAYOUT` among them, and `INTL_SetCSIWinCSID`: setters outside the model.
- `DSArray`, `DS_NewLink`, `DS_FindLink` and `DS_DestroyLink`: declared only.
- Case-insensitive comparison, normalisation, collation and the real charset tables: tables that are not part of this model; a charset is any table of trail byte counts from 0 to 3.
- `INTL_MidTruncateString`: the comment does not say where the cut goes.
- Four-byte UTF-8 forms: a UCS-2 unit never needs one.
- Timeouts of the JavaScript engine, evaluation and layer events: their code is not part of this model.
- `SyncTimeoutPeriod`, `NS_TimeToNextTimeout` and other talk with the operating system's timer.
- Hash table internals, NSPR event queues, the JavaScript lock: maps and sequences stand for them.
- Pasting a table into the document, command names for menus, and the rest of the editor: user interface.
- String tables, error codes, address book, preferences, history and region types: data or foreign calls.
