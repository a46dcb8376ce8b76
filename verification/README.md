# Verified model of the sipX log converters, RTP ports, phone manager and music server

A Dafny model of six pieces of stateful logic in the sipX libraries, each with
properties that hold over whole runs. `dafny verify dfyconfig.toml` checks it.

| file | what it models |
|---|---|
| `UtlStrings.dfy` | `UtlString`: searching, copying ranges, the two removals, comparing |
| `Sequences.dfy`, `Options.dfy`, `Decimals.dfy` | sequences in which nothing stands twice, values that may be missing, printed integers |
| `SipLogParser.dfy`, `SipLogFormat.dfy` | `siplog2siptrace`: cutting SIP messages out of a buffer filled by reads of any size; the log format and what reading it in pieces gives |
| `SyslogReader.dfy` | `syslog2siptrace`: lines out of a buffer, and its own slicing of a message |
| `TraceXml.dfy`, `TraceDocument.dfy`, `TraceWriter.dfy`, `TraceOfLog.dfy` | the XML trace both converters write, a reader for it, and the way from the log to the document and back |
| `RtpPorts.dfy` | the allocator of RTP port pairs |
| `EventLog.dfy`, `Transfer.dfy`, `Conference.dfy` | the phone manager: circular event log, blind transfers, conference and parties |
| `ConfigText.dfy`, `NumberFile.dfy`, `RecentNumbers.dfy` | the configuration database and the text of its file; the numbered keys among its settings; the recent numbers a phone keeps there over restarts |
| `CallPool.dfy`, `MusicServer.dfy` | the music server's sorted pool of calls and the players they own |

Each operation is written twice: as a function on values, about which the
properties are proved, and as the method of a class that changes its fields in
place, as the original does, and whose `ensures` equates the new state with that
function of the old one.

## Where the code does less than one would expect

* `UtlString::remove(pos, n)` changes nothing when `n` reaches past the end
  (sipXportLib/src/utl/UtlString.cpp:347-366, documented so in
  sipXportLib/include/utl/UtlString.h:509-513). `findNextMessage` removes 43
  characters from the start of the end marker on. When a read ends after the marker
  of a message but within the 20 characters behind it, nothing is removed, the
  message is delivered, and the inner loop finds it again for ever. So streaming
  equals batch exactly when no read ends there (`StreamingEqualsBatch`; an input that
  shows it: `CutTrailerExample`).
* `findNextLineTerminator` takes a line feed along after a carriage return only when
  it can see it. Each read that ends between the two adds an empty line, and only
  such reads change anything (`LinesDoNotDependOnReads`; an input: `CutPairExample`).
* `getEventLog` stops one slot early: it never shows the newest event, and after
  every 256th event it shows only the oldest (`VisitedIsShown`,
  `ShownIsPrefixOfWindow`).
* A call id that is established while still pooled costs a player: nothing can reach
  it any more (`PlayersAreConserved` says when the balance holds; a run that shows it:
  `SecondPlayerIsLostExample`).
* Adding a party twice reports success, but the second call is not in the party map
  and cannot be removed (`AddingAgainMakesSecondCall`, `SecondCallCannotBeRemoved`; a run: `SecondCallExample`).
* A party whose call ends leaves the conference but not the party map: the library
  takes the call out (sipXcallLib/src/tapi/sipXtapiEvents.cpp:648-662), and the
  manager's handler ignores the event. A party is in the conference exactly when its
  call has not ended (`PartyIsConnected`; a run that shows it: `EndedPartyExample`).
* Releasing a port one does not hold breaks the allocator's partition at once
  (`PartitionThroughoutRuns`; an input: `DoubleReleaseExample`).
* The configuration file does not keep every number. A line loses what looks like a
  separator in front of the value and the white space behind it, line feeds are
  dropped, and 255 characters are read at a time. A list comes back from its file
  exactly when it has no duplicates and all its numbers are `Good` (`RestoredExactly`),
  and in every run all saved lists come back exactly when each saved list is like
  that (`SavedListsAreRestored`). The phone accepts other numbers, too: any text that
  is not empty can be dialled (sipXcallLib/examples/sipXezPhone/DialEntryPanel.cpp:104-124).
* A setting whose line exceeds 255 characters is read in pieces, each like a line of its
  own; a piece that looks like a numbered key becomes a recent number
  (`SpilledSettingExample`). The results about runs ask of the other settings only that
  no piece of their lines does (`IsSetting`); those that fit on their lines all meet it
  (`FittingSetting`).
* A field with a `<` in it, as a Call-ID may have, makes the trace unreadable: it can be
  read back exactly when no field holds a `<` and no message a `]]>`
  (`DocumentRoundTrip`; an input: `MarkupExample`).
* After a number that the file loses, reading stops, and the keys behind it stay in
  the file: numbers that are in no list any more come back with a later save
  (`StaleNumberExample`).
* `OsConfigDb::loadFromFile` adds to what is in memory, it does not replace it
  (`LoadAddsToMemory`). As long as good numbers are saved this leaves no stale key, also
  without loading first and with files that cannot be read or written
  (`SaveLeavesNoStaleKey`).

## Model

| member | source | states |
|---|---|---|
| UtlStrings.UtlString.Index | sipXportLib/src/utl/UtlString.cpp:863-891 | the search loop returns the first occurrence at or after the start, or -1 |
| UtlStrings.UtlString.AppendRange | sipXportLib/src/utl/UtlString.cpp:212-237 | appends exactly the range; a negative length is reported, not copied |
| UtlStrings.UtlString.Truncate | sipXportLib/src/utl/UtlString.cpp:330-343 | drops everything from a valid position on |
| UtlStrings.UtlString.Remove | sipXportLib/src/utl/UtlString.cpp:347-366 | removes a range that lies inside the string; an invalid position or length changes nothing |
| UtlStrings.RemovesRange | sipXportLib/src/utl/UtlString.cpp:347-366 | what is kept is what stands in front of and behind the range; a range that is too long is not clipped |
| SipLogParser.EarliestEnd | sipXtackLib/siplog2siptrace/main.cpp:302-339 | the result is the first end marker of any kind after the header: none of the three stands before it |
| SipLogParser.ReadHeaderLine | sipXtackLib/siplog2siptrace/main.cpp:343-354 | host and port are cut out in place, or the missing separator is reported |
| SipLogParser.LogReader.SliceMessage | sipXtackLib/siplog2siptrace/main.cpp:343-360 | message text up to the end marker; an end marker inside the header line is reported |
| SipLogParser.LogReader.FindNextMessage | sipXtackLib/siplog2siptrace/main.cpp:291-370 | found, ignored or no message, direction, fields and the new buffer, for every buffer |
| SipLogParser.LogReader.DrainBuffer | sipXtackLib/siplog2siptrace/main.cpp:440-473 | the inner loop delivers what `Drain` says and leaves its buffer, or reports that the original would spin |
| SipLogParser.LogReader.ConvertLog | sipXtackLib/siplog2siptrace/main.cpp:415-475 | the outer loop over the reads, up to the read that returns nothing |
| SipLogParser.DrainIsTheLoop | sipXtackLib/siplog2siptrace/main.cpp:440-473 | after finitely many turns of the source's loop it has stopped with this output, crashed, or reached a state after which it delivers one message for ever |
| SipLogParser.DrainSettles | sipXtackLib/siplog2siptrace/main.cpp:440-473 | when the loop has stopped, another call finds nothing and changes nothing |
| SipLogParser.TurnShortensUnlessTrailerIsCut | sipXtackLib/siplog2siptrace/main.cpp:364-367 | a turn that goes on cuts the buffer behind the trailer, or the trailer is incomplete and the buffer stays while a message is delivered |
| SipLogParser.NulCutsRead | sipXtackLib/siplog2siptrace/main.cpp:422-436 | what follows a NUL in a read is lost |
| SipLogParser.EmptyReadEnds | sipXtackLib/siplog2siptrace/main.cpp:422-475 | a read of nothing is the last, whatever would follow |
| SipLogFormat.FindsRecord | sipXtackLib/siplog2siptrace/main.cpp:297-368 | a record whose end marker is complete is found with its direction, host, port and message whatever follows, and leaves the buffer only with its whole trailer |
| SipLogFormat.FindsNothingYet | sipXtackLib/siplog2siptrace/main.cpp:297-368 | any shorter prefix of a record is left alone |
| SipLogFormat.NoHeaderIsQuiet | sipXtackLib/siplog2siptrace/main.cpp:297-300 | after its last record a log may hold any text without a header: no read of it finds anything |
| SipLogFormat.UnfinishedRecordIsQuiet | sipXtackLib/siplog2siptrace/main.cpp:297-339 | so a log may end anywhere inside its last record: no read of such an end finds anything |
| SipLogFormat.ParserInvertsFormat | sipXtackLib/siplog2siptrace/main.cpp:291-370 | draining the rendered log gives exactly the records not marked as parsed, in order, with all fields, and leaves its tail |
| SipLogFormat.StreamingEqualsBatch | sipXtackLib/siplog2siptrace/main.cpp:422-475 | one read of the log gives all records; reading it in any pieces gives the same if and only if no piece ends inside the trailer of a record to be delivered; otherwise the first such cut decides where it spins |
| SipLogFormat.CutTrailerSpins | sipXtackLib/siplog2siptrace/main.cpp:364-367 | a read that ends inside the first trailer makes the converter deliver that message for ever, whatever would follow |
| SipLogFormat.CutTrailerExample | sipXtackLib/siplog2siptrace/main.cpp:364-367 | one concrete record that shows it |
| SyslogReader.FindNextLineTerminator | sipXtackLib/src/net/NameValueTokenizer.cpp:50-78 | the loop finds the first line feed or carriage return and where the next line starts |
| SyslogReader.LinesReassemble | sipXtackLib/syslog2siptrace/main.cpp:471-488 | lines with their terminators and the remainder are the buffer; terminators stand nowhere else |
| SyslogReader.SplitInTwo | sipXtackLib/syslog2siptrace/main.cpp:471-488 | splitting in two steps gives the same remainder and the same lines, plus one empty line when a carriage return, line feed pair was cut |
| SyslogReader.LinesDoNotDependOnReads | sipXtackLib/syslog2siptrace/main.cpp:461-492 | the lines handed over are those of a single read if and only if no read ends inside a carriage return, line feed pair; each that does adds one |
| SyslogReader.CutPairExample | sipXtackLib/src/net/NameValueTokenizer.cpp:50-78 | two reads that cut a pair: one line too many |
| SyslogReader.NulCutsRead | sipXtackLib/syslog2siptrace/main.cpp:461-470 | what follows a NUL in a read is lost |
| SyslogReader.EmptyReadEnds | sipXtackLib/syslog2siptrace/main.cpp:461-492 | a read of nothing is the last, whatever would follow |
| SyslogReader.LineReader.DrainLines | sipXtackLib/syslog2siptrace/main.cpp:471-488 | the inner loop hands over every line of the buffer and keeps the remainder |
| SyslogReader.LineReader.ConvertSyslog | sipXtackLib/syslog2siptrace/main.cpp:461-492 | the outer loop, and the last line without a terminator |
| SyslogReader.LineReader.GetMessageData | sipXtackLib/syslog2siptrace/main.cpp:181-218 | slices host, port and message with the end marker of the given direction, and tells whether an outgoing message is marked as not sent |
| SyslogReader.ConvertersAgree | sipXtackLib/syslog2siptrace/main.cpp:181-218 | on every text in which the other converter finds a message, both give the same host, port and message |
| SyslogReader.UnmarkedMessage | sipXtackLib/syslog2siptrace/main.cpp:181-218 | a record without the end marker of the direction asked for: the message is all that follows the header line |
| SyslogReader.NoHeaderNoMessage | sipXtackLib/syslog2siptrace/main.cpp:181-183 | no header, or one at the very start: nothing is sliced |
| TraceXml.FrontBackTrim | sipXtackLib/src/net/NameValueTokenizer.cpp:80-124 | both trimming loops; the result neither starts nor ends with a space |
| TraceXml.TrimmedIsInside | sipXtackLib/src/net/NameValueTokenizer.cpp:80-124 | only spaces in front and behind are taken away |
| TraceXml.ReadLine | sipXtackLib/siplog2siptrace/main.cpp:111-164 | a line the writer produces reads back as its tags and its text, whatever follows |
| TraceDocument.DocumentRoundTrip | sipXtackLib/siplog2siptrace/main.cpp:34-167 | a reader of the document recovers every node, in order (branch ids, addresses, transaction id, method or response pair, and body) if and only if no field holds a `<` and no body a `]]>` |
| TraceDocument.ReadIsWritable | sipXtackLib/siplog2siptrace/main.cpp:34-167 | whatever text the reader accepts as a document, no field it finds holds a `<` and no body a `]]>` |
| TraceDocument.MarkupExample | sipXtackLib/siplog2siptrace/main.cpp:224-247 | a transaction id that loses the document |
| TraceWriter.Writer.WriteBranchNodeData | sipXtackLib/siplog2siptrace/main.cpp:86-167 | trims and appends the fields in order, leaving out what is empty |
| TraceWriter.Writer.WriteMessageXml | sipXtackLib/siplog2siptrace/main.cpp:169-288 | appends the lines of the node of the message |
| TraceOfLog.TraceTellsMessages | sipXtackLib/siplog2siptrace/main.cpp:169-288 | read back, the trace tells of each message, in order, which end is source and which destination, for both directions, requests and responses, with their addresses, and transaction id, branch ids, and method or response pair as the SIP parser gives them, if and only if none of these holds a `<` and no message a `]]>` |
| TraceWriter.Writer.WriteNode | sipXtackLib/siplog2siptrace/main.cpp:251-287 | one node: its branch ids in a loop, then its fields |
| TraceWriter.WriteTrace | sipXtackLib/siplog2siptrace/main.cpp:415-477 | the document of the delivered messages, in order |
| Decimals.DecimalIsInjective | sipXtackLib/siplog2siptrace/main.cpp:228-229 | different numbers print differently |
| TraceWriter.TransactionIdIsInjective | sipXtackLib/siplog2siptrace/main.cpp:224-247 | ids are equal exactly for equal transactions, when call id and from tag hold no comma (section 25.1 of RFC 3261) |
| TraceWriter.CommaMakesIdsCollide | sipXtackLib/siplog2siptrace/main.cpp:241-247 | with a comma in the call id two transactions share an id |
| TraceOfLog.DocumentIsNested | sipXtackLib/siplog2siptrace/main.cpp:34-167 | every end tag of the document closes the tag opened last |
| TraceOfLog.TraceGivesBackTheLog | sipXtackLib/siplog2siptrace/main.cpp:373-481 | from a well-formed log, read without cutting a trailer, to the document and back: it tells of each record not marked as parsed, in order, from where to where it went and what the parser says of it, if and only if these can be written |
| RtpPorts.CpMediaInterfaceFactoryImpl.constructor | sipXmediaAdapterLib/interface/CpMediaInterfaceFactoryImpl.cpp:26-32 | no range, nothing free |
| RtpPorts.CpMediaInterfaceFactoryImpl.SetRtpPortRange | sipXmediaAdapterLib/interface/CpMediaInterfaceFactoryImpl.cpp:55-64 | a negative start becomes 0; the next port is the start |
| RtpPorts.CpMediaInterfaceFactoryImpl.GetNextRtpPort | sipXmediaAdapterLib/interface/CpMediaInterfaceFactoryImpl.cpp:67-92 | the oldest free port, or a new one, counted on by 2 |
| RtpPorts.CpMediaInterfaceFactoryImpl.ReleaseRtpPort | sipXmediaAdapterLib/interface/CpMediaInterfaceFactoryImpl.cpp:95-107 | queued, unless the system chooses the ports |
| RtpPorts.PartitionThroughoutRuns | sipXmediaAdapterLib/interface/CpMediaInterfaceFactoryImpl.cpp:67-107 | free and held ports are, each once, exactly the ports handed out, after every step of a run, if and only if only held ports are released |
| RtpPorts.HeldPorts | sipXmediaAdapterLib/interface/CpMediaInterfaceFactoryImpl.cpp:67-107 | a held port is held once, is not free, and keeps the parity of the start |
| RtpPorts.PeakBound | sipXmediaAdapterLib/interface/CpMediaInterfaceFactoryImpl.cpp:55-107 | next = start + 2 x most ever held; with at most k held no port exceeds start + 2k - 2, though the end of the range is never read; the pairs of different holders are disjoint (section 11 of RFC 3550) |
| RtpPorts.SystemChoosesPorts | sipXmediaAdapterLib/interface/CpMediaInterfaceFactoryImpl.cpp:55-104 | after a start of zero or less every allocation gives 0 and nothing is recorded, in every run |
| RtpPorts.ReleasedPortsQueue | sipXmediaAdapterLib/interface/CpMediaInterfaceFactoryImpl.cpp:67-107 | released ports come back in the order of their release |
| RtpPorts.RangeStays | sipXmediaAdapterLib/interface/CpMediaInterfaceFactoryImpl.cpp:55-107 | the range that was set stays over every run |
| RtpPorts.DoubleReleaseExample | sipXmediaAdapterLib/interface/CpMediaInterfaceFactoryImpl.cpp:95-107 | a port released twice is handed out twice |
| EventLog.EventLog.AddToEventLog | sipXcallLib/examples/sipXezPhone/sipXmgr.cpp:1043-1060 | the history grows by the line built from date, time and event |
| EventLog.EventLog.GetEventLog | sipXcallLib/examples/sipXezPhone/sipXmgr.cpp:1063-1077 | the loop terminates and renders exactly the events `Shown` names |
| EventLog.EventLog.ClearEventLog | sipXcallLib/examples/sipXezPhone/sipXmgr.cpp:1080-1088 | the history is empty |
| EventLog.RunKeepsHistory | sipXcallLib/examples/sipXezPhone/sipXmgr.cpp:1043-1060 | after any adds and clears, one round over the slots gives the newest 256 events since the last clear, oldest first |
| EventLog.RoundOfAdds | sipXcallLib/examples/sipXezPhone/sipXmgr.cpp:1043-1088 | the same, said of the events: of the lines added since the last clear the last 256, in order |
| EventLog.VisitedIsShown | sipXcallLib/examples/sipXezPhone/sipXmgr.cpp:1067-1076 | the slots visited hold the window without its newest event, or only its oldest after every 256th event |
| EventLog.ShownExactly | sipXcallLib/examples/sipXezPhone/sipXmgr.cpp:1063-1077 | what is shown, said of the history itself: of its last 256 events all but the newest, and after every 256th only the first |
| EventLog.ShownIsPrefixOfWindow | sipXcallLib/examples/sipXezPhone/sipXmgr.cpp:1063-1077 | what is shown is a prefix of the window, and all of it only when there is nothing to show |
| EventLog.StopIsMet | sipXcallLib/examples/sipXezPhone/sipXmgr.cpp:1067-1076 | the loop meets its stop index after exactly 255 slots, or 1 |
| Transfer.SipXmgr.HandleCallstateEvent | sipXcallLib/examples/sipXezPhone/sipXmgr.cpp:262-360 | new state and what the state machine is told, for each kind of event |
| Transfer.CurrentCallIsTold | sipXcallLib/examples/sipXezPhone/sipXmgr.cpp:268-276 | in every run the current call is that of the last event that brings a transferred call or sets the current call |
| Transfer.TransfersAreBookedOnce | sipXcallLib/examples/sipXezPhone/sipXmgr.cpp:268-328 | every disconnect has one outcome; no more are absorbed than transfers were begun; a pending transfer waits for the call that, told from the events, was current when the latest began |
| Transfer.AbsorbedIsTheController | sipXcallLib/examples/sipXezPhone/sipXmgr.cpp:318-323 | only that call's disconnect is absorbed, and it ends the transfer without touching the current call |
| Transfer.DisconnectOutcome | sipXcallLib/examples/sipXezPhone/sipXmgr.cpp:313-328 | which of the three outcomes a disconnect has, from what happened before it alone |
| Transfer.SwitchingSuspends | sipXcallLib/examples/sipXezPhone/sipXmgr.cpp:709-712 | `setInTransfer` suspends a pending transfer: nothing is absorbed until it is switched on again, and then everything is as before |
| Transfer.FlagAgreesWithHandle | sipXcallLib/src/tapi/sipXtapiEvents.cpp:575-626 | the library reports no event for the handle 0; so, without `setInTransfer`, flag and handle agree after every event of every run, from the first transfer on if the flag does not start with false |
| Transfer.FlagIsHandle | sipXcallLib/examples/sipXezPhone/sipXmgr.cpp:268-276 | the lemma behind it: the flag says after every event whether there is a handle, or still has its first value, if and only if no transferred call has handle 0 |
| Transfer.FirstFlagDoesNotMatter | sipXcallLib/examples/sipXezPhone/sipXmgr.cpp:37-47 | the constructor leaves the flag uninitialised; every disconnect has the same outcome whatever it starts with |
| Conference.SipXmgr.AddConfParty | sipXcallLib/examples/sipXezPhone/sipXmgr.cpp:730-776 | fields, ledger and result for every answer of the library |
| Conference.SipXmgr.RemoveConfParty | sipXcallLib/examples/sipXezPhone/sipXmgr.cpp:778-803 | the party goes even when the library refuses; the last one takes the conference along |
| Conference.SipXmgr.HangUp | sipXcallLib/examples/sipXezPhone/sipXmgr.cpp:509-521 | the conference is destroyed once, the map emptied, and there is no current call any more |
| Conference.SipXmgr.HandleDestroyed | sipXcallLib/src/tapi/sipXtapiEvents.cpp:648-662 | a call that ends leaves its conference; the manager's fields stay |
| Conference.HangingUpEndsAll | sipXcallLib/examples/sipXezPhone/sipXmgr.cpp:509-521 | after any run, hanging up leaves no conference, nobody in one, no parties and no current call, and every conference there ever was is destroyed |
| Conference.LastPartyEndsConference | sipXcallLib/examples/sipXezPhone/sipXmgr.cpp:778-803 | so does removing the last party, but for the current call, whatever the library answers |
| Conference.RemovingSparesOthers | sipXcallLib/examples/sipXezPhone/sipXmgr.cpp:778-803 | while another party remains, removing one takes away just that party, and its call if the library agrees; it succeeds if the party was there |
| Conference.AddingMakesParty | sipXcallLib/examples/sipXezPhone/sipXmgr.cpp:730-776 | a new party is added exactly when there is a conference, old or new, and the library adds it; nobody else's entry changes |
| Conference.AddingJoins | sipXcallLib/examples/sipXezPhone/sipXmgr.cpp:730-776 | who is in the conference afterwards, for every answer |
| Conference.RunsAreConsistent | sipXcallLib/examples/sipXezPhone/sipXmgr.cpp:509-803 | over all runs, answers and calls that end: at most one live conference, the manager's; none destroyed twice or lost; no parties without one; parties are distinct calls |
| Conference.PartyIsConnected | sipXcallLib/examples/sipXezPhone/sipXmgr.cpp:730-803 | in every run, a party's call is in the one live conference if and only if it has not ended |
| Conference.EndedPartyExample | sipXcallLib/src/tapi/sipXtapiEvents.cpp:648-662 | a run that leaves a party in the map but in no conference |
| Conference.AddingAgainMakesSecondCall | sipXportLib/src/utl/UtlHashMap.cpp:234-266 | the map keeps the first call of a party; the second is in the conference only |
| Conference.SecondCallCannotBeRemoved | sipXcallLib/examples/sipXezPhone/sipXmgr.cpp:778-803 | over any run in which the conference is not destroyed, such a call is in it if and only if it has not ended |
| Conference.SecondCallExample | sipXcallLib/examples/sipXezPhone/sipXmgr.cpp:730-803 | a party added twice and removed once: its second call is still in the conference |
| ConfigText.ParsesStart | sipXportLib/src/os/OsConfigDb.cpp:128-209 | a written line, or its first 255 characters, reads as its key and its value without separators in front and white space behind |
| ConfigText.LeadingSpaceIsSkipped | sipXportLib/src/os/OsConfigDb.cpp:128-209 | white space in front of a line does not matter |
| ConfigText.KeptIsInside | sipXportLib/src/os/OsConfigDb.cpp:128-209 | of a value only separators in front and white space behind are lost |
| ConfigText.SetKeepsSorted | sipXportLib/src/os/OsConfigDb.cpp:968-993 | the database stays sorted by key |
| ConfigText.WithoutInParts | sipXportLib/src/os/OsConfigDb.cpp:758-778 | just the one character is dropped, everywhere |
| ConfigText.FileGivesBack | sipXportLib/src/os/OsConfigDb.cpp:747-870 | a stored file sets a key to what is kept of its value, if the line of the key fits and no other line spills over into it |
| ConfigText.FileRoundTrip | sipXportLib/src/os/OsConfigDb.cpp:747-870 | loading a file of storable entries on top of any database does what setting them would do |
| ConfigText.PiecesAreLegible | sipXportLib/src/os/OsConfigDb.cpp:128-209 | whatever a file holds, every value read from it is without line feed, separator in front or space behind, and fits with its key into 254 characters |
| RecentNumbers.PhoneSettings.OnDial | sipXcallLib/examples/sipXezPhone/sipXezPhoneSettings.cpp:269-291 | a new number is appended, a known one is not |
| RecentNumbers.PhoneSettings.LoadSettings | sipXcallLib/examples/sipXezPhone/sipXezPhoneSettings.cpp:153-178 | the loop reads keys up to the first missing or empty one, and terminates |
| RecentNumbers.PhoneSettings.SaveSettings | sipXcallLib/examples/sipXezPhone/sipXezPhoneSettings.cpp:183-266 | sets the other settings, trims to the ten newest, writes their keys, stores the file |
| RecentNumbers.PhoneSettings.StoreToFile | sipXportLib/src/os/OsConfigDb.cpp:747-790 | the loop writes the text of the database and drops line feeds from it in memory |
| RecentNumbers.SaveLeavesNoStaleKey | sipXcallLib/examples/sipXezPhone/sipXezPhoneSettings.cpp:183-266 | in every run in which good lists were saved: no duplicates, and the next save keeps the last ten numbers of the list, in order, and writes, among the other settings, their keys and no other numbered key |
| RecentNumbers.DialledNumberComesBack | sipXcallLib/examples/sipXezPhone/sipXezPhoneSettings.cpp:239-291 | a new number that is dialled right before a save is the last one the next process reads |
| RecentNumbers.SettingsAreSaved | sipXcallLib/examples/sipXezPhone/sipXezPhoneSettings.cpp:183-237 | the other settings are saved along, and every other key keeps its value |
| RecentNumbers.LoadAddsToMemory | sipXportLib/src/os/OsConfigDb.cpp:833-868 | loading sets the keys of the file and leaves the others |
| RecentNumbers.FileStays | sipXcallLib/examples/sipXezPhone/sipXezPhoneSettings.cpp:59-64 | only a save that succeeds changes the file; a load that fails changes nothing; loading and dialling only append to the list |
| NumberFile.RestoredExactly | sipXcallLib/examples/sipXezPhone/sipXezPhoneSettings.cpp:153-178 | through the text of a file that also holds other settings: at most ten numbers are read back if and only if none is there twice and the file keeps each |
| NumberFile.FittingSetting | sipXportLib/src/os/OsConfigDb.cpp:747-870 | a setting that fits on its line stays out of the numbered keys |
| RecentNumbers.SavedListsAreRestored | sipXcallLib/examples/sipXezPhone/sipXezPhoneSettings.cpp:153-291 | over every run of dialling any numbers, loading, saving with other settings and restarting: every saved list is read back by a fresh process if and only if each holds only numbers the file keeps |
| RecentNumbers.SafeNumbers | sipXcallLib/examples/sipXezPhone/sipXezPhoneSettings.cpp:269-291 | all runs that dial only certain numbers get every list back if and only if the file keeps each of these numbers |
| RecentNumbers.StaleNumberExample | sipXcallLib/examples/sipXezPhone/sipXezPhoneSettings.cpp:153-178 | a run in which a saved list comes back with a number of an earlier one |
| RecentNumbers.SpilledSettingExample | sipXportLib/src/os/OsConfigDb.cpp:128-209 | a setting that is too long gives a phone without numbers a number |
| UtlStrings.BelowIsTotal | sipXcallLib/examples/musicServer/ActiveCall.cpp:42-45 | call ids are totally ordered |
| CallPool.InsertIsMapUpdate | sipXcallLib/examples/musicServer/listener.cpp:162-187 | inserting an id that is there leaves the old entry, otherwise adds one |
| CallPool.RemoveIsMapRemoval | sipXcallLib/examples/musicServer/listener.cpp:190-211 | removing gives what was inserted for the id and takes nothing else |
| CallPool.PoolRefinesMap | sipXcallLib/examples/musicServer/listener.cpp:162-211 | over every run the list stays sorted with unique ids and holds exactly what a finite map would |
| CallPool.PlayersAreConserved | sipXcallLib/examples/musicServer/listener.cpp:71-136 | over every run: players are destroyed at most once, pooled calls own live players of their own, calls counted = pool + removals, and created = destroyed + pool size if and only if no playing call's id is established again while pooled |
| CallPool.EstablishedCalls | sipXcallLib/examples/musicServer/listener.cpp:86-107 | a call established here is dropped exactly when its player did not realize, prefetch and play; otherwise it is pooled |
| CallPool.OtherDrops | sipXcallLib/examples/musicServer/listener.cpp:109-137 | else only the id that leaves the pool at a remote disconnect and a failed call are dropped, and nothing else changes the pool |
| CallPool.DropsAreAccounted | sipXcallLib/examples/musicServer/listener.cpp:71-137 | over every run: calls dropped = removals + failures + calls that did not come to play |
| CallPool.SecondPlayerIsLostExample | sipXcallLib/examples/musicServer/listener.cpp:162-187 | an id established twice: the second player is never destroyed |
| MusicServer.CallObject.PlayAudio | sipXcallLib/examples/musicServer/CallObject.cpp:40-82 | three prompts; a player that fails to realize, prefetch or play is destroyed again |
| MusicServer.CallObject.CleanUp | sipXcallLib/examples/musicServer/CallObject.cpp:85-91 | the player is destroyed if there is one |
| MusicServer.Listener.InsertEntry | sipXcallLib/examples/musicServer/listener.cpp:162-187 | the sorted insertion, or the object that goes nowhere |
| MusicServer.Listener.RemoveEntry | sipXcallLib/examples/musicServer/listener.cpp:190-211 | the object of the id, or none |
| MusicServer.Listener.FindPosition | sipXportLib/src/utl/UtlSortedList.cpp:150-181 | the first entry that does not compare below |
| MusicServer.Listener.HandleMessage | sipXcallLib/examples/musicServer/listener.cpp:53-140 | pool, players, and connections accepted, answered and dropped, after each event |

## Left out

* File descriptors, arguments, system logging, clocks: reads are a sequence of
  strings, of any length (the original reads 8192 bytes at a time); output is text.
* Input that makes the original copy a negative number of characters: the model
  reports it (`BadSlice`) and says nothing about what the original does then.
* A NUL inside a read cuts that read short, as in the original; the theorems about
  reading in pieces are about logs without NUL.
* SIP parsing (`SipMessage`, `Url`, via and branch fields) and `parseLogString`: their
  results are inputs. What `syslog2siptrace` makes of a failed send and of a re-INVITE
  in its document is not modelled.
* `size_t` is taken to be 32 bits wide. An `unsigned int` is compared with "not found",
  which is a `size_t`, in `getMessageData`, in the music server's `insertEntry` and
  `removeEntry`, and in `OsConfigDb::get`, `insertEntry` and `storeToFile`; with 64 bits
  they would never be equal.
- TraceWriter.Writer.WriteBranchNodeData: takes its fields as values, so that the caller's strings are trimmed as well is not modelled.
- TraceWriter.WriteTrace: writes the messages after they are delivered, where the original interleaves reading and writing.
* The other settings of the phone are any entries a save comes with; which they are, and
  encrypted configuration files, are not modelled.
* Integers are unbounded: overflow of port numbers and counters is not modelled.
* `setRtpPortRange` called again while ports are held, and the search for another port
  when a socket fails.
* `sipXtapi`: conferences and calls are a ledger of handles and every answer is an
  input; it gives out no handle twice.
* Locks: each public method is one step. The rest of the phone's settings, the user
  interface, media and codecs.
