# MasterBus: a verified model

This project models the parts of the MasterBus tools whose behaviour is hardest to see from one function
body, and proves what they are for. It stands beside the Rust crates `masterbus` and `masterbus-tools`.

- **The waiter and the discovery protocol** (`WaiterLog`, `Waiters`, `Requests`, `Strings`, `Discovery`,
  `Enumeration`, `Groups`, `Menus`, `Probing`, `Identities`). MasterBus replies carry no correlation token:
  a requester registers string keys, sends frames and waits, while a reader thread deposits payloads under
  keys it computes from the frames. The waiter is a class with a map of slots and a ghost history of
  everything that happened. Between any two steps of the requester the reader may deliver anything the bus
  allows, in any order and any number of times, or cancel everything; a wait may end at any tick. So every
  result holds for every schedule. `DiscBus::between` is a turn of the scheduler on the same waiter
  (`Waiter.OthersRun`): value reads, and, for a text value, the string it names and the device's access level,
  asked for by a discovery of the turn's own. At every turn those keys are proved free when it starts, and it
  leaves them free. The history tells whose step each event is: traces, send counts and budgets are those of the
  discovery itself.
- **The wire** (`Tab`, `Routing`, `F32`, `FakeDevice`, `Text`): message types, request builders, waiter keys,
  where the reader delivers a frame, and the fake device as the environment discovery is proved against.
- **Signal K** (`Units`, `SignalK`, `SignalKRoundTrip`, `Mappings`, `Publishing`): publishing and writing
  values, plans, copying a mapping, merging menus, seeding and resolving.
- **Self-contained parts** (`Settings`, `SettingsRoundTrip`, `Calendar`, `Liveness`): the `config.ini` parser
  and printer, the calendar, presence events and the order of identification.

## How the discovery results fit together

`Waiter.allowed` says which payloads can arrive under which key; it is an arbitrary relation. `Disc.gaveUp`
is the ghost set of keys whose request was given up. `Disc.Valid` says, among other things, that a key is in it
only after the request was sent its full number of times and waited for in vain, that no discovery key is
registered between operations, that the string memo holds only whole strings, and that the budgets for
unanswered strings and metadata are kept. `Enumeration.Speaks` says that everything that arrives under a
device's key is what that device answers. `Enumeration.BusSpeaks` proves it of any bus of devices with different
addresses on which only answers arrive, and `FakeDevice.Device.Respond` that a fake device's frames are only
answers as long as it is sent requests of the builders and value reads; its announcements are delivered nowhere
(`Routing.AnnouncementsAreUnheard`). String writes and logins are not among those requests: a write is
acknowledged under the key of a string chunk, and both change what the device answers. `Enumeration.AllAnswered`
says that nothing the device answers was given up, that is, every answerable request was answered on time or
late. Under these two, each operation returns a function of the device's schema alone (`FieldSpec`, `ShapeSpec`,
`MenuSpec`, `IdentitySpec`, ...), whatever the schedule was; `Menus.MenuIsRead` and `Menus.FieldsListed` say what
that function is for a well-formed device.

Three claims in the code's own comments do not hold as written, and are stated as the code has them:

- A string of 1024 bytes or more without a NUL is never fetched to its end: the chunk number is one byte and
  wraps (`Strings.FetchEndsIff`). Operations that fetch strings from a device require strings that end.
- A bundled string table that passes the spot check can still differ from the device in a checked string, when a
  chunk of it was lost and the table holds the part before it (`Identities.SpotCheckMisled`). It cannot exactly
  when no checked string of the table is the device's without its end, cut at the start of a chunk, or another
  checked string is not even that (`Identities.SpotCheckIff`).
- Writing back what was published is not always the inverse of publishing: labels with spaces at their ends, and
  truth tables whose keys differ only in case, are the exceptions (`SignalKRoundTrip.LabelRoundTrip`,
  `SignalKRoundTrip.TableRoundTripIff`, `SignalKRoundTrip.TablePutIff`).

## Model

| member | source | states |
|---|---|---|
| Waiters.Waiter.Register | crates/masterbus/src/runtime/waiter.rs:34-42 | after whatever the reader did, the key has an empty uncancelled slot; no other discovery key's registration or history of requests changes |
| Waiters.Waiter.Deliver | crates/masterbus/src/runtime/waiter.rs:46-52 | a payload fills the slot of a registered key, over what it held, and is ignored for any other key; `Valid` ties the slots to the history |
| Waiters.Waiter.CancelAll | crates/masterbus/src/runtime/waiter.rs:112-118 | every slot is cancelled, and a cancelled slot yields nothing until registered again |
| Waiters.Waiter.Wait | crates/masterbus/src/runtime/waiter.rs:56-69 | returns what the slot held at the end of the wait, and the key is unregistered on every path |
| Waiters.Waiter.WaitOrKeep | crates/masterbus/src/runtime/waiter.rs:74-90 | the key stays registered exactly when nothing is returned from an empty, uncancelled slot |
| Waiters.Waiter.WaitAny | crates/masterbus/src/runtime/waiter.rs:95-109 | the first key that is answered, cancelled or gone; none only if all are still open; nothing is unregistered |
| Waiters.Waiter.OthersRun | crates/masterbus/src/runtime/scheduler.rs:482-590 | a scheduler's turn: value reads in any order and number, strings and access levels asked for on the way, and the reader; no discovery key's registration changes, and nothing is added to what the discovery itself did |
| WaiterLog.OutcomeIsLatest | crates/masterbus/src/runtime/waiter.rs:34-90 | in every interleaving a slot yields a payload if and only if it is the latest delivered to the key since its last registration, with no cancel since |
| WaiterLog.GotIsLatest | crates/masterbus/src/runtime/waiter.rs:56-90 | what a discovery got for a key is exactly the latest payload delivered between the last registration and the end of its own last wait: nothing older, nothing lost unless cancelled |
| WaiterLog.GotWasHeard | crates/masterbus/src/runtime/discovery.rs:209-261 | a key that was not registered before a call yields only payloads delivered during the call |
| Requests.ReqWith | crates/masterbus/src/runtime/discovery.rs:147-182 | an unanswered request was sent exactly `retries` times, each time registered first and waited for to the end of a wait; an answered one at most so often and never after its answer; the key is left registered only when asked to and unanswered |
| Requests.ReqPatient | crates/masterbus/src/runtime/discovery.rs:135-145 | the same exact number of sends, and one wait more: an unanswered key stayed registered after the last send until that wait ended or it was cancelled; it is never left registered |
| Requests.AskTogether | crates/masterbus/src/runtime/discovery.rs:387-424 | every key of a batch is registered before the first frame is sent, and every frame sent before the first wait; each key is sent and waited on exactly once, no other discovery key is touched, and none is kept registered unless asked to |
| Requests.ReqAll | crates/masterbus/src/runtime/discovery.rs:209-261 | reply i is what the last wait on key i found and was delivered under key i during the call; a request without a reply was sent exactly `retries` times and waited for once more after the last, one with a reply at most so often and never after it, whatever the turns in between send of their own; no key is left registered |
| Requests.CollectLate | crates/masterbus/src/runtime/discovery.rs:187-196 | what is still unanswered is waited on once more, in its place, and every key is unregistered |
| Requests.AskInTurn | crates/masterbus/src/runtime/discovery.rs:836-855 | requests one after another, under keys no turn asks under (a group's positions, an option's labels), late replies collected at the end in their places: the same contract as a batch, exact sends and the one more wait included |
| WaiterLog.KeyFamily | crates/masterbus/src/protocol/tab.rs:116-154 | a request's key shows whether it is a value read or a string chunk, and no other request's key looks like one |
| WaiterLog.NestedIff | crates/masterbus/src/runtime/scheduler.rs:438-527 | the discovery keys a turn asks under are exactly those of string chunks and of the access level |
| WaiterLog.TurnTouchesNothing | crates/masterbus/src/runtime/scheduler.rs:157-160 | a turn that finds those keys free and leaves them free changes no discovery key's registration and no trace |
| Discovery.Disc.constructor | crates/masterbus/src/runtime/discovery.rs:44-63 | a discovery starts with an empty memo and empty budgets, nothing given up |
| Discovery.Disc.ReqStd | crates/masterbus/src/runtime/discovery.rs:198-201 | one request keeps the discovery invariant, and is given up exactly when unanswered; the invariant says that a key is given up only after its full number of attempts (one for a property or a label, `retries` for any other) |
| Discovery.Disc.AskAll | crates/masterbus/src/runtime/discovery.rs:209-261 | a pipelined batch keeps the discovery invariant; exactly the unanswered keys are given up, each after all its attempts within the batch |
| Discovery.Disc.AskEach | crates/masterbus/src/runtime/discovery.rs:478-505 | requests in turn keep the discovery invariant; exactly the unanswered keys are given up, each after all its attempts |
| Discovery.Disc.AskOnce | crates/masterbus/src/runtime/discovery.rs:435-471 | a chunk of the existence probe: each index sent once and waited on once, no key left registered |
| Discovery.Disc.FetchRound | crates/masterbus/src/runtime/discovery.rs:306-352 | one round asks the next chunk of every open fetch; a fetch not over holds exactly four bytes per round of its string, and one that is over is whole in the memo or cut at the lost chunk |
| Discovery.Disc.FetchStrsWire | crates/masterbus/src/runtime/discovery.rs:286-368 | under any reply loss the fetch ends, and each result is the whole device string or its prefix of four bytes per chunk before the one that was lost; what was known stays known, and the memo only ever holds whole strings |
| Discovery.Disc.FetchStr | crates/masterbus/src/runtime/discovery.rs:266-273 | the catalog's string when it lists the id, else the device's, whole or cut at a lost chunk |
| Discovery.Disc.NeverAnsweredCost | crates/masterbus/src/runtime/discovery.rs:101-118 | over a whole discovery, a string id that never answers was sent for exactly `retries` times for each time it was counted unanswered, which is twice at most, always for the first chunk; a string fetched inside a scheduler's turn is a discovery of its own, with a budget of its own |
| Strings.FetchGrows | crates/masterbus/src/runtime/discovery.rs:336-351 | a chunk adds the next four bytes of the string and the sequence number goes on, or ends the fetch with the whole string |
| Strings.FetchEndsIff | crates/masterbus/src/runtime/discovery.rs:337-351 | on a bus that loses nothing a fetch ends, with the whole string, if and only if the string has a NUL or its end within 1024 bytes |
| Strings.FetchedIff | crates/masterbus/src/runtime/discovery.rs:306-352 | a text is what a fetch brings under some loss of chunks if and only if it is the whole string or the string up to the start of a chunk |
| Discovery.Disc.MetaBatch | crates/masterbus/src/runtime/discovery.rs:387-424 | each op is sent and waited on once, answered ops are exactly those returned, no key is left registered |
| Discovery.Disc.FieldMeta | crates/masterbus/src/runtime/discovery.rs:1001-1034 | exactly the ops the first batch left out and the device has not left out too often are sent once more; which counts change, and by how much; a device past its silent limit is not retried and its count stays |
| Discovery.Disc.LeftOutLimit | crates/masterbus/src/runtime/discovery.rs:65-99 | over a whole discovery at most ten retry batches on a device's partly answered fields leave an op out |
| Discovery.OnwardChain | crates/masterbus/src/runtime/discovery.rs:64-118 | over any number of operations of a discovery: what was given up or fetched stays so, no op count falls, and a device past its silent limit stays past it, so none of its silent fields is retried |
| Discovery.Disc.MissedOps | crates/masterbus/src/runtime/discovery.rs:1028-1034 | each op left out is counted once, no other count changes, and no count passes the limit |
| Enumeration.BusSpeaks | crates/masterbus/src/runtime/fakebus.rs:691-773 | on a bus of devices with different addresses where only answers arrive, everything that arrives under a device's key is that device's own answer |
| Enumeration.OptionLabels | crates/masterbus/src/runtime/discovery.rs:478-505 | label id i is in the reply to option i, whichever replies came late |
| Enumeration.DeviceString | crates/masterbus/src/runtime/discovery.rs:266-280 | with every answerable request answered, the string is the catalog's or the string-table entry |
| Enumeration.ReadBack | crates/masterbus/src/runtime/discovery.rs:1042-1063 | metadata decoded from the replies is the device's own metadata |
| Enumeration.EnumerateField | crates/masterbus/src/runtime/discovery.rs:983-1106 | with every answerable request answered, on time or late, a field is found exactly when the device has metadata for it, and is described as the device has it (`FieldIsDescribed`); under any loss a field that is found shows nothing its device does not say: texts whole or cut at a lost chunk, its kind or a float, defaults for what did not come; one not found had every op given up |
| Enumeration.KindReadsBack | crates/masterbus/src/protocol/mod.rs:188-203 | each kind is decoded from its own wire code and from no other, and every code that is no other kind's is a float |
| Enumeration.FieldIsDescribed | crates/masterbus/src/runtime/discovery.rs:1042-1106 | a field read in full has its own id, the device's name and unit, the kind its code stands for, its flags and maximum; it has labels exactly when its kind is a drop-down or an eventable with 1 to 64 options, label by label the device's |
| Groups.FieldIds | crates/masterbus/src/runtime/discovery.rs:833-872 | for every split of replies into on-time and late, the ids are the first occurrences among the answered positions, in position order |
| Groups.ListedOnTab | crates/masterbus/src/runtime/discovery.rs:857-872 | every listed id is on the menu's tab |
| Prelude.FirstOccurrences | crates/masterbus/src/runtime/discovery.rs:868-871 | deduplication keeps every id exactly once |
| Prelude.FirstOccurrencesInOrder | crates/masterbus/src/runtime/discovery.rs:868-871 | deduplication keeps the order in which ids are first listed |
| Groups.FieldCount | crates/masterbus/src/runtime/discovery.rs:795-826 | the count is the device's; one past 256 is believed only after it was asked for twice, and unanswered is told from zero |
| Groups.ReadShape | crates/masterbus/src/runtime/discovery.rs:788-881 | a group's name and distinct field ids are the device's; a group claiming more than 256 fields is skipped |
| Menus.FinishGroup | crates/masterbus/src/runtime/discovery.rs:883-905 | a group's fields are those of its ids that have metadata, in order |
| Menus.GroupTotal | crates/masterbus/src/runtime/discovery.rs:662-666 | the number of groups is the device's; unanswered is told from zero |
| Menus.EnumerateMenu | crates/masterbus/src/runtime/discovery.rs:739-766 | with every answerable request answered, the groups and completeness of a tab are a function of the device alone; what that function is, is in the rows below |
| Menus.MenuIsRead | crates/masterbus/src/runtime/discovery.rs:739-784 | for a well-formed tab every group is read in id order with its fields in display order, complete, if and only if no group looks like the one before it; otherwise exactly the groups before the first that does |
| Menus.GroupIsDescribed | crates/masterbus/src/runtime/discovery.rs:883-905 | a group of a well-formed tab has its own id, tab and name, and its fields in display order, each once and as the device describes it; only Monitoring fields can be eventable outputs |
| Menus.ShapeSkippedIff | crates/masterbus/src/runtime/discovery.rs:795-830 | for any schema, a group is skipped exactly when it claims more than 256 fields, and its count is missing exactly when the device does not know the group |
| Menus.CompleteIff | crates/masterbus/src/runtime/discovery.rs:739-766 | for any schema, a read is complete exactly when the device knows every group that was taken into it |
| Menus.FieldsListed | crates/masterbus/src/runtime/discovery.rs:883-905 | a field is listed if and only if it is in the group and has metadata |
| Probing.EventableOutputs | crates/masterbus/src/runtime/discovery.rs:929-947 | the outputs up to the first missing or unusable one, whether the device counts, refuses or does not answer |
| Probing.OutputsAreListed | crates/masterbus/src/runtime/discovery.rs:923-947 | a device with at most 32 usable outputs has all of them listed, in order |
| Probing.ProbeExistence | crates/masterbus/src/runtime/discovery.rs:435-471 | the indices that answer are exactly those with a field, in order, over all chunks |
| Probing.ExistingAre | crates/masterbus/src/runtime/discovery.rs:435-471 | those indices are, in rising order, exactly the ones below the sweep's end whose field has metadata |
| Probing.ProbeChannel | crates/masterbus/src/runtime/discovery.rs:958-968 | a sweep reads the field at each index found |
| Probing.SweepFinds | crates/masterbus/src/runtime/discovery.rs:911-921 | one field per index found, each as its device describes it |
| Identities.FetchStrings | crates/masterbus/src/runtime/discovery.rs:558-577 | strings of several devices fetched together are each the catalog's or the own device's |
| Identities.FetchIdentities | crates/masterbus/src/runtime/discovery.rs:534-624 | for any list of distinct devices and with every answerable request answered, each identity is its own device's, whatever the others answer; `IdentityIs` says what that is |
| Identities.IdentityIs | crates/masterbus/src/runtime/discovery.rs:598-622 | article, serial number and name are the trimmed strings of properties 1, 2 and 3; the revision is property 4's unless that is blank, then the one character at index 4 of the serial number, or nothing; the firmware is the sums of the majors and of the minors |
| Identities.FetchIdentity | crates/masterbus/src/runtime/discovery.rs:526-528 | fetching one device alone gives the same identity as in any batch |
| Identities.FitsDevice | crates/masterbus/src/runtime/discovery.rs:640-646 | with every answerable request answered, a table passes exactly when every checked string is the device's; in any case a table that passes has each checked string as the device has it or up to a lost chunk, and if none of its checked strings lacks only its end they are all the device's |
| Identities.PassesIff | crates/masterbus/src/runtime/discovery.rs:640-646 | a table passes under some loss of chunks if and only if each checked string is the device's, or the device's up to the start of a chunk |
| Identities.SpotCheckIff | crates/masterbus/src/runtime/discovery.rs:631-634 | every loss under which a table passes leaves it in agreement with the device on the checked ids if and only if no checked string is a proper part of the device's cut at a chunk, or the table cannot pass at all |
| Identities.SpotCheckMisled | crates/masterbus/src/runtime/discovery.rs:631-646 | a device with "abcdefgh", a table with "abcd" and chunk 1 lost: the table passes and differs |
| Identities.ResolveCatalog | crates/masterbus/src/runtime/discovery.rs:635-657 | with every answerable request answered, the first table that fits, and none only if none fits; in any case a table that is chosen has passed the check as above |
| Tab.KeyInjective | crates/masterbus/src/protocol/tab.rs:116-154 | a waiter key names one device and one request: no two requests share a key |
| Tab.FieldIdParts | crates/masterbus/src/model.rs:148-180 | tab and index are recovered from a field id |
| Tab.ExchangesAreRegular | crates/masterbus/src/protocol/tab.rs:79-95 | but for Alarm values, an answer's class is 0x10 below its request's and a refusal's 8 above the answer's, on one half of the addresses; no two requests share a message type |
| Tab.RequestsAreBytes | crates/masterbus/src/protocol/encode.rs:35-112 | the bytes of each request, by opcode |
| Routing.SameKeySameSubject | crates/masterbus/src/protocol/decode.rs:221-256 | two frames delivered under one key agree on device, tab, kind, opcode, low index byte and option or position |
| Routing.AnswerNames | crates/masterbus/src/protocol/tab.rs:79-111 | no two message types share a class and address half: an answer or refusal names its tab and kind |
| Routing.AnnouncementsAreUnheard | crates/masterbus/src/runtime/fakebus.rs:358-365 | a device's periodic announcement is delivered under no key |
| Routing.WireParts | crates/masterbus/src/protocol/tab.rs:26-50 | a frame built for a message type decodes to that class, address half and device |
| FakeDevice.RepliesAreRouted | crates/masterbus/src/runtime/reader.rs:103-156 | every reply to a request of the builders is delivered under exactly the key discovery registers for it, and nowhere else |
| FakeDevice.ValuesAreRouted | crates/masterbus/src/runtime/reader.rs:103-156 | a value frame is delivered under the value key of its tab and index |
| FakeDevice.RequestWire | crates/masterbus/src/protocol/encode.rs:21-112 | each request goes to the device and message type it is for |
| FakeDevice.Device.Respond | crates/masterbus/src/runtime/fakebus.rs:369-394 | a request changes nothing the device says of itself and draws silence or one frame delivered to its key; a request or value read draws nothing but answers; a frame for another address draws silence |
| FakeDevice.Device.GroupRequest | crates/masterbus/src/runtime/fakebus.rs:398-434 | group name, count and positions are answered from the schema; a count may fall silent |
| FakeDevice.Device.PropertyOfField | crates/masterbus/src/runtime/fakebus.rs:440-484 | each property of a field with metadata is answered, any other index is silent |
| FakeDevice.Device.DeviceRequest | crates/masterbus/src/runtime/fakebus.rs:488-587 | login, counts, firmware, property ids and strings are answered from the schema; a string write appends its bytes up to a NUL |
| FakeDevice.Device.MonitoringValue | crates/masterbus/src/runtime/fakebus.rs:591-634 | a read shows the settled value; an output's write acts only with its commit, another at once or after some reads |
| FakeDevice.Device.TabValue | crates/masterbus/src/runtime/fakebus.rs:639-665 | a read or write on another tab is answered with the value, and a write takes effect |
| F32.CountRoundTrip | crates/masterbus/src/runtime/discovery.rs:799-803 | a field count sent as a single-precision number is read back exactly |
| F32.FractionsAreCut | crates/masterbus/src/runtime/discovery.rs:799-803 | a single-precision number from 1 up to 2^23 is cut off to the whole number below |
| F32.OddNumbers | crates/masterbus/src/runtime/discovery.rs:799-803 | negative numbers, numbers below 1 and NaN are 0, and infinity is the largest count |
| Settings.Parse | crates/masterbus/src/settings.rs:417-504 | the parser's loop computes the fold of its lines, with the first failing line's error |
| SettingsRoundTrip.SettingLine | crates/masterbus/src/settings.rs:426-440 | a printed `key = value` line sets its key to the value cut at a comment, trimmed and unquoted |
| SettingsRoundTrip.PiecesParse | crates/masterbus/src/settings.rs:426-431 | line ends, a missing last newline and carriage returns make no difference |
| SettingsRoundTrip.PrintedParses | crates/masterbus/src/settings.rs:507-565 | what the parser makes of any printed configuration of one-line texts |
| SettingsRoundTrip.ParsedIsPlain | crates/masterbus/src/settings.rs:417-504 | whatever parses has a BusID of ours, if any, and one-line texts |
| SettingsRoundTrip.RoundTrip | crates/masterbus/src/settings.rs:417-565 | parsing a printed configuration gives it back if and only if its BusID is valid and its texts have no comment character, newline, or space or quote at an end, the optional ones not empty |
| SettingsRoundTrip.AddedBusId | crates/masterbus/src/settings.rs:175-200 | appending the BusID text to any file changes only its BusID; a file that does not parse fails for the same reason |
| SettingsRoundTrip.GeneratedIsOurs | crates/masterbus/src/bus_id.rs:19-36 | every generated BusID is one the parser takes |
| SettingsRoundTrip.TypesAreNamed | crates/masterbus/src/settings.rs:467-480 | whatever its case, "can" or "socketcan" sets the CAN type, "usb" the USB type, and any other name is an error of its line |
| SettingsRoundTrip.CommentBegins | crates/masterbus/src/settings.rs:428 | a line is cut at its first '#' or ';', wherever that is |
| SettingsRoundTrip.PrefixIsIgnored | crates/masterbus/src/settings.rs:442-465 | a "0x" before a number changes nothing, and a number without it is kept |
| Text.FormattedValue | crates/masterbus/src/settings.rs:508-515 | a formatted number reads back, whatever its padding |
| Text.SplitOfJoin | crates/masterbus-tools/src/mapping.rs:336-344 | joined segments split into the same segments |
| Calendar.EpochDate | crates/masterbus-tools/src/bin/masterbus-signalk.rs:1116-1127 | day 0 is 1 January 1970 |
| Calendar.CivilFollowsCalendar | crates/masterbus-tools/src/bin/masterbus-signalk.rs:1116-1127 | for every integer day the result is a valid Gregorian date, and the next day is its calendar successor |
| Calendar.CivilIsMonotone | crates/masterbus-tools/src/bin/masterbus-signalk.rs:1116-1127 | later days are later dates, so no two days share a date |
| Calendar.EveryDateIsReached | crates/masterbus-tools/src/bin/masterbus-signalk.rs:1116-1127 | every valid date, of whatever year, is some day's, and the day number is negative exactly before 1970 |
| Units.UnapplyUndoes | crates/masterbus-tools/src/units.rs:40-48 | a conversion and its inverse undo each other |
| Units.ConversionsInvert | crates/masterbus-tools/src/units.rs:100-145 | every conversion in the table can be undone |
| Units.SiUnitsAreKept | crates/masterbus-tools/src/units.rs:119-125 | units of the SI, and the ratio, are published as they are |
| Units.LargeAndSmall | crates/masterbus-tools/src/units.rs:126-140 | a thousand of the small units make a large one, a hundred percent the whole; temperatures differ by 273.15 |
| Units.TimesAgree | crates/masterbus-tools/src/units.rs:135-142 | a minute is sixty seconds, an hour sixty minutes, sixty turns a minute one a second |
| Units.ProductsAgree | crates/masterbus-tools/src/units.rs:134-137 | energy is power times time and charge current times time, in whichever units they are given |
| Units.SpellingsAreOne | crates/masterbus-tools/src/units.rs:82-92 | the spellings of turns a minute and of degrees, and the space around a unit, make no difference |
| SignalK.MainInstance | crates/masterbus-tools/src/signalk.rs:443-457 | the instance named most often; in a tie the current one, else the alphabetically first; none only when no path names one |
| SignalK.TruthDefault | crates/masterbus-tools/src/signalk.rs:74-84 | the loop builds the conventional table of all labels, or none |
| SignalK.Complete | crates/masterbus-tools/src/signalk.rs:246-258 | the loop completes the user's table label by label, or stops |
| SignalK.MakePlan | crates/masterbus-tools/src/signalk.rs:228-300 | the loops compute the plan, or the first reason to refuse, in the source's order; when it is refused is `PlanRefusedIff`, and what an accepted plan promises is `PlanInverts`, `PlanPublishesMeaning`, `PlanTruthTotal`, `PlanUnitIsLeafs` and `PlanUnitIsFree` below |
| SignalKRoundTrip.InsertKeepsOrder | crates/masterbus-tools/src/signalk.rs:74-84 | setting a key keeps a table in key order, each key once, and changes no other entry |
| SignalKRoundTrip.PlainRoundTrip | crates/masterbus-tools/src/signalk.rs:466-599 | a published number, boolean or text writes back to a value that publishes the same; a time is published but never written |
| SignalKRoundTrip.UnlabeledRoundTrip | crates/masterbus-tools/src/signalk.rs:485-495 | a published enum without labels always writes back |
| SignalKRoundTrip.LabelRoundTrip | crates/masterbus-tools/src/signalk.rs:569-585 | an enum published by label writes back if and only if the label has no space at its ends |
| SignalKRoundTrip.TableRoundTripIff | crates/masterbus-tools/src/signalk.rs:496-504 | every enum published through a truth table writes back, whatever its labels, if and only if the table is safe |
| SignalKRoundTrip.ConsistentIsSafe | crates/masterbus-tools/src/signalk.rs:496-504 | a table without contradictions is safe, so it needs no other check |
| SignalKRoundTrip.TablePutIff | crates/masterbus-tools/src/signalk.rs:555-568 | every successful boolean PUT through a table publishes what was sent, whatever the labels, if and only if no two keys differ only in case and disagree |
| SignalKRoundTrip.PlainPut | crates/masterbus-tools/src/signalk.rs:546-554 | a boolean PUT to a boolean or a label-less enum is honoured if and only if the enum has the option asked for |
| SignalKRoundTrip.PlanTruthTotal | crates/masterbus-tools/src/signalk.rs:240-259 | an accepted plan covers every label, keeps every user entry, and contradicts itself only if the user's table does |
| SignalKRoundTrip.PlanPublishes | crates/masterbus-tools/src/signalk.rs:496-504 | under an accepted plan every index in range publishes a boolean |
| SignalKRoundTrip.PlanTakesBoth | crates/masterbus-tools/src/signalk.rs:74-84 | with no user table both a true and a false PUT succeed and are honoured |
| SignalKRoundTrip.PlanHonours | crates/masterbus-tools/src/signalk.rs:555-568 | with a consistent user table every successful boolean PUT is honoured |
| SignalKRoundTrip.PlanConverts | crates/masterbus-tools/src/signalk.rs:267-286 | every plan's conversion can be undone |
| SignalKRoundTrip.TruthRefusedIff | crates/masterbus-tools/src/signalk.rs:240-259 | a plan is refused for want of a table exactly when a label has no meaning, or no user table and not both meanings |
| SignalKRoundTrip.PlanUnitIsLeafs | crates/masterbus-tools/src/signalk.rs:267-291 | a leaf with a unit is published in that unit, by the conversion of the device's unit, or as it is when the device names none; never with a warning |
| SignalKRoundTrip.PlanUnitIsFree | crates/masterbus-tools/src/signalk.rs:276-291 | a leaf without a unit of its own is published in the SI unit of the device's, by its conversion; a unit that cannot be converted is published as it is, with a warning |
| SignalKRoundTrip.PlanRefusedIff | crates/masterbus-tools/src/signalk.rs:228-300 | a plan is refused for its path exactly when that is not a good one, else for its truth table exactly when one is lacking, else for its unit exactly when that clashes with the leaf; otherwise it is accepted |
| SignalKRoundTrip.PlanInverts | crates/masterbus-tools/src/signalk.rs:292-299 | under an accepted plan a boolean is published negated exactly when the entry says so, and the notifications are the entry's |
| SignalKRoundTrip.PlanPublishesMeaning | crates/masterbus-tools/src/signalk.rs:240-259 | under an accepted plan a label is published as what the user's consistent table says of it, or without a table as what it conventionally means, negated exactly when the entry says so |
| SignalKRoundTrip.GoodPathIff | crates/masterbus-tools/src/signalk.rs:109-150 | a path is accepted exactly when it has no space inside, all its segments are of letters, digits, '-' and '_', and there are as many as its branch needs |
| SignalKRoundTrip.PathErrorIsTrue | crates/masterbus-tools/src/signalk.rs:109-150 | the reason given for a bad path is true of it |
| SignalKRoundTrip.GoodPathNamesInstance | crates/masterbus-tools/src/signalk.rs:406-432 | a good path in a branch of devices names an instance |
| SignalKRoundTrip.ElectricLeaves | crates/masterbus-tools/src/signalk.rs:26-43 | the leaves of an electric quantity, each with its unit and no others |
| SignalKRoundTrip.OtherLeaves | crates/masterbus-tools/src/signalk.rs:26-43 | the other leaves with a unit of their own |
| SignalKRoundTrip.LabelsMean | crates/masterbus-tools/src/signalk.rs:62-69 | the labels that conventionally mean true or false, whatever the case and the space around them |
| SignalKRoundTrip.NumbersAreConverted | crates/masterbus-tools/src/signalk.rs:473-545 | a number is published converted; a number that is sent is written as the one that would be published as it, whole or not, and nothing else is |
| SignalKRoundTrip.SecondsCount | crates/masterbus-tools/src/signalk.rs:477-483 | a minute counts sixty seconds, an hour sixty minutes, a day 24 hours |
| SignalKRoundTrip.TimesArePublished | crates/masterbus-tools/src/signalk.rs:477-484 | a time is published as the number of its seconds would be, and not at all when it is the sentinel |
| SignalKRoundTrip.EnumsArePublished | crates/masterbus-tools/src/signalk.rs:487-509 | without a table an enum is published as on or off, or as its label in lower case, and not at all past its options |
| SignalKRoundTrip.TextsAreKept | crates/masterbus-tools/src/signalk.rs:510-594 | a text is published as it is unless empty, and a string is written to it as it is |
| SignalKRoundTrip.IndexPut | crates/masterbus-tools/src/signalk.rs:575-584 | a number sent to an enum with labels selects that option, and is refused when there is none |
| SignalKRoundTrip.WordsPut | crates/masterbus-tools/src/signalk.rs:606-610 | the words that stand for true and for false, whatever the case and the space around them |
| SignalKRoundTrip.NumbersPut | crates/masterbus-tools/src/signalk.rs:604-605 | a number stands for true unless it is zero |
| Mappings.FieldKeyReadsBack | crates/masterbus-tools/src/mapping.rs:197-209 | a field key reads back as its field, with space around it or not |
| Mappings.FieldKeyWidth | crates/masterbus-tools/src/mapping.rs:197-199 | a field key has at least three digits, and exactly three for every id below 0x1000 |
| Mappings.RetargetUndoneIff | crates/masterbus-tools/src/mapping.rs:336-344 | retargeting back gives the path, when the new segment was absent, if and only if there was nothing to swap or the new segment is one |
| Mappings.RetargetNamesInstance | crates/masterbus-tools/src/signalk.rs:406-432 | a path retargeted from its own instance names the new one, unless its first segment was the same word |
| Mappings.Mapping.CopyToTargets | crates/masterbus-tools/src/mapping.rs:290-328 | the devices after the copy, and how many fields were copied; copied plus skipped is targets times source fields; `CopyIsDone`, `EachTargetIsCopied` and `CopiedAreDue` say what that is, in any order of keys |
| Mappings.CopyIsDone | crates/masterbus-tools/src/mapping.rs:297-325 | the entry after a copy records who the target is; a source field whose key names a field the target has, and whose path changes when it is retargeted, is there on that path with all else as in the source; every other key is as it was |
| Mappings.EachTargetIsCopied | crates/masterbus-tools/src/mapping.rs:297-327 | of targets with different serial numbers each ends with what a copy to it alone makes of its entry |
| Mappings.CopiedAreDue | crates/masterbus-tools/src/mapping.rs:295-328 | the number copied grows at each target by exactly its due fields, so the number skipped by exactly the others |
| Mappings.InstanceIsSegment | crates/masterbus-tools/src/signalk.rs:406-432 | under "electrical" and "tanks" a long enough path names its third segment as the instance, under "propulsion" and "sails" its second, and no other path names any |
| Mappings.CopyTouchesTargets | crates/masterbus-tools/src/mapping.rs:290-328 | devices that are not targets are unchanged, and a chosen instance is kept |
| Mappings.EntryFields | crates/masterbus-tools/src/mapping.rs:306-325 | every field of a target is its old one or a copy, for a field it has, on the source's path retargeted to the target's instance and not on the source's own; it names that instance when the source path's instance is not also its first segment and the target's has no dot |
| Mappings.EntryKeeps | crates/masterbus-tools/src/mapping.rs:306-325 | fields the source does not map, or the target lacks, are unchanged |
| Publishing.DeviceRecord.MergeGroups | crates/masterbus-tools/src/publish.rs:100-120 | a merge adds the reported fields in order, skipping ids already there |
| Publishing.MergedAreFirst | crates/masterbus-tools/src/publish.rs:98-120 | from any sequence of merged menus every reported id is there once, as first reported |
| Publishing.MenuFieldsAre | crates/masterbus-tools/src/publish.rs:104-118 | the records of a menu are those of its groups' fields, each with its field's name, unit, options and flag, its group's name and the menu |
| Publishing.SeedDevice | crates/masterbus-tools/src/publish.rs:393-427 | a path goes to exactly the lowest-id Monitoring field it is suggested for |
| Publishing.SeedMapping | crates/masterbus-tools/src/publish.rs:371-432 | exactly the serial numbers of devices with a suggestion are seeded, each from the last device that has the number and a suggestion, as above |
| Publishing.SeedEntryIs | crates/masterbus-tools/src/publish.rs:418-425 | a seeded entry has the path and inversion suggested and nothing else: no table, no notification, not writable |
| Publishing.Resolve | crates/masterbus-tools/src/publish.rs:239-352 | exactly the (device, field) pairs with an entry that parses, exists and plans are emitted, each as its last such entry in key order, and exactly the diagnostics due are given, each once |
| Publishing.EmittedAre | crates/masterbus-tools/src/publish.rs:283-348 | whatever is emitted for a field has the path and PUT flag of an entry whose key is the field's, the plan made for it from the field's unit and options, and the device's name |
| Publishing.EntryFailsFor | crates/masterbus-tools/src/publish.rs:283-319 | an entry fails for its key exactly when that is no field id, for its field exactly when the device has none with that id, and else for what its plan is refused for |
| Publishing.SaidOfEntry | crates/masterbus-tools/src/publish.rs:283-339 | of an entry that fails its reason is said; of one that is emitted, exactly a unit published as the device has it and a PUT to a field that cannot be written |
| Publishing.SaidOfDevice | crates/masterbus-tools/src/publish.rs:260-282 | of a mapped device that is not on the bus it is said that it is missing, and nothing else; of one that is, a warning exactly when its recorded firmware is another |
| Publishing.BySerialIsLast | crates/masterbus-tools/src/publish.rs:241-245 | of several devices with one serial number the last is the one mapped |
| Publishing.ErrorIffNotEmitted | crates/masterbus-tools/src/publish.rs:283-318 | an entry of a present device gives one Error if it fails and none if it is emitted |
| Publishing.SeededPathsDiffer | crates/masterbus-tools/src/publish.rs:239-432 | after seeding, no two emitted fields of a device share a path |
| Liveness.ReaderPasses | crates/masterbus/src/runtime/reader.rs:54-81 | for every history of liveness sets the events replay to each set in turn, and each event is a change |
| Liveness.EventsAlternate | crates/masterbus/src/runtime/reader.rs:70-80 | a device's events alternate |
| Liveness.FirstIsAlive | crates/masterbus/src/runtime/reader.rs:70-80 | a device's first event is Alive |
| Liveness.Walk | crates/masterbus-tools/src/bin/masterbus-signalk.rs:346-369 | the calls made: batches of the devices at start, then the late ones |
| Liveness.WalkIdentifiesOnce | crates/masterbus-tools/src/bin/masterbus-signalk.rs:346-369 | every device is identified exactly once, those at start first and in order, then the others in order of first appearance |
| Liveness.BatchesAreFull | crates/masterbus-tools/src/bin/masterbus-signalk.rs:353-360 | there are no more batches than it takes with five devices in each |
| Liveness.LateComeAfter | crates/masterbus-tools/src/bin/masterbus-signalk.rs:353-368 | a device on the bus at start is made ready before the walk is over and not as a late one, every other after it and as a late one |
| Liveness.FetchedFirst | crates/masterbus-tools/src/bin/masterbus-signalk.rs:353-360 | a device at start is fetched in a batch of at most five before it is made ready, with no other batch between |

## Left out

- String writes and logins during a discovery: the results about names and fields are for devices that are sent requests and value reads only.
- Threads, locks, sockets and clocks: a step system with nondeterministic deliveries, timeouts and turns stands for them; how long a wait lasts is not modelled, it may end at any step.
- Send errors: a frame that could not be sent is a request that draws no reply.
- FakeDevice.Device.Respond: says nothing of a frame that is not a request of the builders or a value read, except what the value methods state.
- Strings on the wire are byte sequences (Latin-1, as the code reads them); a catalog's strings are taken as bytes too.
- Discovery.Disc.FetchStrsWire: requires that what arrives for an id is a chunk of one fixed text that ends within 1024 bytes, because on other buses the source's loop need not end.
- Discovery against devices that answer with other than their own schema: `Requests` and `Discovery` hold on any bus, the results about names and fields are against the fake device.
- Paths in `config.ini` are strings, the parser's path argument (used in messages only) is dropped, and the wording of the printed comments is arbitrary: the results hold for any comment and blank lines.
- Exact numbers: conversions and field values are reals, and rounding to single or double precision is not modelled; only field counts are, bit by bit.
- Settings.Parse: error messages are kinds with a line number, not text.
- SignalK.MakePlan: messages are kinds; a warning is the unit it is about.
- Identities.FetchIdentities: takes distinct devices, as its callers pass them; with one device twice its keys would collide.
- Machine integers are modelled where the source wraps, truncates or saturates them (chunk numbers, bytes, words, addresses, counts); overflow of 64-bit day numbers and of counters is not.
- Publishing.SeedMapping: takes records whose field ids differ, which is what merging menus makes (`Publishing.MergedAreFirst`).
- Option lists have at most 2^31 labels, so that an index fits the source's 32-bit integer.
- The model database and name heuristics: what they suggest for a field is an arbitrary function.
- Publishing.Resolve: says which diagnostics are given and how often, not in which order.
- `mapped_node`, `path_prefix`, notification values: each is settled by reading its body.
- The disk cache of menus, JSON, HTTP, the mapping file's reading and writing, and hardware detection.
- The scheduler, the value layer's cache, relay, reconnect and USB transports, the TUI and the C interface.
- Liveness.Walk: the event stream is a finite sequence, any prefix of a longer one.
