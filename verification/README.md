# Clipboard service: paste data, transport, service and telemetry

A Dafny model of the OpenHarmony pasteboard service. It covers three things end to end: the paste
data object with its wire codec, the service with its per-user clips and observers, and the
telemetry the service makes. Check the whole project with `dafny verify dfyconfig.toml`.

| file | what it holds |
|---|---|
| `Wrappers.dfy`, `Sequences.dfy` | the optional value; reversal and windows of sequences |
| `Parcel.dfy` | the IPC parcel: typed tokens with a read cursor |
| `PasteDataRecord.dfy` | records, their factories, and the record codec |
| `PasteDataModel.dfy` | contents of a paste data object, its mutators, and all runs of them |
| `PasteDataCodec.dfy` | the list codec and the transport theorems |
| `PasteData.dfy` | the paste data object, updated in place |
| `ConsumingTables.dfy`, `AppCounters.dfy` | the counter tables and the per-app counters, with their conservation laws |
| `MidnightTimer.dfy` | the daily flush timer |
| `HiViewAdapter.dfy` | the telemetry adapter object |
| `ServiceModel.dfy` | the service as a state machine, and all sequences of calls |
| `PasteboardService.dfy` | the service object, with observer sets on the heap |
| `Transport.dfy` | stub and proxy, and what a set followed by a get delivers |
| `LockProtocol.dfy`, `LockTheorems.dfy` | the two mutexes under every interleaving |

## How the code is modelled

- Objects the source updates in place are classes whose methods are proved against functions on
  values: `PasteData.Value`, `HiViewAdapter.Stats` and `Behaviour`, `PasteboardService.Abstract`.
  The theorems about all inputs and all runs are lemmas about those functions.
- A parcel is a sequence of tokens. What a read returns when the next token is of another kind is
  left to an arbitrary function (`Garble`); every decoding theorem holds for each such function.
  Assumed: writing never runs out of space, a parcelable travels behind a null marker, `Uri` and
  `Want` bodies are self-delimiting, and the 8 and 16 bit string conversions undo each other.
- The 32-bit truncation of the record count on the wire is modelled, and so is the 64-bit wrap of a
  time difference when the clock steps back. Counters are unbounded integers.
- User ids, bundle names, time stamps and clock readings are inputs of the calls.
- The order `std::sort` gives to apps with equal counts is left open: a flush is a labelled step that
  carries the slots reported, and the laws hold for each possible choice.
- In the interleaving model a thread's step is one lock operation, one access to a shared map or one
  observer callback. Schedules are arbitrary functions from turns to threads.

## Where the code departs from its documentation or evident intent

The model follows the code. Each departure is a proved result:

- `RemoveRecordAt` inserts a null slot; it meets the documented deletion exactly when there is nothing
  to delete (`RemovedRecordStays`, `RemoveRecordAtDeletesIff`). A getter called afterwards dereferences
  that null slot unless it finds its record in front of it (`RemoveRecordAtScanSafeIff`).
- The vector constructor leaves the MIME cache empty until the first effective mutator
  (`OneRecordVectorIsStale`, `VectorConstructorStaleness`).
- The interface documents the cached list of MIME types as free of repetitions. It has none exactly
  when no two records share a type (`TwoTextsRepeatTheirType`, `CacheRepeatFreeIff`).
- A record whose announced payload is null never arrives, with no parcel (`RecordRoundTripIff`,
  `IncompleteNeverArrives`), and depending on the parcel it can make the decoder misread what follows
  it (`TripFaithfulIff`).
- Paste measurements are counted in the copy table and shown as `COPY_STATE`, and the other way round
  (`CellConservation`, `LabelsTruthfulIff`, `TelemetryConservation`).
- The size and time classes use remainders where their names speak of sizes and times
  (`OneKilobyteIsMisplaced`, `RangeIsNamedOneIff`, `TimeLevelIsHalfSecondsIff`). One of the seven levels is never used
  (`SecondLevelStaysEmpty`).
- The fill loop of the top-ten report leaves its ten slots when more than ten apps were seen since the
  last flush (`ElevenAppsOverflow`, `FlushDefinedIff`). With the bound it lacks, the report would be
  right for any number of apps (`BoundedFillShowsTop`).
- A get measures the clip of the greatest user id that has one, which is the caller's own exactly when
  no greater user has a clip (`GetMeasuresOtherUsersClip`, `GetMeasuresGreatestHolder`,
  `GetMeasuresOwnClipIff`).

## Model

| member | source | states |
|---|---|---|
| PasteDataRecords.Record.Marshalling | framework/innerkits/src/paste_data_record.cpp:113-163 | The parcel grows by exactly the wire form of the record, and the call fails exactly for an unknown MIME type, after that type was written. |
| PasteDataRecords.UnmarshalRecord | framework/innerkits/src/paste_data_record.cpp:165-218 | The result and the cursor are those of the decoding function on the unread tokens, null results included. |
| PasteDataRecords.DecodedRecordIsCanonical | framework/innerkits/src/paste_data_record.cpp:165-204 | From any tokens, a decoded record has a known MIME type and only the payload that type announces. |
| PasteDataRecords.RecordRoundTripIff | framework/innerkits/src/paste_data_record.cpp:113-218 | Decoding an encoding followed by any tokens gives back the stripped record and leaves exactly those tokens, if and only if the announced payload is present. |
| PasteDataRecords.RecordEncodingIsPrefixFree | framework/innerkits/src/paste_data_record.cpp:113-163 | Two canonical records whose encodings start the same stream are equal, and so are the remainders. |
| PasteDataRecords.ConcatenationsDecodeUniquely | framework/innerkits/src/paste_data_record.cpp:113-163 | Two sequences of canonical records with equal concatenated encodings are equal. |
| PasteDataRecords.KnownTypesByName | framework/innerkits/src/paste_data_record.cpp:122-160 | The codec knows exactly four MIME types, by name, and a record of each is complete exactly when the payload of that type is there. |
| PasteDataRecords.FactoriesBuildTheirKind | framework/innerkits/src/paste_data_record.cpp:23-63 | Each factory gives the record of its type, by name, with its argument as the payload of that type and no other; text of 512000 characters or more gives null. |
| PasteDataRecords.TextOfRecord | framework/innerkits/src/paste_data_record.cpp:100-111 | Which payload a record's text is, for every combination. |
| PasteDataRecords.FactoriesKeepPayload | framework/innerkits/src/paste_data_record.cpp:23-63 | Text of 512000 characters or more is refused, anything else yields a canonical record that converts back to its text; a Want record built on null is incomplete. |
| PasteDatas.PasteData.RefreshMimeProp | framework/innerkits/src/paste_data.cpp:196-206 | Afterwards the cache lists the MIME types of the non-null records in order; the records are untouched. |
| PasteDatas.PasteData.AddRecord | framework/innerkits/src/paste_data.cpp:63-74 | The new contents are those of the add mutator: front insertion, one eviction past 128, refreshed cache, and nothing for null. |
| PasteDatas.PasteData.AddRecordCopy | framework/innerkits/src/paste_data.cpp:76-80 | The second overload has the same effect as adding the record. |
| PasteDatas.PasteData.ReplaceRecordAt | framework/innerkits/src/paste_data.cpp:165-174 | In range it replaces that slot, also by null, and refreshes the cache; out of range it changes nothing and says so. |
| PasteDatas.PasteData.RemoveRecordAt | framework/innerkits/src/paste_data.cpp:154-163 | In range it inserts a null slot in front of that index; out of range it changes nothing and says so. |
| PasteDataModel.ReplaceTouchesOneSlot | framework/innerkits/src/paste_data.cpp:165-174 | In range the slot holds the new record, null or not, and no other slot changes; out of range nothing does. |
| PasteDataModel.AddMovesOthersBack | framework/innerkits/src/paste_data.cpp:63-74 | On any list the record goes in front, the others move back by one, and a list of 128 or more keeps its length. |
| PasteDataModel.MimesInOrder | framework/innerkits/src/paste_data.cpp:82-89 | Without null slots the types listed are those of the records, one each, in order. |
| PasteDataModel.MimeCacheAgreement | framework/innerkits/src/paste_data.cpp:63-89 | From any contents and any mutators, the cache is in step with the records once one mutator took effect, and nothing has changed before that. |
| PasteDataModel.VectorConstructorStaleness | framework/innerkits/src/paste_data.cpp:31-36 | After the vector constructor and any mutators the cache is in step if and only if one took effect or there is no record to list. |
| PasteDataModel.OneRecordVectorIsStale | framework/innerkits/src/paste_data.cpp:31-36 | A vector of one record: the cache misses its type. |
| PasteDataModel.CacheRepeatFreeIff | framework/innerkits/src/paste_data.cpp:196-206 | After any mutators from an empty object the cached types are free of repetitions if and only if no two records share a type; after adds only, if and only if the types of the last 128 accepted records differ. |
| PasteDataModel.TwoTextsRepeatTheirType | framework/innerkits/src/paste_data.cpp:196-206 | Two text records: the cache lists their type twice. |
| PasteDataModel.HistoryRefinement | framework/innerkits/src/paste_data.cpp:43-80 | After any adds to an empty object the list is the first 128 entries of the reversed sequence of accepted records, with the cache in step. |
| PasteDataModel.HistorySlotBySlot | framework/innerkits/src/paste_data.cpp:43-80 | The same slot by slot, with the length of the list. |
| PasteDataModel.AddIsFoundByItsGetter | framework/innerkits/src/paste_data.cpp:43-80 | On any contents, the getter of its type, by name, finds the argument of an add next; an over-long or null one changes nothing. |
| PasteDataModel.GetterAnswersLastArgument | framework/innerkits/src/paste_data.cpp:43-129 | After any adds the getter of each type answers with the last argument added of that type among the last 128 accepted adds, and with nothing exactly when none of those is of that type. |
| PasteDataModel.PrimaryIsNewestSurvivor | framework/innerkits/src/paste_data.cpp:91-129 | After any adds, a primary getter finds the latest of the last 128 accepted records of its type, and nothing exactly when none of them has it; its precondition holds. |
| PasteDataModel.GettersCallable | framework/innerkits/src/paste_data.cpp:82-129 | After any adds and replacements by non-null records there is no null slot and the scan for every type is safe. |
| PasteDataModel.FirstOfKindCharacterised | framework/innerkits/src/paste_data.cpp:91-129 | The getters' scan finds a record of the type with none of that type before it, or there is none. |
| PasteDatas.PasteData.GetPrimaryHtml | framework/innerkits/src/paste_data.cpp:91-99 | The HTML payload of the first record of the HTML type, null when there is none; needs no null slot before it. |
| PasteDatas.PasteData.GetPrimaryWant | framework/innerkits/src/paste_data.cpp:101-109 | The same for Want. |
| PasteDatas.PasteData.GetPrimaryText | framework/innerkits/src/paste_data.cpp:111-119 | The same for plain text. |
| PasteDatas.PasteData.GetPrimaryUri | framework/innerkits/src/paste_data.cpp:121-129 | The same for Uri. |
| PasteDatas.PasteData.GetMimeTypes | framework/innerkits/src/paste_data.cpp:82-89 | Without null slots, the list that the cache holds when it is in step. |
| PasteDatas.PasteData.HasMimeType | framework/innerkits/src/paste_data.cpp:176-184 | True exactly when the type is in that list. |
| PasteDataModel.RemoveRecordAtDeletesIff | framework/innerkits/src/paste_data.cpp:154-163 | The result is a deletion if and only if the index is out of range; in range a null slot appears and no record or cached type goes. |
| PasteDataModel.RemovedRecordStays | framework/innerkits/src/paste_data.cpp:154-163 | One record and its removal: the record is still there, behind a null slot. |
| PasteDataModel.RemoveRecordAtScanSafeIff | framework/innerkits/src/paste_data.cpp:91-184 | After a removal in range a scan meets no null slot if and only if it finds its type in front of that index, safely. |
| PasteDatas.PasteData.Marshalling | framework/innerkits/src/paste_data.cpp:208-227 | Appends the 32-bit length and the slots front to back, and succeeds exactly when every non-null record has a known MIME type. |
| PasteDatas.PasteData.ReadFromParcel | framework/innerkits/src/paste_data.cpp:229-248 | The new contents and the cursor are those of the decoding function, for any unread tokens. |
| PasteDatas.PasteData.Unmarshalling | framework/innerkits/src/paste_data.cpp:250-262 | Always a fresh object with the decoded contents. |
| PasteDataCodec.EncodableByName | framework/innerkits/src/paste_data_record.cpp:113-163 | A list is refused only for a record whose MIME type is none of the four, by name. |
| PasteDataCodec.DecodedAlwaysWellFormed | framework/innerkits/src/paste_data.cpp:229-248 | From an arbitrary token stream: at most 128 records, none null, all canonical, cache in step, and every getter can be called. |
| PasteDataCodec.OneTrip | framework/innerkits/src/paste_data.cpp:208-248 | Decoding an encoded list yields its non-null records in reverse, canonical, the last 128 written; what lies beyond the 32-bit length stays unread. |
| PasteDataCodec.ReencodingReverses | framework/innerkits/src/paste_data.cpp:208-248 | Decode after encode after decode of any stream is the first decoding in reverse, and the tokens after it are left alone. |
| PasteDataCodec.TwoTrips | framework/innerkits/src/paste_data.cpp:208-248 | Two trips give the last 128 records in their original order: the reversals cancel and only the first trip cuts. |
| PasteDataCodec.TripFaithfulIff | framework/innerkits/src/paste_data.cpp:208-248 | A list of any size that encodes makes a faithful trip through every parcel and in front of every continuation if and only if none of the records sent lacks its payload. Faithful allows the cuts to the 32-bit length and to 128 records, and means that the continuation is left alone. |
| PasteDataCodec.IncompleteNeverArrives | framework/innerkits/src/paste_data.cpp:208-248 | With no parcel and in front of no continuation does a list arrive whose last 128 records sent include one without its payload. |
| PasteDataCodec.ShortTripFaithfulIff | framework/innerkits/src/paste_data.cpp:208-248 | For up to 128 records sent, and each parcel and continuation by itself, all of them arrive if and only if none lacks its payload, and then only what was not sent is left unread. |
| Transport.OnSetPasteData | services/zidl/src/pasteboard_service_stub.cpp:98-110 | Null data is refused and changes neither state nor telemetry; anything else is one Set with the decoded contents, with its telemetry. |
| Transport.OnGetPasteData | services/zidl/src/pasteboard_service_stub.cpp:73-88 | The reply holds the encoded clip of the user, and the status is success exactly when there is a clip that encodes; state and telemetry move as one Get in any case. |
| Transport.ProxySetPasteData | services/zidl/src/pasteboard_service_proxy.cpp:127-145 | Data that does not encode is not sent and changes neither state nor telemetry; otherwise the service makes one Set, with its telemetry, of what the stub decodes. |
| Transport.ProxyGetPasteData | services/zidl/src/pasteboard_service_proxy.cpp:147-169 | On success the caller's object becomes the decoded reply, on failure it keeps its contents; state and telemetry move as one Get. |
| Transport.ProxyHasPasteData | services/zidl/src/pasteboard_service_proxy.cpp:106-125 | The answer that arrives is whether the user has a clip. |
| Transport.GetDeliversStoredClip | services/zidl/src/pasteboard_service_stub.cpp:73-110 | After any calls whose sets came through the stub, a client receives data exactly when its user has a clip, and then that clip's records in reverse: encoding it never fails. |
| Transport.EndToEnd | services/zidl/src/pasteboard_service_proxy.cpp:127-169 | Whatever calls came before and after, as long as the user neither set nor cleared again, a get delivers the last 128 of the records sent, in original order and canonical form. |
| Transport.EveryRecordArrives | services/zidl/src/pasteboard_service_proxy.cpp:127-169 | Record by record: of fewer than 2^32 records that have the payload of their type, the last 128 are delivered in order, each with its type and that payload. |
| Transport.SetReportsFrontRecord | services/core/src/pasteboard_service.cpp:459-463 | A set reports state 0, the class of the text length of the first record sent that was not cut, and the class of the time from start to end in 64 bits. |
| Transport.MeasuredSizeIsOfFrontRecord | services/core/src/pasteboard_service.cpp:302-312 | The size measured from the service's last record is the text length of the first record the client sent that was not cut, and 0 for none. |
| PasteboardServices.PasteboardService.SetPasteData | services/core/src/pasteboard_service.cpp:190-209 | The state, the tables and the app counters move as one Set step, also when the user id did not resolve. |
| PasteboardServices.PasteboardService.GetPasteData | services/core/src/pasteboard_service.cpp:155-177 | The state and telemetry move as one Get step; the object becomes a copy of the clip, or is untouched and the result is false. |
| PasteboardServices.PasteboardService.HasPasteData | services/core/src/pasteboard_service.cpp:179-188 | True exactly when a get would succeed. |
| PasteboardServices.PasteboardService.ClearClip | services/core/src/pasteboard_service.cpp:140-153 | One Clear step: a round is made only when a clip was removed. |
| PasteboardServices.PasteboardService.AddPasteboardChangedObserver | services/core/src/pasteboard_service.cpp:221-246 | The in-place insert into the user's set object, or into a new one, is the abstract add: no other user's registrations change. |
| PasteboardServices.PasteboardService.RemovePasteboardChangedObserver | services/core/src/pasteboard_service.cpp:247-272 | The in-place erase is the abstract remove: no other user's registrations change. |
| PasteboardServices.PasteboardService.RemoveAllChangedObserver | services/core/src/pasteboard_service.cpp:274-288 | Exactly the user's own registrations go. |
| PasteboardServices.PasteboardService.NotifyObservers | services/core/src/pasteboard_service.cpp:290-300 | The nested loop calls every registration exactly once, by user and then by remote object. |
| ServiceModel.RoundIsUnique | services/core/src/pasteboard_service.cpp:290-300 | There is one round for given registrations: two strictly ordered lists of the same registrations are equal. |
| ServiceModel.RoundCallsEachOnce | services/core/src/pasteboard_service.cpp:290-300 | A round holds exactly the registered remote objects of each user, none twice, by user and then by remote object. |
| PasteboardServices.OneMoreCall | services/core/src/pasteboard_service.cpp:140-288 | The step that each service method makes on state and adapter extends the history by that call, so the laws over all histories are laws of the object. |
| ServiceModel.TraceRefinement | services/core/src/pasteboard_service.cpp:140-219 | After any calls by any users, a user's clip is the data of its latest set unless it cleared later, and -1 is never a key of either map. |
| ServiceModel.OthersNeverChangeClip | services/core/src/pasteboard_service.cpp:140-209 | Erasing from a history everything but a user's own sets and clears changes none of its answers. |
| ServiceModel.RegistrationsFollowHistory | services/core/src/pasteboard_service.cpp:221-288 | After any calls, exactly the remote objects added and not removed since are registered, each with the first proxy added for it. |
| ServiceModel.AddThenRemoveRestores | services/core/src/pasteboard_service.cpp:221-272 | Adding a new observer and removing it restores the registration relation; a second add of the same remote object does nothing. |
| ServiceModel.RoundsFollowUpdates | services/core/src/pasteboard_service.cpp:140-153 | Over any calls there is one round for each effective set and each clear that removed a clip, in order, calling the registrations of that moment; no other call makes one. |
| PasteboardServices.PasteboardService.SetPasteboardHistory | services/core/src/pasteboard_service.cpp:329-346 | Pushes the formatted entry on the ring, dropping the oldest of ten. |
| ServiceModel.RingHoldsLastTen | services/core/src/pasteboard_service.cpp:329-346 | After any calls the ring is exactly the last ten Set and Get entries in call order; an entry is the time stamp, the app looked up or the default, and the action. |
| ServiceModel.RingEntries | services/core/src/pasteboard_service.cpp:329-346 | The same, entry by entry, with the ring's length. |
| PasteboardServices.PasteboardService.DumpHistory | services/core/src/pasteboard_service.cpp:390-404 | Renders the ring newest entry first, or the failure line when it is empty. |
| PasteboardServices.DumpShowsNewestFirst | services/core/src/pasteboard_service.cpp:390-404 | One more entry gets the first line under the header, the lines of the others follow as they were; one entry makes one line and none the failure line. |
| PasteboardServices.CalculateTimeConsuming.Finish | services/dfx/src/calculate_time_consuming.cpp:35-41 | Reports the state and data class taken at construction with the class of the 64-bit time difference. |
| ServiceModel.TelemetryConservation | services/core/src/pasteboard_service.cpp:441-489 | Over any calls and flushes, counts pending and emitted as PasteState are the sets, and as CopyState the gets made while some clip existed: no report is lost, and the labels are swapped. |
| ServiceModel.CellsCountMeasuredCalls | services/core/src/pasteboard_service.cpp:441-489 | Over any calls and flushes, pending plus emitted of a cell is, under PasteState, the number of sets whose measured size and time fall in it, and under CopyState the number of gets, measured on the clip of the greatest user that has one. |
| ServiceModel.LastClipIsOwnIff | services/core/src/pasteboard_service.cpp:482-488 | Whatever the clips hold, the measured one is a given user's own if and only if no greater user has one. |
| ServiceModel.GetMeasuresGreatestHolder | services/core/src/pasteboard_service.cpp:466-489 | After any calls a get of any caller, with or without a clip or user id, measures the clip of the greatest user that has one, and nothing exactly when nobody has. |
| ServiceModel.GetMeasuresOwnClipIff | services/core/src/pasteboard_service.cpp:466-489 | After any calls, a user with a clip has it measured in every history with the same holders if and only if no greater user has a clip. |
| ServiceModel.GetMeasuresOtherUsersClip | services/core/src/pasteboard_service.cpp:466-489 | Two users set and the lower one gets: the other's clip is measured. |
| ServiceModel.SecondLevelStaysEmpty | services/dfx/src/calculate_time_consuming.cpp:43-76 | Over any calls, every cell of the level HUNDRED_TO_FIVE_HUNDREDS_KB adds up to zero. |
| ServiceModel.BehaviourConservation | services/dfx/src/hiview_adapter.cpp:221-243 | Over any run whose flushes are defined, stored and reported app counts add up to all Set and Get calls. |
| ServiceModel.AppBehaviourConservation | services/dfx/src/hiview_adapter.cpp:221-243 | The same for each kind of call and each app separately, where an app is the name looked up for the caller or the default when the lookup failed. |
| ConsumingTables.MeasuredLevelsKnown | services/dfx/src/calculate_time_consuming.cpp:43-106 | Every class computed is a key of its map, the second data class never occurs, and the first occurs exactly for size 0. |
| ConsumingTables.DataClassOfEverySize | services/dfx/src/calculate_time_consuming.cpp:43-76 | For every size, which remainder by 1024 gives which class. |
| ConsumingTables.TimeClassOfEveryTime | services/dfx/src/calculate_time_consuming.cpp:78-106 | For every time, the class is the remainder by 500 up to nine, and ten for all others. |
| ConsumingTables.MeasuredFields | services/dfx/src/calculate_time_consuming.cpp:27-41 | A measurement keeps its state and classifies the size and the time from start to end, wrapped in 64 bits when the clock stepped back. |
| ConsumingTables.LevelNames | services/dfx/src/hiview_adapter.cpp:245-274 | The seven level names. |
| ConsumingTables.RangeIsNamedOneIff | services/dfx/src/calculate_time_consuming.cpp:43-76 | The data class is the one whose name covers the size exactly for the listed sizes; below 500 KB, exactly for size 0. |
| ConsumingTables.OneKilobyteIsMisplaced | services/dfx/src/calculate_time_consuming.cpp:43-76 | 1 KB is classified as 500 to 1000 KB. |
| ConsumingTables.TimeLevelIsHalfSecondsIff | services/dfx/src/calculate_time_consuming.cpp:78-106 | The time class counts whole half seconds exactly when quotient and remainder by 500 agree, or both are ten or more. |
| ConsumingTables.TableStep | services/dfx/src/hiview_adapter.cpp:112-199 | Every report and every flush keeps each table empty or seven rows with keys 0 to 10 and no negative count. |
| ConsumingTables.ReportCountsOneCell | services/dfx/src/hiview_adapter.cpp:141-219 | A report adds one to the cell of its levels in the table of the other state, and changes no other cell. |
| ConsumingTables.FlushEmitsSevenRows | services/dfx/src/hiview_adapter.cpp:276-305 | After any run a flush emits seven rows for each non-empty table, and the tables are empty or non-empty together. |
| ConsumingTables.FlushRowByRow | services/dfx/src/hiview_adapter.cpp:276-305 | A flush emits the copy rows as CopyState and then the paste rows as PasteState, level by level with their eleven counts, and empties both tables. |
| ConsumingTables.CellConservation | services/dfx/src/hiview_adapter.cpp:141-305 | Over any reports and flushes, pending plus emitted in each cell under CopyState is the number of paste reports for it, and under PasteState of copy reports. |
| ConsumingTables.LabelsTruthfulIff | services/dfx/src/hiview_adapter.cpp:151-163 | After a flush the labels show the right counts of a cell if and only if as many copies as pastes were reported for it. |
| ConsumingTables.CopyShowsAsPaste | services/dfx/src/hiview_adapter.cpp:151-163 | One copy report and a flush: it shows under the paste label and not under the copy label. |
| HiViewAdapters.HiViewAdapter.InitializeTimeConsuming | services/dfx/src/hiview_adapter.cpp:112-139 | Appends seven zero rows to the chosen table and leaves the other alone. |
| HiViewAdapters.HiViewAdapter.ReportTimeConsumingStatistic | services/dfx/src/hiview_adapter.cpp:141-171 | The tables move as one report step, for valid and invalid states and levels. |
| HiViewAdapters.HiViewAdapter.ReportStatisticEvent | services/dfx/src/hiview_adapter.cpp:285-305 | Writes one event for each row with its eleven cells; no key is missing. |
| HiViewAdapters.HiViewAdapter.InvokeTimeConsuming | services/dfx/src/hiview_adapter.cpp:276-283 | Emits the copy table, then the paste table, and empties both. |
| HiViewAdapters.HiViewAdapter.ReportPasteboardBehaviour | services/dfx/src/hiview_adapter.cpp:221-243 | Adds one to the app in the map of its state, and nothing for another state. |
| HiViewAdapters.SortByCount | services/dfx/src/hiview_adapter.cpp:317-321 | The same apps and counts in non-increasing order. |
| HiViewAdapters.FillSlots | services/dfx/src/hiview_adapter.cpp:323-333 | The sorted apps and then defaults, defined exactly for at most ten apps. |
| HiViewAdapters.HiViewAdapter.ReportBehaviour | services/dfx/src/hiview_adapter.cpp:307-356 | Reports a top ten of the map and clears it, leaves an empty map alone, and is defined exactly for at most ten apps. |
| HiViewAdapters.HiViewAdapter.InvokePasteBoardBehaviour | services/dfx/src/hiview_adapter.cpp:358-371 | Both reports as one allowed flush step, defined exactly when neither map has more than ten apps. |
| AppCounters.FlushDefinedIff | services/dfx/src/hiview_adapter.cpp:307-371 | After any run a flush is defined if and only if at most ten different apps copied and at most ten pasted since the last one. |
| AppCounters.ElevenAppsOverflow | services/dfx/src/hiview_adapter.cpp:328-333 | Ten apps that copied can be flushed, eleven cannot. |
| AppCounters.TopTenInOrder | services/dfx/src/hiview_adapter.cpp:307-353 | A report has ten slots: distinct apps with their counts in non-increasing order, then defaults. |
| AppCounters.BoundedFillShowsTop | services/dfx/src/hiview_adapter.cpp:307-353 | With the fill bounded at ten, for any number of apps: distinct apps with their counts in non-increasing order, none left out with a larger count than one shown, and the same report where the code's loop is defined. |
| AppCounters.ReportShowsCounts | services/dfx/src/hiview_adapter.cpp:313-333 | A report shows exactly the apps of the map, each once with its count. |
| AppCounters.StoredCountsAreRecentNotes | services/dfx/src/hiview_adapter.cpp:221-243 | At every point a stored count is positive and is the number of notes of that app since the last flush. |
| AppCounters.AppConservation | services/dfx/src/hiview_adapter.cpp:221-371 | Over any run of allowed steps, stored plus reported counts of an app are its notes, for each kind. |
| MidnightTimer.SleepEndsAtMidnight | services/dfx/src/hiview_adapter.cpp:394-412 | Both branches sleep 86400 - 3600 hour - 60 minute seconds, between 60 and 86400, to the next midnight plus the current second. |
| MidnightTimer.TimerLoop | services/dfx/src/hiview_adapter.cpp:381-418 | The loop, run over any behaviour of its environment, flushes at the times of the specification. |
| MidnightTimer.RoundByRound | services/dfx/src/hiview_adapter.cpp:381-418 | A failed clock read delays the next round by an hour; a flush starts at the second of the next midnight plus the wake-up delay, and the next round when it is over. |
| MidnightTimer.FlushesAsOftenAsFlushRounds | services/dfx/src/hiview_adapter.cpp:381-418 | There are as many flushes as rounds that read the clock. |
| MidnightTimer.FlushesFollowMidnight | services/dfx/src/hiview_adapter.cpp:381-418 | Over every run, also with failed clock reads, each flush starts less than 60 seconds plus the delay bound after a midnight, in a later day than the flush before. |
| MidnightTimer.OneFlushPerDay | services/dfx/src/hiview_adapter.cpp:381-418 | While the clock can be read, every day after the start has exactly one flush. |
| LockProtocol.StepKeepsInvariant | services/core/src/pasteboard_service.cpp:140-300 | Every step of every thread keeps locks, log, simulation of the plain maps and callback order consistent. |
| LockTheorems.MutualExclusion | services/core/src/pasteboard_service.cpp:140-300 | Under no schedule are two threads between taking and releasing the same mutex. |
| LockTheorems.BlockedOnlyByTakenLock | services/core/src/pasteboard_service.cpp:140-300 | A thread that has not returned is blocked exactly when it waits for a mutex that is taken. |
| LockTheorems.Linearizable | services/core/src/pasteboard_service.cpp:140-300 | In every reachable state the log replays as atomic calls on plain maps, gives the maps when no lock is held, and holds each returned call exactly once with its result, if its user id is not -1 and its observer, should it take one, is not null; any other call returned nothing or false. |
| LockTheorems.RealTimeOrder | services/core/src/pasteboard_service.cpp:140-300 | A call that returned before another started precedes it in the log. |
| LockTheorems.ReplayIsSequentialRun | services/core/src/pasteboard_service.cpp:140-300 | The replayed log leaves the clips and registrations of the sequential service on the same calls. |
| LockTheorems.ConcurrentGetReadsLatestSet | services/core/src/pasteboard_service.cpp:155-209 | Under every interleaving a returned get answers from its user's latest set or clear in the log before it. |
| LockTheorems.ConcurrentHasReadsLatestSet | services/core/src/pasteboard_service.cpp:179-188 | A returned has answers whether that latest one is a set. |
| LockTheorems.MapsFollowLog | services/core/src/pasteboard_service.cpp:140-288 | With the locks free, each user's clip and registrations are what the entries of the log say: latest set or clear, added and not removed since. |
| LockTheorems.RoundsFollowTheirUpdate | services/core/src/pasteboard_service.cpp:190-300 | A finished round belongs to an update of its own thread with no clip call and no round in between, and called each registration there was exactly once. |
| LockTheorems.RoundCallsWhoIsRegistered | services/core/src/pasteboard_service.cpp:290-300 | A finished round calls exactly who was added and not removed in the log before its end, nobody twice, by user and then by remote object. |
| LockTheorems.RoundsWereMade | services/core/src/pasteboard_service.cpp:290-300 | The callbacks of each finished round were made by its thread, together and in order, after those of the rounds before; besides there are only those of the round in progress. |
| LockTheorems.EveryUpdateGetsItsRound | services/core/src/pasteboard_service.cpp:140-209 | Each set in effect, and each clear that removed a clip, whose call has returned has exactly one round, and it came after. |
| LockTheorems.CallbacksComeInRounds | services/core/src/pasteboard_service.cpp:290-300 | In every reachable state the callbacks made are whole rounds one after the other, then an initial part of the one in progress. |
| LockTheorems.NoDeadlock | services/core/src/pasteboard_service.cpp:140-300 | While some call has not returned, some thread can move. |
| LockTheorems.EveryCallReturns | services/core/src/pasteboard_service.cpp:140-300 | Under every fair schedule, where each thread gets turns again and again and turns of a blocked thread are lost, all calls return. |
| LockTheorems.RotationIsFair | services/core/src/pasteboard_service.cpp:140-300 | Turns in rotation are such a schedule, for any calls. |
| LockTheorems.WastelessScheduleFinishes | services/core/src/pasteboard_service.cpp:140-300 | Any schedule that gives no turn to a blocked thread lets all calls return. |
| LockTheorems.CallsCanReturn | services/core/src/pasteboard_service.cpp:140-300 | A schedule that gives no turn to a blocked thread exists for any calls. |

## Left out

- Parcel internals: bytes, alignment, capacity and ownership; the parcel class is not part of this model.
- Identity of record objects: records never change once built, so copies of a paste data object that share them are modelled by value.
- Shared pointers to clips: `clips_` holds fresh copies that nobody updates, so a clip is a value in the map.
- Properties other than `mimeTypes` (tag, additions, timestamp, localOnly): neither the codec nor the service uses them; `GetProperty` returns an empty struct.
- `GetRecordAt`, `GetRecordCount`, `GetTag`, `AllRecords` and `GetPrimaryMimeType`: plain reads that would add only easy members.
- Failing parcel writes and IPC sends, interface tokens, call codes, permissions, and the account and bundle lookups behind user id and bundle name.
- Observer callbacks that block, throw or call back into the service: they are assumed to return.
- Accesses the source makes without a lock (`GetPasteDataDot` reading `clips_`, the access history, `DunmpData`): modelled one call at a time only, so the interleaving model has no telemetry and no history.
- `DunmpData` and `Dump`: formatting of the dump commands; service start and stop, retry of `Init`, the storage stub.
- The adapter's own mutexes and the `running_` guard of the timer thread: each adapter method runs alone here.
- Undefined behaviour after the eleventh app: the model stops at the out-of-range write and says nothing about what follows; conservation of app counts is stated for runs without it.
- `HiSysEvent::Write` and the text of events: an event is its label, level name and numbers, or its slots; `ReportInitializationFault` and the log lines.
- The timer's local time conversions, clock changes and early wake-ups from sleep.
- The JavaScript interface, the client's connection and death handling, and `pasteboard_storage.cpp`, which the build does not include.
- Finer steps inside one critical section: finding a user's observer set and erasing from it, or finding and reading a clip, are one step of the interleaving model.
