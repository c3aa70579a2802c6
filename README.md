# pymcws in Dafny

A model of pymcws, the Python client for MCWS, the web service of JRiver Media Center.
It covers the following parts:

- **The access key.** A `MediaServer` resolves an access key into a working address. It
  first probes the local IPs, then asks JRiver's lookup service for the key's data, then
  probes the remote IP. It remembers the connection strategy it found (`local`, `remote`,
  `unknown`). `send_request` makes one attempt, and after an HTTP error a refresh and one
  more attempt.
- **Response decoding.** MCWS answers in flat XML. The client turns these replies into
  dicts (unstructured replies), lists (list replies), a header followed by groups of
  entries (semistructured replies such as `Library/List`), and files (MPL replies).
- **The field table.** For every library field it chooses a Decoder/Encoder pair from the
  field's data type, so that tags are converted to Python values and back.
- **Media files.** A `MediaFile` is a dict that remembers which keys were changed since it
  was loaded. `File/SetInfo` writes back exactly the changed fields.
- **The API calls.** Playback commands and zones, mute/repeat/shuffle, playlists, library
  lists, values, and the query and play recipes built on `Files/Search`, with escaping of
  query fragments.

How the model is built:

- The network is a parameter: a `Network` value of three functions. One gives the status a
  probe gets. One gives the lookup service's answer for a key. One gives the reply to a
  request.
- Each server operation is a pure step function (`RefreshOf`, `SendOf`, ...). It returns
  the result, the new connection state and the traffic it caused.
- The `MediaServer` class has one method per source method. Each method is proved to
  update its fields and its ghost traffic log exactly as its step function says.
- XML arrives already parsed as a sequence of `Element`s.
- A Python dict is an insertion-ordered sequence of pairs (module `Dicts`).
- Python exceptions are the `Failure` values of an `Outcome`.

## Model

| member | source | states |
|---|---|---|
| MediaServers.MediaServer.constructor | pymcws/media_server.py:20-40 | The new server has strategy `local` with IP 127.0.0.1 and port 52199 for the key "localhost", its local IP list being the characters of "127.0.0.1" as the source assigns it (see Findings). Any other key gives strategy `unknown` with no address data. It has no field cache and has caused no traffic. |
| MediaServers.MediaServer.Credentials | pymcws/media_server.py:57-64 | There are credentials exactly when both user and password are given, and then they are that pair. |
| MediaServers.InitialAddress | pymcws/media_server.py:120-139 | Every freshly built server state, as written or with the loopback list corrected, is valid. A "localhost" server's address is `http://127.0.0.1:52199/MCWS/v1/` either way; any other key has no address until a refresh. |
| MediaServers.Endpoint | pymcws/media_server.py:232 | An endpoint is the address followed by the extension when the address is known. A None address raises TypeError (None + str), and an address error is passed on. |
| MediaServers.AddressByStrategy | pymcws/media_server.py:120-149 | In a valid state, `local` gives URL_API filled with the local IP and port, `remote` the same with the remote IP, and `unknown` gives None. |
| MediaServers.ProbeResult | pymcws/media_server.py:151-162 | With a port known, `test_local` returns true exactly when some candidate IP answers `Alive` with status 200. |
| MediaServers.ProbeOrder | pymcws/media_server.py:151-162 | Candidates are probed in list order, one `<address>Alive` GET each. `local_ip` is left at the last one probed. |
| MediaServers.ProbeStopsAtFirst | pymcws/media_server.py:151-162 | Probing stops at the first live candidate. Every earlier one was dead, and false is returned only after all candidates were probed. |
| MediaServers.ProbeUnaddressable | pymcws/media_server.py:151-162 | Without a port the first candidate raises before any probe: AttributeError if the port was never assigned, TypeError if it is None. |
| MediaServers.ProbeTraffic | pymcws/media_server.py:151-162 | `test_local` only probes and changes nothing but `local_ip`. On success the local IP and the port are known. |
| MediaServers.CharacterProbes | pymcws/media_server.py:151-155 | When the candidate list is the characters of an address, each character is probed as an IP, and the address itself never is. |
| MediaServers.LocalhostProbesCharacters | pymcws/media_server.py:36-40 | As written, a "localhost" server probes `http://1:52199/MCWS/v1/Alive` first and never its own address. |
| MediaServers.LocalhostProbesLoopback | pymcws/media_server.py:36-40 | With the list corrected to ["127.0.0.1"], a "localhost" server probes exactly its own address once. It is alive exactly when that probe gets 200, and its state is unchanged. |
| MediaServers.UpdateEffect | pymcws/media_server.py:174-198 | There is one lookup of the current key. A rejection raises UnresolvableKeyError with that key and the `msg` text, and leaves the state unchanged. A full answer stores the key, the port, the local IP list split at ',' and the remote IP. The strategy and the local IP are never touched. |
| MediaServers.RefreshFromLookupStrategy | pymcws/media_server.py:92-118 | Steps 2-5 return true exactly after setting the strategy to `local` or `remote`. Otherwise the strategy stays as it was. |
| MediaServers.RefreshFromLookupValid | pymcws/media_server.py:92-118 | Steps 2-5 keep a valid connection state valid. |
| MediaServers.RefreshFromLookupTraffic | pymcws/media_server.py:92-118 | Steps 2-5 cause only probes and at most one lookup of the current key. That lookup comes first, and happens exactly when the strategy is `unknown` or `unreachable`. |
| MediaServers.RefreshOutcome | pymcws/media_server.py:66-118 | `refresh` returns true exactly when it has just set `local` or `remote`. On false the strategy is the one step 1 left. `unreachable` is never stored, no request is sent, and a valid state stays valid. |
| MediaServers.RefreshLookup | pymcws/media_server.py:66-118 | The key is looked up only when step 1 leaves `unknown` or `unreachable`, and then first. A working `local` strategy returns true with no lookup. |
| MediaServers.DeliverTraffic | pymcws/media_server.py:232-243 | Delivering sends at most one request, as the last event, with the given parameters. A returned reply is that request's reply. |
| MediaServers.AttemptTraffic | pymcws/media_server.py:222-243 | An attempt sends at most one request, with the given parameters, as its last event. Its outcome is that request's reply, raising only on status 404 (and ConnectionFailed when requests raised). |
| MediaServers.AttemptKeepsValid | pymcws/media_server.py:222-243 | An attempt keeps the state valid. Under a known strategy it refreshes nothing and sends exactly `address + extension`. |
| MediaServers.NoneStrippedExact | pymcws/media_server.py:204-208 | The stripped payload holds exactly the entries whose value is not None. A key that held None is absent from it, and every other key keeps its value. |
| MediaServers.StripNone | pymcws/media_server.py:204-208 | The popping loop leaves exactly the payload stripped of None values. |
| MediaServers.RetryTraffic | pymcws/media_server.py:216-220 | The retry (a refresh, then a second attempt) sends at most one request and replies only from it. |
| MediaServers.SendTraffic | pymcws/media_server.py:200-220 | `send_request` sends at most two requests, each with the payload stripped of None. It sends a second one only after the first got status 404, and then the result is the second one's reply. A first request not answered with 404 is the only one and its reply is the result. |
| MediaServers.SendRetries | pymcws/media_server.py:210-220 | After an HTTPError on the first attempt, `send_request` always refreshes next. A failing refresh is the result. Otherwise, with an address known, exactly one more request follows the refresh's traffic, and its reply is the result. Any other first outcome is the result, with nothing sent after it. |
| MediaServers.SendKeepsValid | pymcws/media_server.py:200-220 | `send_request` keeps the connection state valid. |
| MediaServers.MediaServer.TestLocal | pymcws/media_server.py:151-162 | The loop over the candidates sets `local_ip`, returns and logs exactly what `TestLocalOf` describes. |
| MediaServers.MediaServer.TestRemote | pymcws/media_server.py:164-172 | One probe of the remote address, as `TestRemoteOf` describes. The state is unchanged. |
| MediaServers.MediaServer.UpdateFromJRiver | pymcws/media_server.py:174-198 | Fields, result and log are as `UpdateOf` describes. |
| MediaServers.MediaServer.RefreshFromStepTwo | pymcws/media_server.py:92-118 | Steps 2-5 of `refresh` on the fields, as `RefreshFromLookup` describes. |
| MediaServers.MediaServer.Refresh | pymcws/media_server.py:66-118 | `refresh` on the fields, as `RefreshOf` describes. |
| MediaServers.MediaServer.AttemptRequest | pymcws/media_server.py:222-243 | `attempt_request` on the fields, as `AttemptOf` describes. |
| MediaServers.MediaServer.SendRequest | pymcws/media_server.py:200-220 | `send_request` on the fields, as `SendOf` describes. |
| MediaServers.MediaServer.Fields | pymcws/media_server.py:42-52 | A cached table is returned with no traffic. Otherwise `Library/Fields` is sent, the reply is turned into the table, and a table that was built is cached. |
| Model.IdentifierTypeNamesIdentifier | pymcws/model.py:23-55 | `best_identifier_type` names the selector whose value `best_identifier` returns: the id if set, else the name, else the index. There is no type exactly when there is no identifier. |
| Model.Initial | pymcws/model.py:79-84 | A new file has a change flag for exactly its keys. |
| Model.InitialUnchanged | pymcws/model.py:79-84 | A new file reports no changed fields. |
| Model.AssignEffect | pymcws/model.py:86-89 | Assigning a value that differs (`PyEq`, Python `!=` up to floats and datetimes compared by text) from `get(key, None)` stores it and flags the key. An equal value changes nothing. |
| Model.AssignTracked | pymcws/model.py:86-89 | Assignment keeps a change flag for exactly the keys of the dict. |
| Model.DeleteForgets | pymcws/model.py:91-93 | Deletion fails with KeyError exactly when the key is absent. Otherwise it drops the key and its flag and leaves the other keys alone. |
| Model.DeleteTracked | pymcws/model.py:91-93 | Deletion keeps a change flag for exactly the keys of the dict. |
| Model.ChangedFieldsExact | pymcws/model.py:95-99 | `changed_fields` holds exactly the current values of the flagged keys, in the dict's order. |
| Model.ChangedStaysChanged | pymcws/model.py:86-89 | Once flagged, a key stays flagged and in `changed_fields` under any assignments until it is deleted, even when its original value is restored. |
| Model.NameScenario | pymcws/model.py:86-99 | Worked example. Re-assigning the loaded value flags nothing, a new value flags the key, restoring the old value keeps the flag, and deleting the key clears it. |
| Model.MediaFile.constructor | pymcws/model.py:73-84 | The new object holds the initial fields, none of them flagged. |
| Model.MediaFile.Item | pymcws/model.py:61 | `file[key]` succeeds exactly for a present key and returns its value. |
| Model.MediaFile.SetItem | pymcws/model.py:86-89 | `file[key] = val` updates the object as `Assign` describes and keeps its flags in step with its keys. |
| Model.MediaFile.DelItem | pymcws/model.py:91-93 | `del file[key]` updates the object as `Delete` describes, and on KeyError leaves it unchanged. |
| Model.MediaFile.ChangedFields | pymcws/model.py:95-99 | The result holds exactly the pairs of flagged keys with their current values. |
| Model.TransformPath | pymcws/model.py:102-117 | The list comes back exactly as passed in, because the loop rewrites only a local copy. |
| Dates.ParseJRiverDate | pymcws/utils.py:116-125 | None stays None. A text has every ',' turned into '.' and every other character kept. It becomes that day count after 1899-12-30 exactly when `float()` accepts the result, and raises ValueError otherwise. |
| Dates.DecimalCommaDate | pymcws/utils.py:120-125 | Digits, a decimal comma and digits give the day count written with a point. |
| Dates.WordIsNoDate | pymcws/utils.py:120-122 | A word such as "abc" raises ValueError instead of giving a date. |
| Dates.SerializeJRiverDate | pymcws/utils.py:128-134 | None stays None. A datetime is not rendered (see Left out). |
| FieldCodecs.Describe | pymcws/api/library.py:89-96 | A field element is described exactly when it has `Name`, `DataType` and `EditType` attributes. |
| FieldCodecs.TextRoundTrip | pymcws/api/library.py:102-109 | A text field sends back, in quotes, exactly the text it was read as. |
| FieldCodecs.ListRoundTrip | pymcws/api/library.py:119-121 | A list field splits at ';' and joins again, so its text comes back in quotes. |
| FieldCodecs.ListItemsRoundTrip | pymcws/api/library.py:119-121 | A non-empty list of items without ';' survives encoding followed by decoding. |
| FieldCodecs.IntegerRoundTrip | pymcws/api/library.py:110-112 | An integer field decodes `str(i)` to `i` and encodes `i` as `str(i)`. |
| FieldCodecs.IntegerRejects | pymcws/api/library.py:110-112 | An integer field raises ValueError exactly on text `int()` rejects, and TypeError on an empty tag. |
| FieldCodecs.DecimalDecodes | pymcws/api/library.py:122-123 | A `Decimal`, `Percentage` or `Time` field reads its text with every ',' turned into '.', exactly when `float()` accepts that. Otherwise it raises ValueError, and an empty tag raises AttributeError. |
| FieldCodecs.DecimalReadsIntegers | pymcws/api/library.py:122-123 | The text of every integer is read by a decimal field, unchanged. |
| Strings.IntTextIsFloatText | pymcws/api/library.py:122-123 | Every text `int()` accepts is accepted by `float()`. |
| Strings.FloatTextRejects | pymcws/utils.py:121-122 | `float()` rejects "1,5", "abc" and ".", which is why the decimal comma is replaced first. |
| Strings.ExponentFloatText | pymcws/api/library.py:122-123 | A decimal followed by 'e' and an integer is a `float()` text. |
| Strings.DigitsDecimalText | pymcws/utils.py:121-122 | Digits, a '.' and digits make a `float()` text. |
| FieldCodecs.IdentityRoundTrip | pymcws/api/library.py:125-134 | A field of an unknown data type passes values through unchanged in both directions. |
| FieldCodecs.BuildFieldTable | pymcws/api/library.py:57-135 | `fields` on the reply is its HTTPError, or the table of the synthetic entries updated by each reported field in order. |
| FieldCodecs.FieldTableContents | pymcws/api/library.py:72-100 | `Key` and `Date (readable)` are always present. Every other entry is a reported field, described by its last element. A synthetic field that is not reported keeps its built-in entry. |
| Utils.TransformUnstructuredResponse | pymcws/utils.py:45-59 | Gives the dict of each child's Name to its text, with the integer cast when asked. |
| Utils.NamedTextsFails | pymcws/utils.py:51-52 | Decoding fails, with KeyError "Name", exactly when some child has no Name attribute. |
| Utils.NamedTextsContents | pymcws/utils.py:49-52 | The keys are the names that occur, without duplicates, and a later element with the same name overwrites an earlier one. |
| Utils.UnstructuredLastText | pymcws/utils.py:45-59 | Reading a name back gives the text of the last element with that name, cast to int where `try_int_cast` asks and `int()` accepts it. |
| Utils.CastIntsInPlace | pymcws/utils.py:53-58 | The cast loop gives exactly the pointwise cast of the dict. |
| Utils.CastIntsExact | pymcws/utils.py:53-58 | The cast succeeds exactly when no value raises anything but ValueError. Every accepted value becomes its integer and the rest stay as they were, under the same keys. |
| Utils.CastIntOnTexts | pymcws/utils.py:55-58 | An integer text becomes that integer, other text is kept, and None raises TypeError. |
| Utils.TransformListResponse | pymcws/utils.py:62-68 | The result is the text of every child, in order. |
| Utils.Chunks | pymcws/utils.py:32 | The chunks are non-empty, of `size` pairs except possibly the last, and together are the items. |
| Utils.ChunkCount | pymcws/utils.py:32 | There are ceil(n / size) chunks. |
| Utils.TransformSemistructuredResponse | pymcws/utils.py:10-42 | The decoder's loops give exactly the header dict followed by one dict per chunk. The group counter is as written, or advanced per chunk. |
| Utils.BuildHeader | pymcws/utils.py:26-29 | The header loop puts the first pairs into a dict, in order. |
| Utils.BuildGroups | pymcws/utils.py:33-41 | The chunk loop makes one group dict per chunk, in order, each cut by its chunk's tag. |
| Utils.BuildGroup | pymcws/utils.py:35-41 | The inner loop builds the dict of one chunk with its group keys stripped. |
| Utils.SemistructuredShape | pymcws/utils.py:24-42 | A step of 0 fails. Otherwise element 0 is the header of the first pairs, and one more element follows per chunk of the rest. |
| Utils.GroupSize | pymcws/utils.py:35-40 | A chunk whose stripped keys are distinct gives a dict of the chunk's size. |
| Utils.LibraryListShape | pymcws/api/library.py:26 | With a header of 2, prefix "Library" and groups of 3, eight entries give a header of 2 keys and two groups of 3 keys. |
| Utils.AsWrittenStripsOneCharacter | pymcws/utils.py:33-37 | As written, every group key loses exactly its first len(prefix) + 1 characters, whatever the chunk. |
| Utils.AgreesUpToTenGroups | pymcws/utils.py:33-41 | With at most ten groups, the decoder as written and the corrected one agree. |
| Utils.AsWrittenKeepsIndexTail | pymcws/utils.py:33-41 | As written, from the eleventh group on each key keeps part of its index and is not the intended suffix. |
| Utils.AsWrittenTenthLibrary | pymcws/utils.py:37 | As written, "Library10Loaded" becomes "0Loaded". |
| Utils.IndexedStripsIndex | pymcws/utils.py:37-39 | With the counter advanced, every key of group g loses exactly `prefix + str(g)`. |
| Utils.TransformMplResponse | pymcws/utils.py:71-84 | There is one new, distinct MediaFile per item. Each holds the item's tags decoded by its field's Decoder, with none flagged as changed. The first tag that cannot be decoded raises. |
| Utils.DecodeItemTags | pymcws/utils.py:79-82 | The tag loop decodes each tag by the Decoder of its named field. |
| Utils.MplRecordsShape | pymcws/utils.py:76-84 | There is one dict per item, holding that item's decoded tags. |
| Utils.MplRecordsFirstError | pymcws/utils.py:78-82 | The first item that fails decides the error. |
| Utils.EscapeForQuery | pymcws/utils.py:87-98 | Every `"`, `^`, `[` and `]` gets a `/` in front, nothing else changes, and the text grows by their number. |
| Utils.EscapeAgrees | pymcws/utils.py:94-97 | The four `str.replace` calls in sequence equal the one-pass slash escaping. |
| Utils.EscapedIsGuarded | pymcws/utils.py:87-98 | After escaping, every reserved character has a `/` right before it. |
| Utils.PlainTextUnescaped | pymcws/utils.py:94-97 | Text without reserved characters is unchanged. |
| Utils.EmbeddedGuarded | pymcws/utils.py:87-98 | An escaped fragment keeps its guards wherever it is inserted into a query. |
| Utils.SerializeFileList | pymcws/utils.py:101-113 | The loop gives `"2;<n>;<active>"` followed by `";" + str(Key)` per file, or the KeyError of a file without a Key. |
| Utils.FileListFields | pymcws/utils.py:110-112 | Split at ';', the list gives back "2", the count, the active index and the keys. |
| Utils.SerializedIntegerKeys | pymcws/utils.py:101-113 | Files with integer keys serialise to "2;n;active;k1;...;kn". |
| Library.GetList | pymcws/api/library.py:16-36 | `get_list` on the reply is the list decoded with the group counter as written, with the header cast and each library marked. |
| Library.TenLibrariesAgree | pymcws/api/library.py:26 | For a reply of at most 32 entries (two header entries and ten libraries), the list as written equals the one the corrected decoder gives. |
| Library.MarkAll | pymcws/api/library.py:29-33 | The loop marks library i with ID i, in order. The first library without `Loaded` raises. |
| Library.MarkLibraryEffect | pymcws/api/library.py:30-33 | A library fails with KeyError exactly when `Loaded` is missing. Otherwise `Loaded` becomes True exactly when it was "1", and `ID` is the index. |
| Library.MarkLibrariesFirstError | pymcws/api/library.py:30-31 | The first library without `Loaded` decides the error. |
| Library.CastHeaderFieldEffect | pymcws/api/library.py:27-28 | Casting a header entry raises KeyError for a missing key and `int`'s error for a non-integer. Otherwise it replaces just that value. |
| Library.HeaderDropped | pymcws/api/library.py:34-35 | Without the header the list is the one with the header, minus element 0. |
| Library.ListHeader | pymcws/api/library.py:26-28 | The header holds exactly `DefaultLibrary` and `NumberOfLibraries`, as integers. |
| Library.ListLibraries | pymcws/api/library.py:26-33 | The list has one element per decoded group, and each element past the header is the group decoded as written, marked with index g - 1. |
| Library.DefaultIndexing | pymcws/api/library.py:39-45 | The header of the list as written holds an integer `DefaultLibrary`, and `get_default` picks from that list by it. |
| Library.DefaultPick | pymcws/api/library.py:42-45 | The pick by header value d returns element d + 1 with `id` = d, using Python's negative indexing. It raises IndexError beyond either end. |
| Library.DefaultNamedByHeader | tests/test_library.py:40-43 | For an in-range default, the library's `ID` and `id` in the list as written equal the header's `DefaultLibrary`. |
| Library.GetLoaded | pymcws/api/library.py:48-54 | The loop returns the first library whose `Loaded` is true, or None. |
| Library.FirstLoadedIsFirst | pymcws/api/library.py:48-54 | With boolean `Loaded`, the search never fails. It finds a library exactly when one is loaded, and then the first one. |
| Library.LoadedOfList | pymcws/api/library.py:48-54 | `get_loaded` on a list decoded as written never fails and returns its first loaded library. |
| Library.ValuesFieldList | pymcws/api/library.py:171-179 | The payload holds the five parameters in order. A list of names travels as one text that splits back into the names. |
| Library.LibraryValues | pymcws/api/library.py:180-182 | `values` raises HTTPError exactly on an error status, and otherwise gives the text of every child. |
| FileApi.KeepExact | pymcws/api/file.py:10-11 | The filter keeps exactly the pairs whose names it holds, in their order. |
| FileApi.SelectedFields | pymcws/api/file.py:9-11 | Exactly the changed fields, with their current values, that pass the filter are written, in the file's order. |
| FileApi.SetInfo | pymcws/api/file.py:4-24 | `set_info` builds exactly the request `SetInfoRequest` describes for the file's current state. |
| FileApi.BuildPayload | pymcws/api/file.py:12-23 | The payload assembly gives exactly `PayloadFor` of the selected pairs. |
| FileApi.AccumulateFields | pymcws/api/file.py:16-21 | The loop accumulates each name and each encoding followed by a comma, or the first encoding error. |
| FileApi.EncodedValuesShape | pymcws/api/file.py:18-20 | Encoding succeeds exactly when every selected pair encodes, and gives one text per pair. |
| FileApi.SetInfoPayloadShape | pymcws/api/file.py:12-23 | `File` is the Key (KeyError without one) and `FileType` is "Key". `List` = "CSV" is present exactly when more than one field is written. `Field` and `Value` join the names and the encodings. |
| FileApi.FieldsMatchValues | pymcws/api/file.py:18-23 | When no name or encoding holds a comma, `Field` and `Value` split into equally many names and encodings, the i-th with the i-th. With nothing selected both are empty. |
| Playback.WithZoneEffect | pymcws/api/playback.py:203-205 | Without a zone the payload is unchanged. With one, `Zone`/`ZoneType` are its best identifier and that identifier's type, and every other parameter is kept. |
| Playback.ZoneOnly | pymcws/api/playback.py:202-205 | The zone parameters alone, in assignment order. |
| Playback.CommandTargetsZone | pymcws/api/playback.py:40-51 | A command goes to `Playback/<name>` with exactly the two zone parameters, and the default zone is addressed by ID -1. |
| Playback.ZonesRequestHidden | pymcws/api/playback.py:60-62 | `Hidden` is "1" exactly when `see_hidden` is set, and "0" otherwise. |
| Playback.Zones | pymcws/api/playback.py:54-77 | `zones` on the reply is its HTTPError, or the zones rebuilt from the decoded dict. |
| Playback.ReadZone | pymcws/api/playback.py:70-75 | The loop body fills a fresh zone exactly as `ZoneAt` describes. |
| Playback.ZoneAtExact | pymcws/api/playback.py:69-76 | Zone i has index i and the reported `ZoneID<i>`, `ZoneName<i>` and `ZoneGUID<i>`. It is DLNA exactly when `ZoneDLNA<i>` is "1", and it can be read exactly when all four keys exist. |
| Playback.ZoneListShape | pymcws/api/playback.py:64-77 | Succeeds exactly when the count parses and every zone below it reads. It then returns exactly that many zones (none for a negative count), zone i at position i. |
| Playback.MuteIgnoresZone | pymcws/api/playback.py:140-157 | As written, the request `mute` sends does not depend on the zone given. A zone named "Kitchen" is never addressed, while the corrected request names it. |
| Playback.MuteRequest | pymcws/api/playback.py:140-157 | Corrected `mute`: reading goes to `Playback/Info` and setting to `Playback/Mute` with `Set` "1"/"0". A given zone is named by its best identifier and identifier type. |
| Playback.MuteRequestRules | pymcws/api/playback.py:149-154 | Without a mode the state is read through `Playback/Info`. With one, `Playback/Mute` gets `Set` "1" or "0". |
| Playback.MuteReadsReply | pymcws/api/playback.py:149-157 | Without a mode the result is true exactly when the last `VolumeDisplay` is "Muted". With one, exactly when the last `State` is "1". |
| Playback.RepeatMode | pymcws/api/playback.py:168-169 | Only the value False itself is rewritten, to "Off". |
| Playback.RepeatFalseIsOff | pymcws/api/playback.py:168-174 | `repeat(False)` sends Mode "Off", and any other mode (0 and None included) is sent as given. The zone parameters are present exactly when a zone is given. |
| Playback.ModeReadsReply | pymcws/api/playback.py:174-177 | The mode returned is the text of the reply's last `Mode` element. |
| Playback.SetPlaylistReply | pymcws/api/playback.py:279-281 | Succeeds exactly when the status is not an error. |
| Playback.SetPlaylistArguments | pymcws/api/playback.py:262-275 | A single file is sent as the one-element list, and a caller's text is sent as is. Any other argument sends `Playlist` None. |
| Playback.SetPlaylistSerialises | pymcws/api/playback.py:267-268 | Files with integer keys are sent as "2;n;active;k1;...;kn". |
| Recipes.AlbumQueryLayout | pymcws/api/recipes.py:24-34 | Plain names appear verbatim in the album query. Every reserved character of an inserted name carries its `/`. |
| Recipes.KeywordQueryLayout | pymcws/api/recipes.py:58-59 | A plain keyword appears verbatim. A reserved character of an inserted keyword carries its `/`. |
| Recipes.BuildKeywordQuery | pymcws/api/recipes.py:92-98 | The query loop of `query_keyword` gives exactly `KeywordSearchQuery`. |
| Recipes.KeywordSortClause | pymcws/api/recipes.py:94-98 | No criteria gives no sort clause. Criteria c1..cn end the query in " ~sort=[c1],...,[cn]", unescaped, and an empty list leaves " ~sort". |
| Recipes.SearchParams | pymcws/api/files.py:80-83 | The search goes to `Files/Search` with the query, the action and the zone parameters. |
| Recipes.SearchFlags | pymcws/api/files.py:84-86 | `Shuffle` and `PlayDoctor` are "1" exactly when their flags are set. |
| Recipes.RunSendsPrefix | pymcws/api/recipes.py:8-46 | A recipe sends a prefix of its calls, at least the first. It succeeds exactly when every call succeeds, and then it sent them all. |
| Recipes.AlbumCallsShuffle | pymcws/api/recipes.py:26-27 | Shuffle is switched off first, with Mode "Off", exactly when `shuffle_album is False`. |
| Recipes.AlbumCallsSearch | pymcws/api/recipes.py:35-43 | The search plays the album query, with the shuffle flag "1" exactly when `shuffle_album` is True. |
| Recipes.AlbumCallsRepeat | pymcws/api/recipes.py:44-46 | There is a final repeat call exactly when `repeat_album` is not None: "Playlist" for True, "Off" for False. |
| Recipes.PlayAlbumSends | pymcws/api/recipes.py:8-46 | `play_album` sends a prefix of its calls, all of them on success. It searches the same query as `query_album`. |
| Recipes.PlayKeywordSends | pymcws/api/recipes.py:49-68 | `play_keyword` sends its one search, with the keyword query and action "play". |

## Left out

- MediaServers.Network: each endpoint gets the same answer every time it is asked, since the
  probe, lookup and request answers are functions of the endpoint alone. A retry at an
  unchanged address therefore repeats the first reply, and a passing failure that a second
  request would get past cannot be expressed.
- HTTP itself: the session, timeouts, basic-auth headers, URL encoding of parameters and XML
  parsing. The network is a parameter, and replies arrive as parsed elements with a status.
- Logging, `datetime.now()`/`last_connection`, and the `ip`, `http_port`, `https_port` and
  `mac_address_list` attributes, which nothing in the core reads back.
- Floating point:
  - `Decimal`, `Percentage` and `Time` fields keep the text that `float()` accepted.
  - A `Date (float)` value keeps its accepted day-count text.
  - `Date` fields keep the integer that `datetime.fromtimestamp` would convert. The
    OverflowError or OSError it raises for an out-of-range timestamp is not modelled.
  - Encoding a datetime is reported as not modelled.
  - `str()` of a float, the Encoder of `Decimal`, `Percentage` and `Time` fields, is reported
    as not modelled, and so are `int()` and `bool()` of a float. Writing back a changed field
    of those types therefore fails with that report.
- Dates.ParseJRiverDate: the OverflowError that `timedelta` or the date addition raise for a day count out of range, including infinity and nan, is not modelled; such a text gives a date value.
- Model.Assign: float and datetime values compare by their text (`Values.PyEq`), not by value. Equal numbers written differently, such as 3 and a decoded 3.0 or "1.5" and "1.50", count as a change and are stored and flagged; a nan is equal to itself and so is never a change, where Python's `!=` makes it one.
- Model.MediaFile.SetItem: updates the object as `Model.Assign` does, so it shares that text comparison of floats and datetimes.
- MediaServers.UpdateOf: the lookup answer holds the key as a text, so a `keyid` element without text, which makes `key_id` None, is not modelled; nor is a missing `ip` or `port` element, which raises AttributeError after `key_id` was already overwritten. Only a missing `localiplist` or `macaddresslist` is modelled.
- Strings.FloatText: surrounding whitespace, `_` separators and non-ASCII digits, which `float()` also accepts, are rejected here.
- FieldCodecs.Decode: the float conversion of `Decimal`, `Percentage` and `Time` fields accepts exactly `Strings.FloatText`, so it has the same gaps.
- Dates.SerializeJRiverDate: does not render a datetime to its fractional day count, because that needs float formatting.
- Python `int()` accepts only an optional sign and ASCII digits here. Surrounding whitespace and `_` separators are not modelled.
- `playback.position`, `playback.volume`, `playback.playlist`, `loadDSPreset`,
  `library.create_field`, `library.create_file` and `files.get_image`. These are thin
  wrappers of `send_request` that promise nothing beyond the request they send.
- `pymcws/api.py`, `play_recipes.py`, `query_recipes.py`, `pymcws/files.py` and
  `server_mixins.py` are not part of this model. They are older duplicates or wiring of
  the modelled calls.
- The `server` reference a `MediaFile` holds, and the dict methods `update` and `pop` that
  bypass its change tracking.
- Zones are values rather than mutable objects. The source only fills in fresh zones.
- A field filter is a set of names; a dict or list used as a filter is not modelled.
- MediaServers.MediaServer.Fields: the `update` argument of the `fields` property cannot be passed through a property access, so the cache is never refreshed and the model has no refresh path.
- Utils.TransformMplResponse: takes the field table as a parameter. The source reads the `media_server.fields` property, which the first time sends `Library/Fields` with its refresh and retry and can raise. `MediaServers.MediaServer.Fields` models that fetch on its own.
- FileApi.SetInfo: takes the field table as a parameter in the same way, so the `Library/Fields` request that `media_server.fields` may send first, and its failure, are not part of its contract.
- MediaServers.MediaServer.SendRequest: strips None values from a copy of the payload. The source pops them from the caller's own dict, which the caller can see afterwards.
- MediaServers.NoneStripped: its own contract states only that stripping never grows the payload; what it keeps is stated by `NoneStrippedExact`.

## Findings

| source | as written | input that shows it | evidently intended | confidence | as-written member | corrected member |
|---|---|---|---|---|---|---|
| pymcws/media_server.py:37 | `local_ip_list` is the string "127.0.0.1", so `test_local` iterates over its characters | key "localhost": the first probe goes to `http://1:52199/MCWS/v1/Alive` and 127.0.0.1 is never probed | the one-element list ["127.0.0.1"] | not executed | MediaServers.LocalhostProbesCharacters | MediaServers.LocalhostProbesLoopback |
| pymcws/utils.py:33-41 | the group counter `i` is never incremented, so every key loses len(prefix) + 1 characters | a Library/List reply with eleven libraries: "Library10Loaded" becomes "0Loaded" and `get_list` raises KeyError "Loaded" | advance `i` once per chunk, cutting `prefix + str(g)` | not executed | Utils.AsWrittenTenthLibrary | Utils.IndexedStripsIndex |
| pymcws/api/playback.py:149-154 | `mute` never puts its zone into the request | `mute(True, zone)` for a zone named "Kitchen" sends only `Set`, so the selected zone is muted instead | add `Zone`/`ZoneType` like the other playback calls | not executed | Playback.MuteIgnoresZone | Playback.MuteRequest |
