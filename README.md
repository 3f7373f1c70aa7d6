# Show-control server and browser panel, modelled in Dafny

The system runs a comedy show from one place. A Node server talks to four kinds of device:

- QLab, over OSC/UDP;
- a stage timer, over OSC/UDP;
- an X32/XAir audio mixer, over a second hand-written OSC encoder;
- two signage players ("pignage"), over WebSockets.

The server also keeps a settings tree that browsers edit through JSON messages. Two browser pages use it:

- the control panel, with the rundown of comic sets and presets, navigation and timer buttons;
- the settings form.

The model has one Dafny module per core source file:

| module | file | flavour |
|---|---|---|
| `Osc`, `OscProperties` | `src/server/osc.ts` | the codec as functions; the source's loops as methods proved to compute them; the round trip as lemmas |
| `QLab` | `src/server/qlab.ts` | a `Link` class over the queue, the run flag, the connection flag, the socket and the bound address |
| `Timer` | `src/server/timer.ts` | a `TimerLink` class, plus the command message and the `/state` projection as functions |
| `Xair` | `src/server/xair.ts` | a `Mixer` class, plus encoder and parser functions |
| `Settings` | `src/server/settings.ts` | the deep merge on values, the validators, and a `SettingsStore` class |
| `Utils` | `src/server/utils.ts` | `hasPropertyWithType` |
| `Pignage` | `src/server/pignage.ts` | a `Screen` class per player, plus the slide and query functions |
| `ControlPanel` | `src/browser/index.ts` | the rundown edits, navigation, buttons and clock text as functions; a `Panel` class for the page state |
| `SettingsForm` | `src/browser/settings.ts` | the populate and save mappings as functions; a `Form` class for the page state |

Four helper modules support them:

- `Wrappers`: Option and Result.
- `Js`: the JavaScript built-ins the code relies on: truthiness, `||`, `toString`, `padStart`, `split`/`join`, `parseInt`, the truncating `%` and `splice`.
- `Bytes`: bytes, UTF-8, Latin-1 reading and big-endian int32.
- `JsValue`: JSON-like values, `typeof`, `in`, property lookup and the `JSON.parse(JSON.stringify(…))` copy.

Events become method calls: a reconcile tick, a bind or connect callback, a datagram, a timeout, a send error or a socket error. What a method would put on the wire is its result.

## Model

| member | source | states |
|---|---|---|
| Osc.StrToBuf | src/server/osc.ts:58-62 | the padded string is longer than its UTF-8 bytes by 1 to 4 bytes, and its length is a multiple of 4 |
| Osc.StrToBufContents | src/server/osc.ts:58-62 | the padded string starts with the UTF-8 bytes and holds only zeros after them |
| Osc.EncodeArgument | src/server/osc.ts:35-56 | an int encodes iff it is in the int32 range, to 4 bytes that read back as the int; a float is its 4-byte pattern; every encoding is 4-aligned |
| Osc.PaddedLength | src/server/osc.ts:48-53 | the string case's `while (len % 4)` loop ends at the same length `strToBuf` gives: a multiple of 4 that is 1 to 4 past the byte length |
| Osc.ArgumentToBuffer | src/server/osc.ts:35-56 | the imperative argument encoder computes `EncodeArgument` |
| Osc.EncodeArguments | src/server/osc.ts:24-30 | the concatenated argument bytes are 4-aligned |
| Osc.EncodeArgumentsOk | src/server/osc.ts:24-30 | the argument list encodes exactly when every argument encodes |
| Osc.Encode | src/server/osc.ts:18-33 | a message encoding is 4-aligned |
| Osc.MessageToBuffer | src/server/osc.ts:18-33 | the loop that builds the type tag and the argument buffers computes `Encode` |
| Osc.NextBlock | src/server/osc.ts:66-69 | the cursor after `skipToNextBlock` is the next multiple of 4 strictly after the old cursor, at most 4 further |
| Osc.SkipToNextBlock | src/server/osc.ts:66-69 | the mutating skip computes `NextBlock` |
| Osc.ReadUntilNul | src/server/osc.ts:71-74 | the byte loop stops at the first NUL, and runs off the buffer exactly when there is none; the text is the bytes read one character per byte |
| Osc.ReadTypeTag | src/server/osc.ts:79-100 | the tag loop keeps the types up to the first unknown character, reports whether all were known, and logs one warning per unknown character |
| Osc.ReadOneArgument | src/server/osc.ts:103-124 | one step of the `types.forEach` loop computes `ReadArgument` |
| Osc.ReadArgumentsFrom | src/server/osc.ts:103-124 | the `types.forEach` loop computes `ReadArguments`, failing on a read past the end |
| Osc.SplitAddress | src/server/osc.ts:135-144 | the address clean-up computes `NormalizeAddress` |
| Osc.Finish | src/server/osc.ts:125-147 | the end of the decoder computes the final cursor, the length and partial-message warnings, and the address |
| Osc.MessageFromBuffer | src/server/osc.ts:64-152 | the whole cursor walk of `oscMessageFromBuffer` computes `Decode` |
| OscProperties.DecodeEncode | src/server/osc.ts:18-134 | for non-empty ASCII segments without '/' or NUL, NUL-free ASCII strings and int32 ints, the message encodes and decodes back to itself, with the cursor at the end and no warning |
| OscProperties.DecodeLayout | src/server/osc.ts:76-134 | a missing comma changes nothing; extra tags starting with an unknown one give one warning each and a partial message with the known arguments still read; trailing bytes only log a length mismatch |
| OscProperties.EncodeIsLayout | src/server/osc.ts:18-33 | the encoder writes the padded address, the padded comma-and-tags string and the argument bytes, in that order |
| OscProperties.EncodeFailsOnlyOutOfRange | src/server/osc.ts:18-56 | encoding fails exactly when some int argument is outside the int32 range |
| OscProperties.NormalizeAddressString | src/server/osc.ts:135-144 | stripping one leading and one trailing '/' and splitting on '/' undoes `'/' + join('/')` of a valid address, without warning |
| OscProperties.KnownTypesOfTags | src/server/osc.ts:79-100 | the tag loop reads one type per argument back from the encoder's tag characters, all known and with no warning |
| OscProperties.KnownTypesThenUnknown | src/server/osc.ts:79-100 | tag characters after the first unknown one add no type, make the message partial and still each log a warning |
| OscProperties.ReadEncodedArguments | src/server/osc.ts:103-124 | at an aligned cursor over encoded arguments, the reader gives back the same arguments and stops at their end |
| OscProperties.PaddedStringAt | src/server/osc.ts:66-74 | a padded plain string at a cursor: its NUL is where the text ends, the text decodes back, and the next block starts after the padding |
| QLab.FireMessagesAt | src/server/qlab.ts:115-123 | the i-th command fired is `/cue_id/<ids[i]>/start` with no arguments, in id order |
| QLab.SameSegments | src/server/qlab.ts:152-156 | the element-wise comparison of the reply's segments is true exactly when the two address lists are equal |
| QLab.CueShape | src/server/qlab.ts:213-232 | a cue is an object whose `listName`, `uniqueID` and `type` are strings and whose `cues` is an array of cues |
| QLab.CueArrayShape | src/server/qlab.ts:205-211 | a cue array is exactly an array whose every element is a cue |
| QLab.CueListReplyExact | src/server/qlab.ts:61-98 | a reply publishes cue lists exactly when its address starts `reply/cueLists/cues`, its first argument is a string whose JSON is an object with a `data` key, and that data is a cue array; what is published is that `data` |
| QLab.CueListDatagram | src/server/qlab.ts:61-98 | a cue-list reply as QLab encodes it on the wire decodes, and the handler publishes exactly the `data` of the JSON it carries |
| QLab.QueuedCommandsEncode | src/server/qlab.ts:99-133 | `/alwaysReply`, the cue-list request and every fire command encode without error |
| QLab.Link.SetConnected | src/server/qlab.ts:17-30 | no change does nothing; a change publishes exactly one event, and going down closes the socket; the queue is untouched |
| QLab.Link.Flush | src/server/qlab.ts:144-149 | the queue is emptied, the run ends, nothing is in flight, and the link is marked down with one event if it was up |
| QLab.Link.SendNext | src/server/qlab.ts:135-203 | an empty queue ends the run; otherwise exactly the head is removed; it is sent and awaited when a socket and an address exist, and the run is flushed when they do not |
| QLab.Link.ProcessMessages | src/server/qlab.ts:125-133 | the commands are appended in order; during a run nothing is sent; otherwise `/alwaysReply` goes in front and is the datagram sent |
| QLab.Link.StartRun | src/server/qlab.ts:128-132 | the head put in front of the queue is the one sent and awaited, the rest of the queue is kept, or the run is flushed without a socket |
| QLab.Link.GetQLabCues | src/server/qlab.ts:106-113 | the cue-list request goes through the queue under the same rules as `processQLabMessages` |
| QLab.Link.FireQLabCues | src/server/qlab.ts:115-123 | the fire commands go through the queue under the same rules as `processQLabMessages` |
| QLab.Link.OnReplyTimeout | src/server/qlab.ts:144-149 | a reply timeout flushes the run |
| QLab.Link.OnSendError | src/server/qlab.ts:194-202 | a send error flushes the run |
| QLab.Link.OnDatagram | src/server/qlab.ts:61-98 | the link is marked up; the queue advances only on `/reply/<address in flight>` whose first argument is JSON with status `ok`; any other datagram leaves the command pending |
| QLab.Link.Tick | src/server/qlab.ts:32-104 | the tick acts on a changed address, or on no socket with a usable address; an existing socket is only closed; otherwise the configured address, even null, is bound and a socket created |
| QLab.Link.OnBound | src/server/qlab.ts:99-102 | the bind callback starts a run with `/alwaysReply` unless a run is active |
| QLab.Link.OnConnectTimeout | src/server/qlab.ts:53-60 | a socket QLab never answered is closed; a connected one survives |
| QLab.Link.OnSocketError | src/server/qlab.ts:46-51 | a socket error closes the socket and marks the link down, leaving the queue as it is |
| Timer.CommandRoundTrip | src/server/timer.ts:19-42 | the timer decodes every command exactly as it was built |
| Timer.LabelRoundTrip | src/server/timer.ts:66-95 | a `/state` reply carrying a label, as the timer encodes it, sets `timerState` to exactly that label |
| Timer.SecondsRoundTrip | src/server/timer.ts:66-95 | a `/state` reply carrying an int32 number of seconds sets exactly that number |
| Timer.SubscribeRoundTrip | src/server/timer.ts:96-113 | `/subscribe` without arguments encodes and decodes back to itself |
| Timer.TimerLink.SendTimerCommand | src/server/timer.ts:19-42 | a datagram is sent exactly while a socket exists, and it decodes to the command message |
| Timer.TimerLink.Tick | src/server/timer.ts:44-65 | the tick acts on a changed address, or on no socket with a usable address; it binds the configured address, stops the subscription, and creates a socket only for a usable address |
| Timer.TimerLink.OnBound | src/server/timer.ts:96-113 | the bind callback starts the subscription and sends `/subscribe` |
| Timer.TimerLink.OnSubscribeInterval | src/server/timer.ts:57-113 | a firing sends `/subscribe` while subscribed on a live socket; once a socket error has closed that socket, which leaves the interval running, the send throws instead |
| Timer.TimerLink.Subscribe | src/server/timer.ts:96-113 | the datagram is the encoding of `/subscribe` |
| Timer.TimerLink.OnDatagram | src/server/timer.ts:66-95 | a state update sets `timerState` and is published once; the listener throws, changing nothing, exactly when the buffer does not decode or a `/state` message has no argument (nothing catches the throw, so it ends the server); any other datagram changes nothing |
| Timer.BareStateThrows | src/server/timer.ts:66-71 | a `/state` message with no argument, as the timer would encode it, decodes and reaches the read of `.type` that throws |
| Timer.TimerLink.OnSocketError | src/server/timer.ts:57-64 | a socket error closes the socket, whose close handler forgets it; the subscribe interval keeps running and nothing else changes |
| Xair.ArgumentToBuffer | src/server/xair.ts:182-199 | a blob is its own bytes; an int fails iff it is outside int32 and otherwise is 4 bytes that read back as it; all other kinds are 4-aligned |
| Xair.BuildPayload | src/server/xair.ts:161-174 | `send`'s loop builds the padded command, the padded type tags and the raw argument bytes |
| Xair.PayloadFails | src/server/xair.ts:161-180 | a send fails exactly when some int argument is outside the int32 range |
| Xair.PayloadLayout | src/server/xair.ts:161-174 | a payload starts with the padded command, then the padded type tags, then the raw argument bytes |
| Xair.EncodersAgree | src/server/xair.ts:161-213 | without blobs, the mixer encoder writes exactly what the main OSC encoder writes, and fails on the same messages |
| Xair.FaderAddress | src/server/xair.ts:215-238 | the fader address is `/` followed by the leaf the parser matches, and for channels below 100 it is `/ch/` plus the two zero-padded decimal digits plus `/mix/fader` |
| Xair.FaderLeafInjective | src/server/xair.ts:215-238 | channels below 100 have distinct fader addresses |
| Xair.IndexOfNul | src/server/xair.ts:32-35 | `indexOf(0)` is the first NUL, or -1 when there is none |
| Xair.NextIndex | src/server/xair.ts:32-35 | `index + 4 - index % 4` is the next block after the NUL, and 4 when there is no NUL |
| Xair.FaderReplyParses | src/server/xair.ts:62-76 | the mixer's report of the music fader, with tag `f`, yields its float bits |
| Xair.OtherChannelIgnored | src/server/xair.ts:62-76 | a fader report for another channel changes nothing |
| Xair.MeterReplyParses | src/server/xair.ts:77-89 | a `/meters/6` datagram yields the 4 bytes after the 8-byte blob header, whatever its type tag, and throws when the blob is shorter than 12 bytes |
| Xair.ShortFaderReplyThrows | src/server/xair.ts:62-69 | a music fader report tagged `f` with fewer than 4 bytes after its tags throws in `readFloatBE` |
| Xair.NoNulIgnored | src/server/xair.ts:32-35 | a datagram without a NUL changes nothing |
| Xair.Mixer.Send | src/server/xair.ts:161-180 | the payload is sent only while a socket exists and the link is connected, and only when it encodes; on a socket that has not connected yet the send throws |
| Xair.Mixer.ConnectXair | src/server/xair.ts:22-30 | a new socket that has not connected yet becomes `mixerSocket`, and `connected` keeps its value, so, once the link was connected before, a send before the new socket's connect callback throws; on a first connect such a send only logs |
| Xair.Mixer.OnConnected | src/server/xair.ts:26-30 | the connect callback marks the link connected, subscribes, then asks for the music fader |
| Xair.Mixer.Subscribe | src/server/xair.ts:147-158 | nothing is sent unless connected; then `/xremote` goes first, followed by the meter subscription when it encodes; on a socket that has not connected yet the first send throws |
| Xair.Mixer.RequestFaderLevel | src/server/xair.ts:215-221 | the fader address goes out without arguments, only while connected, and throws on a socket that has not connected yet |
| Xair.Mixer.SetFaderLevel | src/server/xair.ts:223-238 | the level goes to the channel's fader; the cached music level changes, and is published, only for the music channel and only when the send did not throw |
| Xair.Mixer.OnDatagram | src/server/xair.ts:31-97 | a fader reply sets and publishes the rounded level; a meter reading is published; the listener throws, changing nothing, exactly when a float read would run past the end (nothing catches the throw, so it ends the server); anything else changes nothing |
| JsValue.TypeOf | src/server/utils.ts:29 | `typeof` is `object` exactly for null, arrays and objects |
| JsValue.JsonCopyFixpoint | src/server/settings.ts:113-115 | the JSON round trip returns a value unchanged exactly when it holds no `undefined`, so copying twice equals copying once |
| Utils.HasPropertyWithType | src/server/utils.ts:11-34 | a missing property passes exactly when `partial` is listed |
| Utils.PresentProperty | src/server/utils.ts:22-33 | a present null passes with `null` or `object`, an array with `array` or `object`, and any other value exactly when its `typeof` is listed |
| Utils.Monotonic | src/server/utils.ts:11-34 | listing more types never turns a passing check into a failing one |
| Settings.AssignReadsBack | src/server/settings.ts:150-174 | an assignment throws exactly on a primitive (strict mode); once it completes, the key reads back the new value and every other property reads as before |
| Settings.MergeIntoPrimitive | src/server/settings.ts:135-163 | a merge into a primitive never changes it |
| Settings.MergeKeepsObject | src/server/settings.ts:135-163 | an object stays an object whatever the merge does to it |
| Settings.MergePointwise | src/server/settings.ts:135-163 | a completed object merge acts key by key: unmentioned and `undefined` keys keep their values, and every other key holds the merge of the old and new values |
| Settings.KeepsUnmentioned | src/server/settings.ts:136-140 | a key the partial does not mention, or maps to `undefined`, keeps its value |
| Settings.OverwritesPrimitive | src/server/settings.ts:152-159 | a primitive or null in the partial overwrites the key |
| Settings.MergesObject | src/server/settings.ts:141-151 | an object in the partial is stored as it is over `undefined`, or over null when it is truthy; otherwise it is merged into the old value |
| Settings.MergesArray | src/server/settings.ts:153-159 | an array in the partial merges index-wise into an array of the same length, and replaces anything else |
| Settings.ItemsPointwise | src/server/settings.ts:165-177 | an array merge keeps the length; object elements merge into the element, and anything else, arrays and null included, replaces it |
| Settings.BumperShape | src/server/settings.ts:258-271 | a bumper is null, or an object (not an array) whose `id`, `name`, `artist` and `art` are strings |
| Settings.GoveesShape | src/server/settings.ts:273-283 | `isGovees` accepts exactly non-null objects or arrays whose values are all strings |
| Settings.PartialSettingsShape | src/server/settings.ts:213-233 | an object passes exactly when each checked key is missing or of an allowed kind, a rundown is an array of valid items, and the govees and spotify parts pass their own checks |
| Settings.RundownItemShape | src/server/settings.ts:235-256 | an item needs a string `type` and `name`; a preset may carry a numeric `endTime`; a comic's social, bumper, bumper id and time are each missing or of their kind |
| Settings.UncheckedKeysFree | src/server/settings.ts:213-233 | the keys `isPartialSettings` does not check, such as `qlabAddress` and `pignage`, are unconstrained |
| Settings.ArrayIsPartialSettings | src/server/settings.ts:213-233 | any array passes `isPartialSettings` |
| Settings.SettingsStore.GetSettings | src/server/settings.ts:113-115 | the result is the JSON copy of the stored settings |
| Settings.SettingsStore.SetSettings | src/server/settings.ts:117-131 | the store holds the merge; a reconnect is requested exactly when a completed merge left `xairAddress` `!==` its old value: a primitive compares by value, an object or array only differs when an entry stored another value in the slot instead of merging into it; the broadcast carries the copy of the new settings |
| Settings.InPlaceAddressKeepsReference | src/server/settings.ts:117-123 | an object address merged in place keeps its reference, so it does not count as changed |
| Pignage.GroupInfosAppend | src/server/pignage.ts:26-40 | the group projection distributes over concatenation, so groups keep their order |
| Pignage.InfoNamesPlayableGroups | src/server/pignage.ts:26-40 | the browsers are shown a group name exactly when `setSlide` treats that name as a group, and each group lists its files by name in order |
| Pignage.HtmlNamesMembers | src/server/pignage.ts:26-40 | a name is listed exactly when some HTML page carries it |
| Pignage.HtmlNamesAppend | src/server/pignage.ts:26-40 | the filter distributes over concatenation, so it keeps the pages' order |
| Pignage.HtmlNamesAllHtml | src/server/pignage.ts:26-40 | with no non-HTML page, every page name is kept in order |
| Pignage.SlidesAreEqualIff | src/server/pignage.ts:161-171 | `slidesAreEqual` is equality of slides, and a page never equals a pair |
| Pignage.ComicCardQuery | src/server/pignage.ts:118-122 | the `args +=` accumulation computes `CardQuery` |
| Pignage.CardQueryShape | src/server/pignage.ts:118-122 | the query is empty exactly when the name and the social handle both are, and otherwise starts with `?` |
| Pignage.SetComicCard | src/server/pignage.ts:117-136 | the card page is sent, primary first, to each player whose active slide is not already that page |
| Pignage.Screen.Repeater | src/server/pignage.ts:49-69 | only a non-empty address that differs from the bound one, or has no socket, acts; an existing socket is only closed; otherwise the address is bound and a socket opened |
| Pignage.Screen.OnOpen | src/server/pignage.ts:63-65 | the socket counts as open and nothing else changes |
| Pignage.Screen.OnClose | src/server/pignage.ts:66-69 | the socket is forgotten and nothing else changes |
| Pignage.Screen.OnMessage | src/server/pignage.ts:70-108 | `groups` and `pagesDir` replace their lists and publish; `activeSlide` and `playingGroup` are recorded silently; anything else changes nothing |
| Pignage.SendAll | src/server/pignage.ts:173-184 | a run of `sendMessage` calls delivers, in order, exactly the calls made to a player whose socket is open |
| Pignage.DeliverableMembers | src/server/pignage.ts:173-184 | a call is delivered exactly when its player's socket is open, and no more calls are delivered than made |
| Pignage.Screen.SetSlide | src/server/pignage.ts:138-159 | a group name plays that group unless it is already playing; any other slide is sent when it differs from the active one, always to the primary player |
| Pignage.SetSlideMisroutes | src/server/pignage.ts:154 | asking the secondary player, which shows nothing, for a page addresses the request to the primary player |
| Pignage.Screen.SetSlideIntended | src/server/pignage.ts:138-159 | the same decisions, with every request addressed to the player that was asked |
| Pignage.SetSlideIntendedRoutes | src/server/pignage.ts:154 | on the same input, the corrected handler addresses the secondary player |
| ControlPanel.DeleteRemoves | src/browser/index.ts:203-216 | deleting item i removes exactly that item, and a current item other than i stays current |
| ControlPanel.DeleteLastCurrentOverruns | src/browser/index.ts:205-208 | deleting the current item when it is the last one leaves the index one past the end |
| ControlPanel.DeleteIntended | src/browser/index.ts:203-216 | the corrected delete removes exactly item i |
| ControlPanel.DeleteIntendedInRange | src/browser/index.ts:205-208 | with the correction, an index within the rundown stays within it after any delete, and still names the same item when another item was deleted |
| ControlPanel.MoveUpSwaps | src/browser/index.ts:220-238 | moving item i up swaps it with item i-1, and the current item stays current |
| ControlPanel.MoveDownSwaps | src/browser/index.ts:242-260 | moving item i down swaps it with item i+1, and the current item stays current |
| ControlPanel.MoveDownUndoesMoveUp | src/browser/index.ts:220-260 | moving an item down right after moving it up restores the rundown and the index |
| ControlPanel.MoveUpFirst | src/browser/index.ts:220-238 | the first item's up icon is only styled as disabled: `splice(-1, …)` puts the item before the last one, and index 0 becomes -1 |
| ControlPanel.MoveDownLast | src/browser/index.ts:242-260 | the last item's down icon leaves the rundown as it was and moves a current last index past the end |
| ControlPanel.Swapped | src/browser/index.ts:223-230 | the two items trade places and nothing else changes |
| ControlPanel.SwappedTwice | src/browser/index.ts:223-252 | swapping twice restores the rundown |
| ControlPanel.EditItem | src/browser/index.ts:292-298 | editing item i replaces only index i |
| ControlPanel.AddItem | src/browser/index.ts:307-342 | a new item is appended after all existing ones |
| ControlPanel.NextAdvances | src/browser/index.ts:417-439 | "Go to Next" ends by setting the index one further, after a reset to the next item's time exactly when that item is a comic |
| ControlPanel.NextResetMessage | src/browser/index.ts:417-439 | the reset reaches the timer with the set's minutes as its float, except that a set of 0 minutes sends none |
| ControlPanel.NextOffered | src/browser/index.ts:417-439 | "Go to Next" is offered exactly outside edit mode while an item follows the current one |
| ControlPanel.MakeActiveSends | src/browser/index.ts:268-291 | "Make Active" sets the index to the item, and for a comic then resets the timer to its set |
| ControlPanel.ReadClockOfClock | src/browser/index.ts:131-137 | every clock text reads back as the minutes and the seconds it was written from |
| ControlPanel.ClockLayout | src/browser/index.ts:131-137 | the clock text is the minutes, a colon and two digits holding the seconds |
| ControlPanel.ClockInjective | src/browser/index.ts:131-137 | the clock text determines its minutes and its seconds |
| ControlPanel.TimerSecondsInjective | src/browser/index.ts:131-137 | different numbers of seconds never show the same clock text |
| ControlPanel.TimerSecondsUnsigned | src/browser/index.ts:131-137 | the seconds field of the timer clock is always two digits, never a sign |
| ControlPanel.MsToTimeStringIsClock | src/browser/index.ts:812-817 | from -500 ms on, the track duration shows as the timer clock of the rounded seconds |
| ControlPanel.MsToTimeStringNegative | src/browser/index.ts:812-817 | below that, JavaScript's `%` shows a negative seconds field such as `-1:-2`, which no timer clock shows |
| ControlPanel.MinutesToTimeIsClock | src/browser/index.ts:754-758 | a whole number of minutes shows as the clock of that many minutes' seconds |
| ControlPanel.ReportedStateOffers | src/browser/index.ts:143-148 | for each report the timer publishes, the panel offers pause for a running count (or the label `running`), start for `ready`, start and reset for `paused`, reset for `finished`, and nothing for any other label |
| ControlPanel.TimerButtonsOffer | src/browser/index.ts:364-407 | start is offered when ready or paused, pause when running, reset when paused or finished, and nothing else |
| ControlPanel.ButtonSendsItsCommand | src/browser/index.ts:364-407 | each timer button sends exactly the command it names, without a time |
| ControlPanel.PanelTimerCommands | src/browser/index.ts:344-416 | timer commands are offered exactly for a current comic outside edit mode, as its timer state allows |
| ControlPanel.ItemCommands | src/browser/index.ts:344-416 | a comic's own buttons offer exactly its timer commands, and a preset's offer none |
| ControlPanel.Panel.OnSettings | src/browser/index.ts:108-122 | a settings message replaces the rundown, the index and the Spotify connection |
| ControlPanel.Panel.ToggleEdit | src/browser/index.ts:63-66 | the edit toggle sets edit mode and changes nothing else |
| ControlPanel.Panel.OnTimer | src/browser/index.ts:131-148 | seconds are written as clock text into the shown time; the state becomes `running` or the label; the page re-renders exactly when that state changes |
| SettingsForm.ChannelTextParses | src/browser/settings.ts:275 | the channel's text is empty exactly for no channel, and `parseInt` reads the channel back |
| SettingsForm.Populated | src/browser/settings.ts:265-278 | each field holds its setting or '', all '' without settings, and the channel field reads back as the channel |
| SettingsForm.WithField | src/browser/settings.ts:28-34 | typing changes one field and no other |
| SettingsForm.SaveUnedited | src/browser/settings.ts:39-59 | saving the form as it was filled in sends back the stored settings, with null for a stored empty string |
| SettingsForm.SaveThenPopulate | src/browser/settings.ts:39-59 | once a save is stored, filling the form in again gives back the saved fields, when the channel field was '' or an integer as `toString` writes it |
| SettingsForm.FooterDependsOnAccount | src/browser/settings.ts:131-146 | when neither the user name nor the refresh token changed, the footer the page would build is the one it shows, so skipping the rebuild loses nothing |
| SettingsForm.Form.SetButtons | src/browser/settings.ts:223-263 | the buttons are shown exactly while there are settings and some field differs from what was filled in |
| SettingsForm.Form.PopulateValues | src/browser/settings.ts:265-280 | the fields are filled in and the buttons are hidden |
| SettingsForm.Form.OnInput | src/browser/settings.ts:28-34 | after typing into a freshly filled form, the buttons show exactly when the new text differs from the old |
| SettingsForm.Form.Save | src/browser/settings.ts:39-61 | the message sent is the save message of the fields, and the fields are kept |
| SettingsForm.Form.OnSettings | src/browser/settings.ts:128-150 | the footer is rebuilt exactly when there were no settings or the user name or refresh token changed, and afterwards always shows what the stored account calls for ("Connected to Spotify", with " as <name>", while a refresh token is stored); the fields are filled in again and the buttons are hidden |

## Left out

- Sockets, WebSockets, the HTTP server and timers are not modelled. Socket creation, callbacks, `setInterval` and `setTimeout` are events (method calls), and what would be sent is returned. Logging is not modelled, and neither are the broadcast to browsers or the save of the settings file.
- Stale callbacks are not modelled. This covers the QLab reply listener that a timeout leaves attached, and the old timer socket's close handler, which nulls a newer `timerSocket`. Each event is atomic in the model.
- Float32 values are opaque 4-byte patterns. `writeFloatBE` is a parameter (`toFloat32`), and so is `Math.round(readFloatBE() * 1000) / 1000` (`readLevel`, `readMeter`).
- `JSON.parse` is a parameter (`parse`, with None for a throw), and so is `encodeURIComponent` (`encode`).
- `Buffer.from` is exact UTF-8 only for ASCII text. The round trips are stated for ASCII strings, since the decoder reads one character per byte.
- Osc.Decode: a truncated datagram is an explicit error. A missing NUL makes the source loop, and a read past the end throws. The timer and mixer listeners report such throws as `threw` and `Throws`; the end of the process that follows is not modelled.
- Settings.MergeValue: the merge maps the old tree to a new one; it does not update in place. An array write at a new index, at `length` or at a named property is reported as `Unsupported` instead of being modelled.
- Settings.SettingsStore.Valid: it only says that the store holds an object; it does not say that the tree matches the `Settings` type.
- Reading the settings file and the Spotify credentials file (settings.ts:79-111 and 179-211) is not modelled.
- ControlPanel.MinutesToTime: only whole minutes are modelled. A fractional set length, and the seconds it would show, are not.
- ControlPanel.EditItem: it requires `i < |rundown|`. The editor only opens for an existing item, and an index past the end would make a sparse array, which `seq` cannot hold.
- The DOM, the modal item editor, the long press, `throttle`, the warnings and track displays, the VU meters and the CSS of the disabled icons are not modelled.
- The Spotify connect flow, `generateRandomString` and the authorization window are not modelled.
- "Fire Preset" has no click handler in the source, so it sends nothing.
- `parseInt` returning NaN is modelled as None; the save message then sends null, which is what `JSON.stringify(NaN)` gives.
- SettingsForm.Form.OnSettings: the rebuilt footer is returned rather than written into the DOM.
- SettingsForm.Configured: the settings page is modelled on a typed view of the settings, not on the JSON value tree.
- The validators isPartialSpotify and isPartialSpotifyUser are modelled as predicates. `Settings.PartialSettingsShape` uses them, but no lemma of their own restates their checks.
- JsValue.Value: an object's keys are kept in insertion order, which is JavaScript's order only for keys that are not array indices (integer-like keys come first, ascending). The keys the model names (`data`, `id`, the settings keys) start with a non-digit, as `JsValue.NamedKey` requires; the position of integer-like keys is not modelled.
- Numbers are integers (`JsValue.Num` holds an `int`, and the timer's `time` is an optional `int`). Fractional numbers, such as fader levels and set lengths from `parseFloat`, and NaN are not values of the model; float maths appears only through the opaque parameters above.
- ControlPanel.RundownItem: a preset keeps only its name (its `cueLabCues` list is dropped), and a comic's bumper is reduced to its track id.
- SettingsForm.Apply: the server's merge of a save message is assumed to replace the seven stored values; it is not proved against Settings.MergeValue on the value tree, though each value it carries is a primitive or null, which that merge overwrites (Settings.OverwritesPrimitive).
- Xair.Text: the mixer parser reads one character per byte, while xair.ts:33 and :47 decode UTF-8; the command and type tag differ from the source's only on non-ASCII bytes.
- Xair.Mixer.ConnectXair: the previous socket is only dropped from `mixerSocket`. In the source it is never closed, stays bound (`reuseAddr`) and keeps its `message` handler; that old socket is not modelled.
- `spotify.ts`, `govee.ts`, `logger.ts`, `main.ts`, `http-server.ts` and `spotify-callback.ts` are not part of this model.

## Findings

| source | as written | input that shows it | evidently intended | confidence | as-written member | corrected member |
|---|---|---|---|---|---|---|
| src/server/pignage.ts:154 | `setSlide` compares the asked player's active slide but always sends the `activeSlide` request to `'primary'` | secondary player, no active slide, slide `Page("a.html")` | the request goes to the player that was asked | medium, not executed | Pignage.SetSlideMisroutes, Pignage.Screen.SetSlide | Pignage.SetSlideIntendedRoutes, Pignage.Screen.SetSlideIntended |
| src/browser/index.ts:205-208 | deleting the current item when it is the last one keeps the current index, which is now one past the end; the delete icon exists only in edit mode, and the first render after leaving it reads `currentRundownItem.type` of undefined (line 344) | rundown `[A, B]`, current 1, delete item 1 | the index moves to the new last item | medium, not executed | ControlPanel.DeleteLastCurrentOverruns, ControlPanel.Delete | ControlPanel.DeleteIntendedInRange, ControlPanel.DeleteIntended |
