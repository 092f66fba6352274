# Heating-profile card: a verified model of its schedule logic

`heatzone-profile.js` is a browser card for a weekly heating schedule:
seven days of 96 quarter-hour slots, each slot holding a mode id (0 bypass,
1..4 the four setpoints, 5 off). The card synchronises the schedule over
MQTT: a save publishes seven scalar fields and one block list per day,
and inbound messages update the fields one at a time. This project models
three parts of that file and proves properties of them:

- **The schedule codec.** `matrixToJSON` run-length encodes each row into
  `{From, To, TempID}` blocks with `"H:MM"` times, the last ending at
  `"24:00"`. `jsonToMatrix` paints a block list onto a row of zeros.
  Modules `Clock` and `Codec` cover this, and `Profile` covers the whole
  week's result object. Each of the two loops is a method proved against
  a specification function: `EncodeDayBlocks` against `EncodeDay`, and
  `JsonToMatrix`, which works on an array, against `Decode`. The proved
  laws about those functions are:
  - the normal form: contiguous times, "0:00" to "24:00", neighbouring
    blocks differ, and times on the grid written as "H:MM";
  - the decode bounds and defaults;
  - the last block wins on overlap;
  - the round trip `Decode(EncodeDay(r)) == r`;
  - the other direction: a block list in normal form is unchanged by
    `EncodeDay(Decode(bs))`, so the normal-form lists are exactly the
    encodings of 96-slot rows.
- **Inbound field dispatch.** `handleMQTTMessage` checks the lower-cased
  `topic/profile/` prefix, switches on the subtopic, and updates exactly one
  field. For `DayN` it updates a row through `updateMatrix`, and only when
  the payload is an array. Modules `Topics` (subtopic list, topic strings,
  routing), `Values` (parsed payloads, `parseFloat`, the activation test)
  and `Remote` (the state a message leaves behind) cover this. The proved
  laws are:
  - frame laws per field;
  - last write wins;
  - updates of distinct fields commute;
  - a save echoed back by the broker changes nothing.
- **The drag-paint state machine.** `handleMouseDown`, `handleMouseMove`
  and `handleMouseUp` are methods of the class `Card.HeatingProfileCard`,
  whose fields are the component's own. A move rebuilds the matrix from the
  mouse-down snapshot with the inclusive rectangle painted, which
  `DragPreview` specifies. That a move back shrinks the painted area and
  that a repeated move changes nothing follow from it.

Modelling decisions:

- A wire block holds its `From` and `To` already split into integer hours
  and minutes (`Clock.Time`). The text form is `FormatTime`, and
  `ParseTime` reads it back.
- Temperatures are `Values.Float`: an exact real, or NaN. Nothing computes
  with them; they are only copied.
- A payload after `JSON.parse` is `Values.Value`: an array of blocks, a
  boolean, a number, a string, or anything else.
- Each explicit `requestUpdate()` call is modelled as one step of a
  counter `updates` on the card.
- The broker connection is a parameter of `PublishToMQTT`. The publish
  calls are returned as a list of (subtopic, payload) pairs, and each
  payload is given as a receiver parses it back.

A consequence the model makes visible (`Card.RemoteUpdateDuringDrag`): a
`DayN` message that arrives during a drag is discarded by the next mouse
move. The move rebuilds the matrix from the snapshot taken at mouse-down,
and that snapshot never saw the remote row.

## Model

| member | source | states |
|---|---|---|
| Util.Lower | heatzone-profile.js:827 | lower-casing keeps the length and maps each character by itself (ASCII letters to lower case, all else unchanged) |
| Util.LowerAppend | heatzone-profile.js:903 | lower-casing distributes over concatenation, so lower(topic + "/" + profile + "/") is lower(topic + "/" + profile) + "/" |
| Util.StartsWith | heatzone-profile.js:904 | startsWith holds exactly when the text is at least as long as the prefix and agrees with it character by character |
| Util.NatToString | heatzone-profile.js:172 | toString of a natural number is a non-empty string of decimal digits |
| Util.NatToStringWellFormed | heatzone-profile.js:172 | Number.prototype.toString of a natural number is a non-empty digit string with no leading zero whose value is the number |
| Util.PadTwo | heatzone-profile.js:172 | padStart(2, "0") leaves a text of two or more characters unchanged, and pads a shorter one with leading zeros to exactly two characters ending in the text ("0" becomes "00") |
| Util.Split | heatzone-profile.js:216-217 | split yields at least one part, and no part contains the separator |
| Util.SplitAround | heatzone-profile.js:216-217 | split(':') of "a:b", where a and b hold no colon, yields exactly [a, b] |
| Util.SplitNone | heatzone-profile.js:216-217 | split on a separator the text does not contain yields the text whole |
| Clock.SlotTime | heatzone-profile.js:170-171 | slot i starts at hour floor(i/4), minute (i mod 4)*15; that minute is one of 0, 15, 30, 45 and the pair maps back to i |
| Clock.CloseTime | heatzone-profile.js:183-189 | the To written when a run closes before slot i names slot i: hour*4 + floor(minute/15) is i, and the minute is 0, 15, 30 or 45 |
| Clock.CloseTimeIsSlotTime | heatzone-profile.js:184-189 | the To written when a run closes before slot i (endMinute 60 carried into the next hour) is exactly slot i's start time |
| Clock.CeilQuarter | heatzone-profile.js:221 | Math.ceil(m / 15) is the least r with m <= 15r |
| Clock.StartSlot | heatzone-profile.js:220 | no contract of its own: the start slot hour*4 + floor(minute/15); Clock.SlotRounding and Clock.GridSlot state its properties |
| Clock.EndSlot | heatzone-profile.js:221-225 | no contract of its own: the end slot hour*4 + ceil(minute/15), or 96 for hour 24; Clock.SlotRounding and Clock.GridSlot state its properties |
| Clock.SlotRounding | heatzone-profile.js:220-225 | a From is rounded down to the start of its quarter hour; a To is rounded up, so it equals the start slot on a quarter-hour boundary and is one more otherwise; hour 24 is slot 96 whatever the minute |
| Clock.SlotTimeInverse | heatzone-profile.js:220-225 | the decoder maps each slot time 0..96 back to its own slot index, both as a start and as an end; slot 96 is "24:00" |
| Clock.SlotTimeOnGrid | heatzone-profile.js:170-171 | every slot time from 0 to 96 is a grid time: hour 0..24, minute in {0,15,30,45}, and hour 24 only with minute 0 |
| Clock.MinuteText | heatzone-profile.js:172 | a grid minute is written as one of "00", "15", "30", "45", and that text reads back as the minute |
| Clock.FormatTime | heatzone-profile.js:172 | the text has at least four characters; for a minute below 100 it is the hour's digits, ':' and two minute digits |
| Clock.ParseNumber | heatzone-profile.js:216-217 | Number() of a time component gives a value exactly when the text is all digits (NaN otherwise); the value is non-negative, and the empty text reads 0 |
| Clock.ParseTime | heatzone-profile.js:216-217 | a parsed time has a non-negative hour and minute, and a text without ':' parses to nothing |
| Clock.ParseDigitsPair | heatzone-profile.js:216-217 | two digit strings joined by ':' split and parse back to their two values |
| Clock.FormatOnGrid | heatzone-profile.js:172 | a grid time is written as an unpadded hour, ':' and two minute digits from {00,15,30,45}, and split(':').map(Number) reads it back as the same time |
| Codec.RunsSnoc | heatzone-profile.js:174-192 | one more slot either extends the open run (same TempID) or closes it and opens a new run at that slot |
| Codec.ChainExtend | heatzone-profile.js:180-181 | extending the last interval of a run chain by one slot keeps it a chain |
| Codec.ChainOpen | heatzone-profile.js:192-196 | appending a one-slot interval to a run chain keeps it a chain |
| Codec.ExtendRun | heatzone-profile.js:180-181 | a slot equal to the open run's mode extends it and keeps the run-length form valid |
| Codec.OpenRun | heatzone-profile.js:174-197 | a slot different from the open run's mode opens a new run and keeps the run-length form valid |
| Codec.RunsCorrect | heatzone-profile.js:166-203 | the runs the scan builds split the row into consecutive non-empty intervals, each holding its mode, with neighbouring modes different |
| Codec.ClosedBlocks | heatzone-profile.js:190 | one pushed block per closed run, in order |
| Codec.ClosedBlocksSnoc | heatzone-profile.js:190 | closing one more run appends exactly its block |
| Codec.ExtendStep | heatzone-profile.js:180-181 | when slot i repeats the open run's TempID, the closed runs stay and the open run now ends after slot i |
| Codec.OpenStep | heatzone-profile.js:174-197 | when slot i has a new TempID, the open run is closed with a To equal to slot i's start and a run of slot i alone is opened |
| Codec.EncodeDay | heatzone-profile.js:161-205 | no contract of its own: the specification of one day's block list (one block per run, the last To "24:00"); Codec.EncodeDayBlocks, EncodeContiguous, EncodeOnGrid, DecodeEncode and EncodeNormalForm state its properties |
| Codec.EncodeDayBlocks | heatzone-profile.js:161-205 | the per-day loop yields exactly EncodeDay of the row: one block per run, with the final To replaced by "24:00" |
| Codec.EncodeDayIsRuns | heatzone-profile.js:166-203 | for a 96-slot row, block k runs from the start slot to the end slot of run k |
| Codec.EncodedBlockSpan | heatzone-profile.js:166-203 | block k's From and To are grid times, and they decode to exactly run k's start and end slots |
| Codec.EncodeContiguous | heatzone-profile.js:166-203 | the block list of a 96-slot row is non-empty, starts at 0:00, ends at 24:00, each To equals the next From, neighbouring TempIDs differ, and every block's From slot is before its To slot (no From == To block) |
| Codec.EncodeOnGrid | heatzone-profile.js:168-202 | every From and To of a 96-slot row's blocks is a quarter-hour grid time |
| Codec.EncodeSpansAgree | heatzone-profile.js:174-203 | every block stays inside the day, and every slot it spans holds its TempID |
| Codec.EncodedSlot | heatzone-profile.js:174-203 | a slot inside block k's span lies in the row and holds block k's TempID |
| Codec.ConstantRuns | heatzone-profile.js:180-181 | a row of one repeated mode is a single run |
| Codec.EncodeConstantDay | heatzone-profile.js:174-203 | a 96-slot row of one mode encodes to exactly one block 0:00 to 24:00 |
| Codec.ApplyBlock | heatzone-profile.js:229-231 | a block sets exactly the slots in [max(0,start), min(96,end)) to its TempID and keeps every other slot |
| Codec.Paint | heatzone-profile.js:215-232 | painting blocks in list order keeps the row's length |
| Codec.EmptyDay | heatzone-profile.js:213 | the start row has 96 slots, all 0 |
| Codec.Decode | heatzone-profile.js:212-236 | no contract of its own: the specification of jsonToMatrix (a row of zeros painted with each block in turn); Codec.JsonToMatrix, DecodeLength, DecodeUncovered, DecodeLastWins and DecodeEncode state its properties |
| Codec.JsonToMatrix | heatzone-profile.js:212-236 | the in-place loop over a 96-slot array yields exactly Decode of the block list |
| Codec.DecodeLength | heatzone-profile.js:213 | a decoded row always has 96 slots |
| Codec.PaintUncovered | heatzone-profile.js:215-232 | a slot that no block covers keeps its value |
| Codec.PaintLastCover | heatzone-profile.js:215-232 | a slot takes the TempID of the last block in the list that covers it |
| Codec.DecodeUncovered | heatzone-profile.js:213 | a slot no block covers decodes to 0 |
| Codec.DecodeLastWins | heatzone-profile.js:215-232 | on overlap the later block's TempID wins |
| Codec.DecodeOneBlock | heatzone-profile.js:219-231 | one block fills exactly [max(0, h*4+floor(m/15)), min(96, end)), where end is 96 for hour 24 and h*4+ceil(m/15) otherwise; a block with start >= end changes nothing |
| Codec.ChainOrdered | heatzone-profile.js:166-203 | later runs start at or after earlier runs end |
| Codec.ChainCovers | heatzone-profile.js:166-203 | every slot of the row lies in some run |
| Codec.DecodeEncode | heatzone-profile.js:161-205 | round trip: decoding a 96-slot row's blocks gives the row back |
| Codec.EncodeDecodeEncode | heatzone-profile.js:161-236 | re-encoding a decoded encoding gives the same blocks |
| Codec.PaintedRun | heatzone-profile.js:219-231 | the run of one block covers exactly the slots the decoder's fill loop writes |
| Codec.RunsUnique | heatzone-profile.js:174-197 | any minimal run-length form of a row is the one the encoder's scan builds |
| Codec.GrowShrink | heatzone-profile.js:174-197 | taking the last slot off a run-length form and adding it back by the scan's step restores it |
| Codec.BlockSlots | heatzone-profile.js:219-229 | a grid block with From before To paints exactly [StartSlot(From), EndSlot(To)) and its times are its slots' times |
| Codec.NormalChain | heatzone-profile.js:212-236 | the painted runs of a normal-form list split the day 0..96 into consecutive non-empty intervals |
| Codec.NormalRuns | heatzone-profile.js:212-236 | a normal-form list decodes to a row whose minimal run-length form is the list's painted runs |
| Codec.PaintedSlot | heatzone-profile.js:215-232 | when the painted runs split the day, every slot of run k decodes to block k's TempID |
| Codec.DecodeNormalSlots | heatzone-profile.js:212-236 | decoding a normal-form list puts block k's TempID on exactly its slots |
| Codec.EncodeDecodeNormal | heatzone-profile.js:166-236 | a normal-form block list comes back unchanged from EncodeDay(Decode(bs)) |
| Codec.EncodeNormalForm | heatzone-profile.js:166-203 | the encoder's output for a 96-slot row is in normal form |
| Codec.DecodeExample | heatzone-profile.js:212-236 | 0:00-6:00 mode 1, 6:00-22:00 mode 2, 22:00-24:00 mode 1 decode to slots 0..23 = 1, 24..87 = 2, 88..95 = 1, and re-encode to the same three blocks |
| Clock.GridSlot | heatzone-profile.js:169-171 | a grid time is the start and the end of one slot index, whose time is itself |
| Clock.GridBefore | heatzone-profile.js:219-220 | on the grid, an earlier time has the smaller slot index |
| Clock.GridInterval | heatzone-profile.js:219-229 | two grid times, the first earlier, bound a non-empty slot interval inside the day |
| Values.DigitRun | heatzone-profile.js:930 | parseFloat's scan takes the longest run of leading digits |
| Values.ParseFloatText | heatzone-profile.js:930-938 | parseFloat of the empty text is NaN, and of a non-empty all-digit text is its decimal value |
| Values.ParseFloat | heatzone-profile.js:930-938 | a number payload is taken as it is; an array, a boolean, null or an object gives NaN |
| Values.IsActivated | heatzone-profile.js:942 | a boolean payload is the flag itself; a string switches on only as "true", a number only as 1; arrays, null and objects read as off |
| Values.FloatJson | heatzone-profile.js:133 | JSON round trip of a temperature: a number stays that number, NaN becomes null |
| Values.ParseFloatJson | heatzone-profile.js:133 | parseFloat of a published temperature, as received, is the same temperature |
| Values.DigitRunAll | heatzone-profile.js:930 | on an all-digit text the digit scan takes the whole text |
| Topics.SubtopicsAreFieldNames | heatzone-profile.js:23-38 | the subscription list has 14 entries, the i-th naming the i-th field, and it names every field |
| Topics.ParseField | heatzone-profile.js:924-955 | the switch yields only fields that exist: setpoints 1..4 and day rows 0..6 |
| Topics.DayFields | heatzone-profile.js:945-951 | Day1..Day7 address rows 0..6, in order |
| Topics.ParseFieldName | heatzone-profile.js:924-951 | the handler's switch selects each field for that field's subtopic name |
| Topics.ParseFieldOnlyNames | heatzone-profile.js:924-955 | the switch selects a field only for its exact name; anything else takes the default branch |
| Topics.ParseSubtopic | heatzone-profile.js:23-38 | the i-th subscribed subtopic selects the i-th field (Temp1..4, TempAway, TempHoliday, Activated, Day1..7 as rows 0..6) |
| Topics.SubtopicsRecognised | heatzone-profile.js:23-38 | every subscribed subtopic is handled by the switch |
| Topics.Subtopic | heatzone-profile.js:903-906 | a subtopic is extracted exactly when the topic starts with the lower-cased "topic/profile/" prefix |
| Topics.ProfileTopic | heatzone-profile.js:827 | the client's prefix has the length of topic, a slash and profile, with the slash right after topic |
| Topics.FullTopic | heatzone-profile.js:96 | a full topic is the prefix, '/' and exactly the subtopic |
| Topics.BaseTopic | heatzone-profile.js:903 | the handler's accepted prefix is the client's topic prefix followed by '/' |
| Topics.Route | heatzone-profile.js:903-955 | a topic outside the prefix routes nowhere; a routed field is valid and is what the switch selects for the text after the prefix |
| Topics.FullTopicRoutes | heatzone-profile.js:96 | a subtopic's full topic, lower(topic+"/"+profile)+"/"+s (lines 96 and 827), passes the prefix check at lines 903-906, s is the text extracted, and the switch sees s |
| Topics.OutsidePrefixIgnored | heatzone-profile.js:904 | a topic outside the prefix routes to no field |
| Profile.EncodeWeek | heatzone-profile.js:161-207 | the week has seven block lists, day d being the encoding of row d |
| Profile.MatrixToJSON | heatzone-profile.js:150-209 | the result holds the four setpoints, away, holiday, the flag, and Day1..Day7 encoded from the first seven rows |
| Profile.PublishOrder | heatzone-profile.js:1058-1068 | a save publishes on exactly the 14 subscribed subtopics, in subscription order, and each Day payload is that day's block list |
| Profile.PublishMessages | heatzone-profile.js:1058-1068 | a save makes 14 publish calls, the seventh carrying Activated as a boolean, and each Day call an array payload |
| Remote.ReplaceRow | heatzone-profile.js:918-920 | the mapped matrix has the same rows except row dayIndex, which is the new day |
| Remote.SetScalar | heatzone-profile.js:926-943 | a scalar case sets exactly its own field (TempN the n-th setpoint, TempAway the away and TempHoliday the holiday temperature, Activated the flag) and keeps every other field and the matrix |
| Remote.DayUpdate | heatzone-profile.js:916-917 | a Day payload yields a new day exactly when it is an array, and that day has 96 slots |
| Remote.ApplyRemote | heatzone-profile.js:924-951 | a field update keeps the number of rows, and a scalar field never touches the matrix |
| Remote.Receive | heatzone-profile.js:900-959 | a message whose topic routes to no field leaves the state as it is; any message keeps the number of rows |
| Remote.DayFrame | heatzone-profile.js:915-922 | DayK with an array replaces only row K-1, with the decoded day; every other row and every scalar is unchanged; a non-array changes nothing |
| Remote.ActivatedFrame | heatzone-profile.js:941-943 | Activated becomes true iff the value is true, 'true' or 1, and nothing else changes |
| Remote.TemperatureFrame | heatzone-profile.js:926-939 | TempN, TempAway and TempHoliday each set only their own field, to parseFloat of the value |
| Remote.TextTemperature | heatzone-profile.js:930-938 | a temperature sent as the decimal text of a whole number sets the same value as the number itself |
| Remote.UnroutedIgnored | heatzone-profile.js:953-955 | a topic outside the prefix or an unknown subtopic leaves the state as it is |
| Remote.LastWriteWins | heatzone-profile.js:924-956 | a second update of a field overrides the first (for DayN, when its value is an array) |
| Remote.DistinctFieldsCommute | heatzone-profile.js:924-956 | updates of two different fields commute |
| Remote.DayCommutesWithScalar | heatzone-profile.js:924-951 | a Day update and a scalar update commute |
| Remote.ScalarsCommute | heatzone-profile.js:926-943 | setting two different scalar fields commutes |
| Remote.ReplaceRowsCommute | heatzone-profile.js:918-920 | replacing two different rows commutes |
| Remote.LastWriteWinsExample | heatzone-profile.js:926-943 | Temp1=22.5, Activated=false, Temp1=19.0 leaves Temp1 at 19.0 and the flag cleared |
| Remote.MalformedDayInert | heatzone-profile.js:916 | a DayN payload that is a string changes nothing |
| Remote.EchoDay | heatzone-profile.js:915-922 | receiving a day's own encoding back leaves the schedule unchanged |
| Remote.EchoScalar | heatzone-profile.js:1058-1064 | each of the seven scalar messages of one's own save sets its field to the value it already has |
| Remote.EchoDayMessage | heatzone-profile.js:1066-1068 | each Day message of one's own save decodes to the row it was encoded from |
| Remote.EchoStep | heatzone-profile.js:1058-1068 | receiving any one message of one's own save leaves the schedule unchanged |
| Remote.SaveEchoIsIdentity | heatzone-profile.js:1044-1071 | receiving all 14 messages of one's own save, in order, leaves the schedule exactly as it was |
| Remote.EchoSuffix | heatzone-profile.js:1058-1068 | receiving any suffix of one's own save leaves the schedule unchanged |
| Card.DragPreview | heatzone-profile.js:1018-1030 | the preview has the snapshot's shape; a cell inside the inclusive min/max rectangle holds the mode, and every other cell holds its snapshot value |
| Card.DragPreviewAtStart | heatzone-profile.js:1008-1010 | a drag still at its start cell paints exactly that cell, as mouse-down does |
| Card.DragPreviewSymmetric | heatzone-profile.js:1019-1022 | the rectangle does not depend on which corner the drag started at |
| Card.DragBackShrinks | heatzone-profile.js:1015-1031 | a cell an earlier move painted that lies outside the current rectangle is back at its snapshot value |
| Card.DragShrinkExample | heatzone-profile.js:1015-1031 | start at slot 10, move to 20, back to 5: exactly slots 5..10 of day 0 hold the mode; every other slot of day 0 (11..20 included) and every other day is as it was |
| Card.HeatingProfileCard.constructor | heatzone-profile.js:590-609 | the defaults: setpoints 23/20/18/5, away 20, holiday 5, active, mode 0, not drawing, seven rows of 96 zeros |
| Card.HeatingProfileCard.RequestUpdate | heatzone-profile.js:958 | every explicit requestUpdate() call is counted |
| Card.HeatingProfileCard.UpdateMatrix | heatzone-profile.js:915-922 | the state after updateMatrix is the DayK update of the previous state |
| Card.HeatingProfileCard.ApplyField | heatzone-profile.js:924-951 | a recognised field's case leaves exactly the state the field update prescribes |
| Card.HeatingProfileCard.Dispatch | heatzone-profile.js:924-958 | a recognised subtopic updates its field and requests a render; any other subtopic changes nothing and requests none |
| Card.HeatingProfileCard.HandleMQTTMessage | heatzone-profile.js:900-959 | the new state is the received update of the old one, and a render is requested iff the topic routes to a field; the frame excludes the configuration and the drawing state |
| Card.HeatingProfileCard.HandleMouseDown | heatzone-profile.js:1004-1013 | drawing starts at the cell, the snapshot is the old matrix, only the start cell is painted, and a render is requested |
| Card.HeatingProfileCard.HandleMouseMove | heatzone-profile.js:1015-1032 | while drawing, the matrix becomes the snapshot with the rectangle to this cell painted and a render is requested; otherwise nothing changes; only the matrix and the counter are in the frame |
| Card.HeatingProfileCard.HandleMouseUp | heatzone-profile.js:1034-1038 | drawing stops and the start and snapshot are cleared; the matrix stays |
| Card.HeatingProfileCard.SelectMode | heatzone-profile.js:1213-1216 | a mode button selects its mode and requests a render |
| Card.HeatingProfileCard.PublishToMQTT | heatzone-profile.js:1044-1071 | disconnected: nothing is published; connected: the 14 messages of matrixToJSON on the current state, in order |
| Card.DragShrinkScenario | heatzone-profile.js:1004-1038 | a drag in mode 2 from slot 10 to 20 and back to 5 leaves exactly slots 5..10 of day 0 at 2; every other slot of day 0 and every other day is as before |
| Card.RepeatedMoveScenario | heatzone-profile.js:1015-1032 | a repeated identical move leaves the matrix the first move produced |
| Card.RemoteUpdateDuringDrag | heatzone-profile.js:1015-1032 | whatever message arrives mid-drag, a remote Day update included, the next move leaves exactly the preview of the mouse-down snapshot |

## Left out

- The MQTT client class (heatzone-profile.js:12-147) is left out. It covers connecting, subscribing, the Paho library, retained messages and reconnection, all of which are transport I/O. Of it the model keeps only the topic strings at lines 96 and 132.
- The config fetch, the script loading, the timer polling and the Lit lifecycle are left out: they are I/O, asynchronous work and rendering.
- Lit's implicit re-render when a reactive property is assigned (the properties declared at heatzone-profile.js:240-263) is not counted by `updates`: only explicit `requestUpdate()` calls are. So `handleMouseUp` (lines 1034-1038), which renders by assigning `isDrawing`, leaves the counter as it is.
- Rendering, CSS, `getModeColor`/`getModeLabel`, `toFixed`, flipping and the settings inputs are left out: they are UI.
- `JSON.parse` of a payload is left out. The handler receives the already parsed value; a value that fails to parse arrives as `Str` of its text.
- Values.ParseFloatText: covers an optional sign, digits and an optional fraction. It does not cover leading whitespace, exponents, "Infinity", or the string conversion of arrays and objects; every non-number, non-string payload reads as NaN.
- Temperatures are exact reals. IEEE 754 rounding is not modelled.
- Util.Lower: lower-cases ASCII letters only. Unicode case mapping is not modelled.
- Codec.JsonToMatrix: a block's From and To are already-parsed integer times. For a malformed time, Number() gives NaN and the block paints nothing, except when the To's hour reads 24 ("24:xx" with a non-numeric minute, or "24" alone): lines 223-225 then set the end slot to 96, so a well-formed From still paints up to the end of the day; the exception for a block without From or To (lines 216-217) is not modelled either.
- Clock.ParseNumber: accepts digit strings only. Number()'s handling of whitespace, signs and fractions is not modelled.
- Profile.MatrixToJSON: requires at least seven rows and four setpoints, because the source would otherwise read undefined entries. The card always passes seven rows and four setpoints.
- Card.HeatingProfileCard.HandleMouseDown, HandleMouseMove: require the cell to be on the grid. The grid only produces such cells, and an off-grid day would make the source throw.
- Card.HeatingProfileCard.PublishToMQTT: the `alert` shown while disconnected is not modelled, and the client's JSON serialisation is replaced by the payload as a receiver parses it.
