# Rebuli RF Bridge — a Dafny model of the decoder, the device engine and the allow-list

The Rebuli RF Bridge integration connects an RF receiver to Home Assistant. The
receiver publishes 32-bit codes over MQTT. The integration decodes each code
into a typed sensor reading. It then creates or updates a sensor entity for
the device. A momentary binary sensor (a doorbell or a motion pulse) can switch
itself off again after a timeout.

This project models the three pieces of that integration that hold logic, and
proves their properties:

- `parsers.dfy` (module `Parsers`) is the 32-bit decoder `decode_32bit_sensor`.
  It covers the three bit fields, the selector table, the sign extension of
  temperatures, the per-kind scaling and the binary flag bits. Values are exact
  (`real` for `/ 100.0` and `/ 10.0`, `int` for pass-through, `bool` for binary).
  An `Encode` function packs fields into a code. The decoder is proved to
  invert it.
- `entity_keys.dfy` (module `EntityKeys`) is the entity key
  `"{sensor_type}_{device_id:04X}"`. `Hex4` is read back by `HexValue`, and the
  key is proved injective in the kind and the device id.
- `mqtt_handler.dfy` (module `MqttHandler`) is `message_received`, the two
  entity classes' `update_state`, `_auto_reset` and `_unit`, as a state
  machine. The `ENTITIES` dictionary is a `map<string, Device>`. A message is a
  `Message` event carrying the integer code (or `None` when the JSON envelope
  was unusable), the allow-list in force and whether the entity platform could
  be obtained. An asyncio auto-off task is a token stored on the binary sensor.
  The asyncio task finishing its sleep is a `TimerFire` event naming that token. Log
  lines, the `unknown_code` bus event and the platform calls are `Notice`s.
  An invariant (`Valid`) is proved to hold after any sequence of events. It
  says each entity sits under the key derived from its own kind and id, its
  value matches its class, only auto-off sensors hold tasks, and no two
  entities share a task.
- `config_flow.dfy` (module `ConfigFlow`) is the allow-list expression
  `[s.strip().upper() for s in text.split(",") if s.strip()]` (`ParseIds`).
  Both flow steps use it. The options form shows the stored list back as
  `", ".join(ids)` (`JoinIds`). `split` is proved inverse to joining with
  commas. Parsing a rendered list gives the list back, so re-saving the
  options form unchanged keeps the stored options.
- `wrappers.dfy` (module `Wrappers`) holds the `Option` type.

Points where the behaviour of the code is easy to misread:

- Negative codes are masked with `code & 0xFFFFFFFF`, not rejected, so a
  negative code decodes like its residue modulo 2^32
  (`Parsers.DecodeNegative`). Only codes of 2^32 or more are rejected.
- An auto-off binary sensor's first reading creates the entity without a task
  (mqtt_handler.py lines 65 and 117). A first "on" reading therefore stays on
  until that device's next message (`MqttHandler.FirstOnReadingStaysOn`).
- Both rejection paths of `decode_32bit_sensor` (a code of 2^32 or more, and
  the "unknown" selector) return `None`, and the handler raises one
  `unknown_code` event either way. The "unknown" selector branch cannot be
  reached from a 32-bit code (`Parsers.Decode` yields a reading for every code
  below 2^32).
- The temperature unit string in the source is the mojibake `Â°C`
  (U+00C2 U+00B0 `C`). `MqttHandler.Unit` keeps it as written.

## Model

| member | source | states |
|---|---|---|
| `Parsers.KindOf` | custom_components/rebuli_rf_bridge/parsers.py:11-22 | the selector table names a kind exactly for selectors 0..7, and reading a kind back through `SelectorOf` gives the selector; any other selector is "unknown" |
| `Parsers.SelectorField` | custom_components/rebuli_rf_bridge/parsers.py:7 | for a code below 2^32 the selector is the code divided by 2^29, the mask changing nothing |
| `Parsers.DeviceField` | custom_components/rebuli_rf_bridge/parsers.py:8 | the device id is bits 13 to 28: the code below 2^29, divided by 2^13 |
| `Parsers.RawField` | custom_components/rebuli_rf_bridge/parsers.py:9 | the payload is the low 13 bits: the code minus the payload is a multiple of 2^13 |
| `Parsers.SignExtend13` | custom_components/rebuli_rf_bridge/parsers.py:25-26 | the sign-extended payload lies in [-4096, 4095], its 13-bit two's-complement pattern is the payload, and a payload without bit 12 is unchanged |
| `Parsers.MakeReading` | custom_components/rebuli_rf_bridge/parsers.py:24-52 | temperature is the signed payload in hundredths, within [-40.96, 40.95]; humidity, voltage, current and battery are the payload in tenths, within [0, 819.1]; distance and power are the payload itself; binary is bit 0 with bit 1 as the auto-off flag; only binary readings carry an auto-off field or a boolean value |
| `Parsers.Decode` | custom_components/rebuli_rf_bridge/parsers.py:1-52 | a code of 2^32 or more decodes to nothing, every smaller code (negative ones included) decodes to a reading, and the auto-off field and boolean value appear exactly on binary readings |
| `Parsers.FieldsOfEncode` | custom_components/rebuli_rf_bridge/parsers.py:7-9 | the selector, device and payload fields of the code packed from `s`, `d` and `r` (`s * 2^29 + d * 2^13 + r`) are `s`, `d` and `r` |
| `Parsers.EncodeOfFields` | custom_components/rebuli_rf_bridge/parsers.py:7-9 | every code below 2^32 is the packing of its own three fields, so the field split loses nothing |
| `Parsers.DecodeEncode` | custom_components/rebuli_rf_bridge/parsers.py:7-22 | decoding a packed code recovers the kind and the device id exactly and derives the value from the packed payload |
| `Parsers.DecodeNegative` | custom_components/rebuli_rf_bridge/parsers.py:2-5 | a negative code is not rejected: it decodes like its residue modulo 2^32 |
| `Parsers.DecodeSamples` | custom_components/rebuli_rf_bridge/parsers.py:24-43 | code 0x2000 is temperature 0.0 of device 1; 0x42468003 is binary device 0x1234, on, with auto-off; payload 0x1FFF is -0.01 degrees; 2^32 is rejected |
| `EntityKeys.Hex4` | custom_components/rebuli_rf_bridge/mqtt_handler.py:49 | `{:04X}` gives exactly four upper-case hex digits, and reading them back gives the id |
| `EntityKeys.Hex4Injective` | custom_components/rebuli_rf_bridge/mqtt_handler.py:49 | distinct ids render to distinct four-digit strings |
| `EntityKeys.Hex4Unique` | custom_components/rebuli_rf_bridge/mqtt_handler.py:54 | any four upper-case hex digits that spell an id are exactly its `{:04X}` rendering |
| `EntityKeys.KindName` | custom_components/rebuli_rf_bridge/parsers.py:11-20 | every kind's table name is non-empty and has no underscore, so it ends where the key's underscore is |
| `EntityKeys.EntityKey` | custom_components/rebuli_rf_bridge/mqtt_handler.py:49 | the key is the kind name, an underscore, then four upper-case hex digits that spell the device id |
| `EntityKeys.EntityKeyInjective` | custom_components/rebuli_rf_bridge/mqtt_handler.py:49 | two readings share an entity key only when their kinds and device ids are both equal |
| `MqttHandler.NewDevice` | custom_components/rebuli_rf_bridge/mqtt_handler.py:64-67 | a new entity holds the reading's kind, id and value; it is a binary sensor exactly for binary readings, keeps the reading's auto-off bit (false when absent), and has no pending task |
| `MqttHandler.Truthy` | custom_components/rebuli_rf_bridge/mqtt_handler.py:143 | a reading value is truthy exactly when it is not 0.0, 0 or `False` |
| `MqttHandler.AdmitsSpelled` | custom_components/rebuli_rf_bridge/mqtt_handler.py:53-54 | a device is admitted exactly when the list is empty or some entry is four upper-case hex digits spelling its id |
| `MqttHandler.UpdateState` | custom_components/rebuli_rf_bridge/mqtt_handler.py:132-144 | an update stores the new value and keeps kind, id and auto-off; an auto-off sensor's old task is gone and a new one is pending exactly when the value is truthy; any other entity's task is untouched |
| `MqttHandler.Accept` | custom_components/rebuli_rf_bridge/mqtt_handler.py:47-71 | an admitted or refused reading never removes an entity, adds at most the one under its own key, and produces exactly one notice |
| `MqttHandler.Ingest` | custom_components/rebuli_rf_bridge/mqtt_handler.py:30-71 | a message never removes an entity, adds at most one, and produces exactly one notice |
| `MqttHandler.IngestAccepts` | custom_components/rebuli_rf_bridge/mqtt_handler.py:39-71 | a decoded code yields a reading whose value is boolean exactly for the binary kind, and the rest of the handler sees that reading unchanged |
| `MqttHandler.Fire` | custom_components/rebuli_rf_bridge/mqtt_handler.py:146-154 | a firing never adds or removes an entity and hands out no token |
| `MqttHandler.Unit` | custom_components/rebuli_rf_bridge/mqtt_handler.py:156-165 | every kind except binary has a unit label |
| `MqttHandler.PutPreservesValid` | custom_components/rebuli_rf_bridge/mqtt_handler.py:58-71 | storing a well-formed record under its own key, with no task another entity holds, keeps the engine invariant |
| `MqttHandler.AcceptPreservesValid` | custom_components/rebuli_rf_bridge/mqtt_handler.py:47-71 | every decoded reading, admitted or refused, keeps the engine invariant |
| `MqttHandler.IngestPreservesValid` | custom_components/rebuli_rf_bridge/mqtt_handler.py:30-71 | every message keeps the engine invariant: keys derived from records, values matching the class, tasks only on auto-off sensors, no task shared |
| `MqttHandler.FirePreservesValid` | custom_components/rebuli_rf_bridge/mqtt_handler.py:146-154 | every firing keeps the engine invariant |
| `MqttHandler.StepPreservesValid` | custom_components/rebuli_rf_bridge/mqtt_handler.py:30-154 | every event keeps the engine invariant |
| `MqttHandler.RunPreservesValid` | custom_components/rebuli_rf_bridge/mqtt_handler.py:30-154 | the invariant holds after any sequence of messages and firings, so each entity has at most one live task at any time |
| `MqttHandler.InitValid` | custom_components/rebuli_rf_bridge/mqtt_handler.py:14 | the empty `ENTITIES` map the engine starts from satisfies the invariant |
| `MqttHandler.MalformedMessageIgnored` | custom_components/rebuli_rf_bridge/mqtt_handler.py:32-37 | a message without a usable integer code changes no entity and raises no `unknown_code` event |
| `MqttHandler.UnknownCodeReported` | custom_components/rebuli_rf_bridge/mqtt_handler.py:42-45 | the decoder rejects exactly the codes of 2^32 or more; such a code changes nothing and raises exactly one `unknown_code` event carrying the code as received; no other code raises one |
| `MqttHandler.AllowListFilter` | custom_components/rebuli_rf_bridge/mqtt_handler.py:53-56 | a decoded reading is ignored exactly when the allow-list is non-empty and lacks the id's four hex digits; ignoring changes nothing; an empty list admits every id |
| `MqttHandler.AllowListSample` | custom_components/rebuli_rf_bridge/mqtt_handler.py:49-56 | a list holding "0A1B" admits device 0x0A1B and refuses 0x0A1C; binary device 0x1234 is keyed "binary_1234" |
| `MqttHandler.CreateOnFirstSight` | custom_components/rebuli_rf_bridge/mqtt_handler.py:58-69 | an admitted reading for an unseen key adds exactly that one entity, with the reading's value and kind and no task (a binary one keeps the auto-off bit), leaving the others alone; without a platform nothing changes and an error is reported |
| `MqttHandler.UpdateInPlace` | custom_components/rebuli_rf_bridge/mqtt_handler.py:70-71 | an admitted reading for a known key changes only that entity: it takes the new value and keeps its class, kind, id and auto-off flag; platform availability plays no part |
| `MqttHandler.BinaryUpdateTimer` | custom_components/rebuli_rf_bridge/mqtt_handler.py:136-144 | after a binary update an auto-off sensor has a task exactly when the reading is on, a sensor without auto-off has none, and the task it had before can no longer fire |
| `MqttHandler.AcceptKeepsStale` | custom_components/rebuli_rf_bridge/mqtt_handler.py:58-71 | a reading never gives a stale token (handed out, held by no entity) back to an entity |
| `MqttHandler.StepKeepsStale` | custom_components/rebuli_rf_bridge/mqtt_handler.py:132-154 | no event brings a stale token back: new tasks always get fresh tokens |
| `MqttHandler.RunKeepsStale` | custom_components/rebuli_rf_bridge/mqtt_handler.py:136-154 | after any sequence of events a stale token is still stale, so firing it changes nothing: a cancelled task never switches a sensor off |
| `MqttHandler.SupersededTaskNeverFires` | custom_components/rebuli_rf_bridge/mqtt_handler.py:136-154 | the task a binary update cancels or replaces changes nothing when it fires, after any later sequence of events |
| `MqttHandler.FireEffect` | custom_components/rebuli_rf_bridge/mqtt_handler.py:146-154 | a firing changes the state exactly when its token is the entity's pending task; it then switches that entity off, clears the task and touches nothing else |
| `MqttHandler.FirstOnReadingStaysOn` | custom_components/rebuli_rf_bridge/mqtt_handler.py:58-71 | an "on" reading that creates an auto-off binary sensor leaves it on with no task, so no firing switches it off |
| `MqttHandler.SecondOnRestartsTimer` | custom_components/rebuli_rf_bridge/mqtt_handler.py:136-151 | two "on" readings arm two different tasks; the first one's firing does nothing, the second one's switches the sensor off |
| `MqttHandler.RepeatedReading` | custom_components/rebuli_rf_bridge/mqtt_handler.py:58-71 | delivering the same admitted reading twice creates no second entity and the second delivery leaves every entity's value as the first left it |
| `MqttHandler.RepeatedSensorReading` | custom_components/rebuli_rf_bridge/mqtt_handler.py:100-102 | for a non-binary reading the second delivery changes nothing at all |
| `MqttHandler.AcceptKeepsIdentity` | custom_components/rebuli_rf_bridge/mqtt_handler.py:58-71 | a reading removes no entity and changes no entity's class, kind, id or auto-off flag |
| `MqttHandler.StepKeepsIdentity` | custom_components/rebuli_rf_bridge/mqtt_handler.py:70-71 | one event removes no entity and changes no entity's class, kind, id or auto-off flag |
| `MqttHandler.RunKeepsIdentity` | custom_components/rebuli_rf_bridge/mqtt_handler.py:58-71 | entities are never destroyed, and their kind, id and auto-off flag never change after creation, over any sequence of events |
| `ConfigFlow.UpperChar` | custom_components/rebuli_rf_bridge/config_flow.py:13 | an upper-cased character is never a lower-case letter; lower-case letters move down by 32, everything else stays |
| `ConfigFlow.Upper` | custom_components/rebuli_rf_bridge/config_flow.py:13 | `upper` keeps the length and upper-cases each character in place |
| `ConfigFlow.UpperFacts` | custom_components/rebuli_rf_bridge/config_flow.py:13 | `upper` keeps the length, keeps whitespace and commas where they were, and leaves no lower-case letter |
| `ConfigFlow.UpperFixpoint` | custom_components/rebuli_rf_bridge/config_flow.py:13 | text is unchanged by `upper` exactly when it has no lower-case letter |
| `ConfigFlow.TrimLeft` | custom_components/rebuli_rf_bridge/config_flow.py:13 | `lstrip` never lengthens the text (what it keeps is stated by `TrimLeftSpec`) |
| `ConfigFlow.TrimLeftSpec` | custom_components/rebuli_rf_bridge/config_flow.py:13 | `lstrip` keeps a suffix of the text, everything it drops is whitespace, and what it keeps does not start with whitespace |
| `ConfigFlow.TrimRight` | custom_components/rebuli_rf_bridge/config_flow.py:13 | `rstrip` never lengthens the text (what it keeps is stated by `TrimRightSpec`) |
| `ConfigFlow.TrimRightSpec` | custom_components/rebuli_rf_bridge/config_flow.py:13 | `rstrip` keeps a prefix of the text, everything it drops is whitespace, and what it keeps does not end with whitespace |
| `ConfigFlow.Strip` | custom_components/rebuli_rf_bridge/config_flow.py:13 | `strip` never lengthens the text (what it keeps is stated by `StripSlice` and `StripEmpty`) |
| `ConfigFlow.StripSlice` | custom_components/rebuli_rf_bridge/config_flow.py:13 | what `strip` keeps is a slice of the text with only whitespace on either side, and it has no outer whitespace itself |
| `ConfigFlow.StripEmpty` | custom_components/rebuli_rf_bridge/config_flow.py:13 | `strip` leaves nothing exactly when the text is all whitespace (the `if s.strip()` filter) |
| `ConfigFlow.StripStripped` | custom_components/rebuli_rf_bridge/config_flow.py:13 | stripping text without outer whitespace changes nothing |
| `ConfigFlow.StripSpacePrefix` | custom_components/rebuli_rf_bridge/config_flow.py:13 | a leading whitespace character does not survive stripping |
| `ConfigFlow.Split` | custom_components/rebuli_rf_bridge/config_flow.py:13 | `split(",")` yields at least one piece, and no piece has a comma |
| `ConfigFlow.SplitJoinBack` | custom_components/rebuli_rf_bridge/config_flow.py:13 | joining the pieces of `split(",")` with commas gives the text back |
| `ConfigFlow.SplitConcat` | custom_components/rebuli_rf_bridge/config_flow.py:13 | the pieces of `a + "," + b` are the pieces of `a` followed by those of `b` |
| `ConfigFlow.SplitCommaFree` | custom_components/rebuli_rf_bridge/config_flow.py:13 | comma-free text splits into itself alone |
| `ConfigFlow.SplitJoin` | custom_components/rebuli_rf_bridge/config_flow.py:13 | splitting undoes joining with commas, for a non-empty list of comma-free pieces |
| `ConfigFlow.Entry` | custom_components/rebuli_rf_bridge/config_flow.py:13 | a piece contributes at most one entry to the list |
| `ConfigFlow.NormalPiece` | custom_components/rebuli_rf_bridge/config_flow.py:13 | a non-blank comma-free piece, stripped and upper-cased, is non-empty, without outer whitespace, comma-free and upper-case |
| `ConfigFlow.EntryNormal` | custom_components/rebuli_rf_bridge/config_flow.py:13 | a piece contributes nothing exactly when it is blank, and whatever it contributes is a normal id |
| `ConfigFlow.EntryOfNormal` | custom_components/rebuli_rf_bridge/config_flow.py:13 | a normal id, taken as a piece, contributes exactly itself |
| `ConfigFlow.Normalise` | custom_components/rebuli_rf_bridge/config_flow.py:13 | the comprehension yields no more entries than there are pieces |
| `ConfigFlow.NormaliseNormal` | custom_components/rebuli_rf_bridge/config_flow.py:13 | every entry the comprehension yields is a normal id |
| `ConfigFlow.ParseIds` | custom_components/rebuli_rf_bridge/config_flow.py:13 | every parsed id is non-empty, has no leading or trailing whitespace, has no comma and is upper-case |
| `ConfigFlow.JoinIds` | custom_components/rebuli_rf_bridge/config_flow.py:42 | the `", "`-joined rendering of a list of normal ids parses back to that list |
| `ConfigFlow.NormaliseConcat` | custom_components/rebuli_rf_bridge/config_flow.py:13 | the comprehension over two runs of pieces is the concatenation of the two results |
| `ConfigFlow.ParseIdsConcat` | custom_components/rebuli_rf_bridge/config_flow.py:13 | the ids of `a + "," + b` are the ids of `a` followed by those of `b`: order is kept and nothing is added |
| `ConfigFlow.ParseIdsPiece` | custom_components/rebuli_rf_bridge/config_flow.py:13 | comma-free text yields nothing when blank and otherwise exactly its stripped, upper-cased self |
| `ConfigFlow.ParseIdsEmpty` | custom_components/rebuli_rf_bridge/config_flow.py:13 | the list is empty (allow every device) exactly when the text has only whitespace and commas, the empty text included |
| `ConfigFlow.EntrySpacePrefix` | custom_components/rebuli_rf_bridge/config_flow.py:13 | a leading whitespace character does not change what a piece contributes |
| `ConfigFlow.ParseIdsSpacePrefix` | custom_components/rebuli_rf_bridge/config_flow.py:13 | leading whitespace in front of the text changes no id |
| `ConfigFlow.ParseJoinIds` | custom_components/rebuli_rf_bridge/config_flow.py:42-46 | parsing the `", "`-joined rendering of a list of normal ids gives the list back |
| `ConfigFlow.ParseIdsIdempotent` | custom_components/rebuli_rf_bridge/config_flow.py:42-46 | rendering and re-parsing a parsed list changes nothing |
| `ConfigFlow.Submit` | custom_components/rebuli_rf_bridge/config_flow.py:11-18 | a submitted form (the setup step, and the options step at lines 45-51, which does the same) stores the topic and timeout as given and an allow-list of normal ids |
| `ConfigFlow.OptionsForm` | custom_components/rebuli_rf_bridge/config_flow.py:39-43 | the options form is pre-filled with the stored topic and timeout, and its allow-list text parses back to the stored list |
| `ConfigFlow.OptionsFormResubmit` | custom_components/rebuli_rf_bridge/config_flow.py:36-51 | submitting the options form pre-filled from stored options, unchanged, stores the same options again |

## Left out

- MQTT plumbing is not modelled. That covers the subscription, `json.loads`, `int(data["code"])` and the log text. A message is modelled as the integer code or `None`. Python's `int()` also accepts numeric strings, floats and booleans; the model only sees the resulting integer.
- `wait_for_platform` and `async_add_entities` are not modelled. The five-attempt retry loop is one boolean ("the platform was found") on each message.
- Timing is not modelled. The asyncio task's sleep and the `auto_off_timeout` it reads when it runs are left out, so is the setup schedule in `__init__.py`. Firing is an explicit event, and a timer is a token.
- Concurrency is not modelled: each message is handled as one atomic step. In the source, two messages for the same unseen key can interleave while `wait_for_platform` is being awaited, and the entity would then be created twice. The model does not capture this.
- Fire: once the task has fired, the source still holds the finished task, while the model clears the pending token. Cancelling a finished task does nothing, so the two behave the same.
- Home Assistant presentation is not modelled: names, unique ids, `device_info`, device classes, `entity_id` prefixes and the values `async_write_ha_state` publishes. A state write is recorded only as a `StateWritten` notice.
- Python floats are modelled as exact reals. `raw / 100.0` and `raw / 10.0` are rounded in the source and exact in the model.
- `strip` and `upper` are modelled on ASCII only. Non-ASCII whitespace (such as U+00A0) is not stripped, and non-ASCII letters are not upper-cased. Python would do both.
- The voluptuous form schemas, `async_show_form` and `async_create_entry` are not modelled. Both flow steps are one function, `Submit`, because they store the same three fields computed the same way; the setup step passing them as `options=` and the options step as `data=` is entry plumbing. The options form is modelled as its pre-filled input.
- The `current.get(..., default)` fallbacks of the options form (config_flow.py lines 40-42) are not modelled: a stored `Options` record always has all three fields, so the defaults never apply to it.
