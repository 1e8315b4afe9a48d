# EE-LoveButton usermod, modelled in Dafny

The EE-LoveButton usermod for the WLED LED controller watches one pushbutton
wired to pin 0 of an MCP23008 I2C GPIO expander. WLED calls the usermod's
`loop()` over and over. Each call compares the pin with the stored level
`buttonState`, stores a changed level and counts every change to HIGH as a
press in `pressCount`. When the count reaches `pressesToLove`, the usermod
applies the preset `lovePreset` and sets the count back to 0. The two settings
are saved into, and loaded from, the usermod's object in WLED's settings tree
(`addToConfig()` / `readFromConfig()`); a missing setting takes the default 10.

Two modules:

- `WledJson` (`wled_json.dfy`) holds the slice of WLED's JSON configuration the
  usermod touches. The root object is the class `ConfigRoot`; each usermod's
  object is a map from setting name to an optional 16-bit value, where `None`
  is JSON null. It also holds the three-argument `getJsonValue` semantics.
- `EELoveButton` (`ee_love_button.dfy`) holds the usermod:
  - `Usermod` is a snapshot of its fields.
  - `Step` is one `loop()` call on a snapshot; `Run` is a sequence of calls.
  - `ReadConfig` and `WriteConfig` are the two configuration operations on
    values.
  - The class `EELoveButtonUsermod` has the same fields and the methods
    `Setup`, `Loop`, `AddToConfig` and `ReadFromConfig`. Each method's
    postcondition ties its new state to the matching function. The ghost field
    `applied` logs, in order, every preset index `loop()` passed to `applyPreset`.
  - The lemmas state the behaviour of `loop()` and of the configuration pair.

What the host supplies becomes parameters:

- `strip.isUpdating()` becomes `stripUpdating`.
- The two `mcp.digitalRead(0)` results of one `loop()` become `firstRead` and
  `secondRead` (HIGH is `true`).
- The result of `mcp.begin_I2C()` becomes the argument `begun` of `Setup`.
- `applyPreset(lovePreset)` becomes an entry appended to the ghost log: the index it receives.

`loop()` reads the pin twice (`EELoveButton.cpp:77-78`). The comparison with
`buttonState` uses the first read. The stored level and the HIGH test use the
second read. `StepBounceCountsPress` shows what this does when the line
bounces between the two reads: with HIGH stored, a first read of LOW and a
second read of HIGH count a press, although the stored level never left HIGH.
The press properties are stated for polls whose two reads agree.

`pressCount` is a C++ `int`. The counter never leaves `[0, 65534]`: `CountFits`
holds from construction on and every `loop()` keeps it, even when the threshold
is changed between calls by `readFromConfig()`. So the increment cannot
overflow, and the model uses unbounded integers for it. When the threshold is
0, every press applies the preset.

`buttonState` is written only when the first read differs from it.

`applyPreset` takes its preset index as a `byte` in WLED, so the 16-bit
`lovePreset` reaches it as its low 8 bits (`PresetIndex`); the ghost log holds
those indices. WLED's declaration of `applyPreset` is not part of this model.

## Model

| member | source | states |
|---|---|---|
| `EELoveButton.Step` | usermods/EELoveButton/EELoveButton.cpp:69-91 | one `loop()` never changes `mcpConnected`, `pressesToLove` or `lovePreset`, applies either nothing or the index of `lovePreset` once, and keeps the counter within `[0, 65534]` |
| `EELoveButton.Run` | usermods/EELoveButton/EELoveButton.cpp:69-91 | over any sequence of `loop()` calls the same three fields are unchanged, no more presets are applied than there are calls, every applied index is that of `lovePreset`, and the counter stays within `[0, 65534]` |
| `EELoveButton.PresetIndex` | usermods/EELoveButton/EELoveButton.cpp:86 | the index passed to `applyPreset` agrees with `lovePreset` modulo 256 and equals it when it is below 256 |
| `EELoveButton.StepGuard` | usermods/EELoveButton/EELoveButton.cpp:72-74 | while the strip is updating, or with the expander not connected, `loop()` changes no field and applies no preset |
| `EELoveButton.StepNoChange` | usermods/EELoveButton/EELoveButton.cpp:77 | a first read equal to `buttonState` changes no field and applies no preset, whatever the second read |
| `EELoveButton.StepRelease` | usermods/EELoveButton/EELoveButton.cpp:77-79 | a HIGH-to-LOW change stores LOW, leaves the counter alone and applies nothing |
| `EELoveButton.StepPressBelowThreshold` | usermods/EELoveButton/EELoveButton.cpp:79-84 | a LOW-to-HIGH change with `pressCount + 1 < pressesToLove` stores HIGH, adds exactly 1 to the counter and applies nothing |
| `EELoveButton.StepPressAtThreshold` | usermods/EELoveButton/EELoveButton.cpp:84-88 | a LOW-to-HIGH change with `pressCount + 1 >= pressesToLove` applies the index of `lovePreset` exactly once and sets the counter to 0 |
| `EELoveButton.StepBounceCountsPress` | usermods/EELoveButton/EELoveButton.cpp:77-80 | with HIGH stored, reads of LOW then HIGH keep HIGH stored and still count a press (or apply the preset and reset the count) |
| `EELoveButton.StepStoresSecondRead` | usermods/EELoveButton/EELoveButton.cpp:77-78 | when the first read differs from `buttonState`, the stored level becomes the second read |
| `EELoveButton.StepKeepsCountBelowThreshold` | usermods/EELoveButton/EELoveButton.cpp:79-88 | one call keeps "`pressCount` is 0 or below `pressesToLove`" |
| `EELoveButton.RunKeepsCountBelowThreshold` | usermods/EELoveButton/EELoveButton.cpp:79-88 | starting from a count of 0 (the initial value at line 24) or below the threshold, after any sequence of calls the count is 0 or below `pressesToLove`, threshold 0 included |
| `EELoveButton.RunDisconnected` | usermods/EELoveButton/EELoveButton.cpp:74 | with the expander not connected, no sequence of calls changes anything or applies a preset |
| `EELoveButton.RunSteady` | usermods/EELoveButton/EELoveButton.cpp:77 | calls whose first read always equals the stored level change nothing and apply nothing, however many there are |
| `EELoveButton.RunCountsPresses` | usermods/EELoveButton/EELoveButton.cpp:77-88 | with clean reads, the count before plus the LOW-to-HIGH changes among the sampled levels equals the threshold times the presets applied plus the count after; the stored level ends as the last sampled level |
| `EELoveButton.TriggerDeterminism` | usermods/EELoveButton/EELoveButton.cpp:77-88 | from the initial state (HIGH stored, count 0, lines 23-24) with a connected expander and threshold `N >= 1`, N (LOW, HIGH) pairs apply the index of `lovePreset` exactly once, at the last HIGH, and end in the initial state again |
| `WledJson.GetJsonValue` | usermods/EELoveButton/EELoveButton.cpp:118 | a null element leaves the default and reports false; a present value is taken and reports true |
| `WledJson.Member` | usermods/EELoveButton/EELoveButton.cpp:119-120 | `top[key]` holds a value exactly when the object is not null, has the key and the value is not null, and then it is the stored value |
| `WledJson.SectionOf` | usermods/EELoveButton/EELoveButton.cpp:114-116 | the usermod's object is null exactly when the root has no member of that name |
| `EELoveButton.ReadConfig` | usermods/EELoveButton/EELoveButton.cpp:112-123 | each setting is its stored value, or 10 when the object or the value is missing or null; a complete read implies the object exists |
| `EELoveButton.WriteConfig` | usermods/EELoveButton/EELoveButton.cpp:98-105 | the usermod's object is replaced by one holding exactly the two settings with the current values; every other member of the root is kept |
| `EELoveButton.ConfigRoundTrip` | usermods/EELoveButton/EELoveButton.cpp:98-123 | reading back what `addToConfig()` wrote restores both settings and reports a complete read |
| `EELoveButton.ConfigMissingSection` | usermods/EELoveButton/EELoveButton.cpp:114-122 | without the usermod's object both settings become 10 and the read reports incomplete |
| `EELoveButton.ConfigMissingPresses` | usermods/EELoveButton/EELoveButton.cpp:119 | a missing or null threshold setting becomes 10 and the read reports incomplete; the preset setting is read independently |
| `EELoveButton.ConfigMissingPreset` | usermods/EELoveButton/EELoveButton.cpp:120 | a missing or null preset setting becomes 10 and the read reports incomplete; the threshold setting is read independently |
| `EELoveButton.ConfigCompleteIff` | usermods/EELoveButton/EELoveButton.cpp:116-122 | the read reports complete if and only if the object and both settings hold values, and then the settings are those values |
| `EELoveButton.EELoveButtonUsermod.constructor` | usermods/EELoveButton/EELoveButton.cpp:19-28 | not connected, HIGH stored, count 0, both settings 10, nothing applied |
| `EELoveButton.EELoveButtonUsermod.Setup` | usermods/EELoveButton/EELoveButton.cpp:47-54 | `mcpConnected` becomes exactly the result of `begin_I2C()`; nothing else changes |
| `EELoveButton.EELoveButtonUsermod.Loop` | usermods/EELoveButton/EELoveButton.cpp:69-91 | the new fields are `Step` of the old ones, the log grows by exactly the presets `Step` applies, the three settings fields are unchanged, and the counter stays within `[0, 65534]` |
| `EELoveButton.EELoveButtonUsermod.AddToConfig` | usermods/EELoveButton/EELoveButton.cpp:98-105 | the root becomes `WriteConfig` of the old root with the current settings |
| `EELoveButton.EELoveButtonUsermod.ReadFromConfig` | usermods/EELoveButton/EELoveButton.cpp:112-123 | both settings and the result are those of `ReadConfig` on the root; the counter, stored level, connection flag and log are unchanged |
| `EELoveButton.SaveThenLoad` | usermods/EELoveButton/EELoveButton.cpp:98-123 | saving then loading on the same root reports a complete read and gives back the same fields |

## Left out

- The MCP23008 driver (`begin_I2C`, `digitalRead`) is bus I/O behind a library: its results are parameters.
- `strip.isUpdating()` and `applyPreset()` belong to the host: the first is a parameter, the second an entry in a ghost log.
- `Serial` diagnostics (lines 50-52 and 81-85) do not affect any state.
- ArduinoJson and the flash-string helpers (`createNestedObject`, `FPSTR`, `F`, `PROGMEM`) are abstracted to maps, and WLED's `getJsonValue` to its documented semantics. Converting a string, a float or an out-of-range number to `uint16_t` is not modelled: stored values are already 16-bit.
- `ConfigRoundTrip` and `SaveThenLoad` hold for a document with room: the maps are unbounded, so the case of a full ArduinoJson memory pool, where `createNestedObject` returns a null object, the writes at lines 103-104 do nothing and the read back yields the defaults and false, is not modelled.
- A root member of the usermod's name that is not an object is not modelled; an absent member stands for every null case.
- `getId()` returns a constant. The static instance and `REGISTER_USERMOD` are host plugin registration.
- The unused `_enabled` declaration is not modelled.
- A revert timeout, a "normal" preset, an enabled flag and debouncing are absent from this code, so they are absent from the model too.
