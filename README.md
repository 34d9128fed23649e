# Fingerprint safe: keypad, AS608 driver and session controller

This project models the control core of a Raspberry Pi Pico safe. The safe
has a 4x4 matrix keypad, an AS608 fingerprint sensor on a UART and a relay
that drives the lock. The project proves properties of that model in Dafny.

The model is organised in seven modules:

- `Common`: the byte and word types (`uint8`, `uint16`) and `Option`.
- `Frames`: the eight command frames that the builders in `as608.c` write,
  byte for byte. They are checked against an independent reference
  encoding of the AS608/ZFM packet layout, with its decoder.
  - `as608.c` has a header `EF 01`, the broadcast address `FF FF FF FF`,
    the identifier `01`, a big-endian length, the instruction, the payload
    and a big-endian 16-bit checksum.
- `As608`: the driver.
  - `Receive` models the bounded polling read `as608_read_response` as a
    function of a poll script and a deadline.
  - `Sensor` is a class with the driver's global `index` and a log of the
    frames written to the UART.
  - Its method `ReadResponse` fills the response array in place;
    `SendCommand` appends the frame to the log of sent frames.
  - One method per sensor operation builds the frame, sends it and returns
    the confirmation byte.
- `Keypad`: the pure helpers of `main.c`: `keyDecode`, `checkID`,
  `checkIDlector`, `checkPSW2`, and the password shift register as a value.
- `Keyboard`: the interrupt side of the keypad, with each handler as one
  atomic step.
  - This covers the row strobe, the column-edge capture, the debounce tick
    and the foreground's two-phase debounce block.
  - The spec functions are on a `Lines` value, and the class `Scanner`
    holds the same state in fields.
- `Safe`: the session state machine of `main.c` as values.
  - `KeyStep` is one decoded key through the password, slot and mode
    branches, in the order the loop tests them.
  - `Stage` is one pass of the fingerprint stage: the chosen task, the
    retry loop with its `rep`/`mala` counters, and the reset.
  - The stage yields a trace of sensor calls with their replies and relay
    switches.
  - The lemmas state what the safe guarantees about keys and traces.
- `Firmware`: the foreground of `main.c` over its globals, updated in
  place.
  - The class `Controller` holds the flags, the `hKeys` and `InPasswords`
    arrays, the sensor driver, the relay pin and a ghost log of events.
  - Each block of the main loop is a method proved against `Safe`.
  - `MainTurn`, one turn of `while (1)`, proves the trace guarantees about
    what the real driver sent.

The sensor's side of each command is an `Exchange`: the start time of the
read and the poll script it sees. The keypad's side of each pass of the
keypad loop is the GPIO level read by the debounce block, followed by at
most one interrupt.

Quirks of the code that the model keeps:

- After a wrong password the code stays in password entry with `key_cnt`
  at 0. It does not return to mode selection.
- An invalid key is not dropped.
  - It still counts towards `key_cnt`.
  - In slot and mode selection it acts as the last valid key (`hKeys[0]`)
    pressed again.
- Only slots 1..8 can be selected. `checkIDlector` scans eight entries, so
  key 9 is refused.
- The reset at the end of a stage does not clear the typed password,
  `hKeys`, `key_cnt` or `PasswordAcept`.
  - Because `PasswordAcept` stays set, every later opening gets stuck after
    its slot is chosen.
- The checksum covers bytes 6 onwards, from the packet identifier to the
  end of the payload. It does not start at the instruction.
- The response to the search command is 16 bytes long, and its
  confirmation is still read at index 9.

## Model

| member | source | states |
|---|---|---|
| Frames.Encode | as608.c:165-180 | The reference packet layout: a frame is its payload plus 12 bytes (header, address, identifier, length, instruction, checksum). |
| Frames.EncodeWellFormed | as608.c:165-180 | Every encoding starts EF 01 FF FF FF FF 01, has a length field equal to its length minus 9, and ends with the 16-bit sum of bytes 6 up to the checksum. |
| Frames.DecodeEncode | as608.c:165-180 | Round trip: decoding an encoded packet gives back the instruction and payload. |
| Frames.EncodeDecode | as608.c:165-180 | The other direction of the round trip: a frame that decodes is exactly the encoding of what it decodes to. |
| Frames.DecodedFields | as608.c:178-180 | In a frame that decodes, bytes 7-8 are the high and low bytes of length minus 9, and the last two bytes are the high and low bytes of the checksum. |
| Frames.GetImageIsEncoded | as608.c:122 | get_image's literal frame is the encoding of instruction 0x01 with an empty payload. |
| Frames.ImageToTemplateIsEncoded | as608.c:135 | For slot <= 0xF8, image_to_template's frame is the encoding of instruction 0x02 with payload [slot]. |
| Frames.CreateModelIsEncoded | as608.c:147 | create_model's frame is the encoding of instruction 0x05 with an empty payload. |
| Frames.StoreModelIsEncoded | as608.c:160-180 | For every id, store_model's frame is the encoding of instruction 0x06 with payload buffer 1, id high byte, id low byte. |
| Frames.SearchModelIsEncoded | as608.c:194-202 | search_model's frame, after its checksum loop, is the encoding of instruction 0x04 with payload 01 00 00 00 64. |
| Frames.DeleteModelIsEncoded | as608.c:217-228 | For every id, delete_model's frame is the encoding of instruction 0x0C with payload id high, id low, 00 01. |
| Frames.EmptyDatabaseIsEncoded | as608.c:243 | empty_database's frame is the encoding of instruction 0x0D with an empty payload. |
| Frames.FramesHaveHeaderAndLength | as608.c:91-243 | All eight frames, verify_password included, start EF 01 FF FF FF FF 01 and carry a length field equal to their length minus 9. |
| Frames.FramesChecksummed | as608.c:122-243 | The seven frames other than verify_password end with the big-endian 16-bit sum of bytes 6 up to the checksum (image_to_template for slot <= 0xF8, so for slots 1 and 2). |
| Frames.FramesDecode | as608.c:122-243 | Each of those seven frames decodes back to its instruction and payload. |
| Frames.VerifyPasswordSum | as608.c:91 | Bytes 6..13 of verify_password sum to 0x1B, so the sum rule asks for 00 1B. |
| Frames.VerifyPasswordChecksumMismatch | as608.c:91 | verify_password's hard-coded 10 1B breaks the sum rule, so the frame does not decode; it differs from the encoding of its own packet in byte 14 alone. |
| Frames.StoreModelId | as608.c:161-173 | store_model's frame is 15 bytes long and holds the id big-endian at bytes 11-12 (high * 256 + low == id). |
| Frames.DeleteModelId | as608.c:217-221 | delete_model's frame is 16 bytes long and holds the id big-endian at bytes 10-11. |
| Frames.ImageToTemplateSlot | as608.c:134-135 | image_to_template puts the slot at byte 10 and 0x07 + slot, truncated to a byte, at byte 12; its checksum is right exactly when slot <= 0xF8. |
| As608.Receive | as608.c:60-77 | A read that completes holds exactly `len` bytes and keeps the bytes already buffered as its prefix. |
| As608.ReceivedInArrivalOrder | as608.c:64-69 | A completed read holds the first `len` bytes in the order they arrived. |
| As608.TimeoutNeedsIdleLatePass | as608.c:64-75 | A timeout happens only on a pass where nothing was readable, the clock had reached the deadline and fewer than `len` bytes were in. |
| As608.LateBytesAccepted | as608.c:64-70 | Bytes keep being accepted after the deadline: a script of readable passes always completes the read. |
| As608.SilentLineTimesOut | as608.c:64-75 | A line on which nothing arrives times out once a pass reaches the deadline. |
| As608.ZeroMeansConfirmed | as608.c:70-80 | A result of 0 means that all bytes arrived and byte 9 was 0; a timeout returns -1 truncated to 0xFF, never 0. |
| As608.Checksum | as608.c:197-200 | The accumulator loop computes the 16-bit wrapping sum of `cmd[from..to)`. |
| As608.Sensor.constructor | as608.c:22 | The driver starts with `index` 0 and nothing sent. |
| As608.Sensor.SendCommand | as608.c:41-44 | Transmitting appends exactly the command's bytes, in order, to what was sent. |
| As608.Sensor.ReadResponse | as608.c:60-81 | Returns the confirmation of the read: on success `index == len` and `response[0..len)` holds the received bytes; on timeout `index == 0`; the rest of the buffer is untouched. |
| As608.Sensor.GetImage | as608.c:121-126 | Sends get_image's frame and returns the read's result for a 12-byte response unchanged; `index` ends at the response length after a complete read and at 0 after a timeout. |
| As608.Sensor.ImageToTemplate | as608.c:134-139 | Sends image_to_template's frame for the slot and returns the 12-byte read's result unchanged; `index` ends at the response length after a complete read and at 0 after a timeout. |
| As608.Sensor.CreateModel | as608.c:146-152 | Sends create_model's frame and returns the 12-byte read's result unchanged; `index` ends at the response length after a complete read and at 0 after a timeout. |
| As608.Sensor.StoreModel | as608.c:160-185 | Sends store_model's frame for the id and returns the 12-byte read's result unchanged; `index` ends at the response length after a complete read and at 0 after a timeout. |
| As608.Sensor.StoreModelCommand | as608.c:161-180 | The array store_model fills in (id bytes, then checksum bytes 13-14) is exactly its frame. |
| As608.Sensor.SearchModel | as608.c:193-207 | Fills in the checksum by its loop, sends search_model's frame and returns the read's result for a 16-byte response unchanged; `index` ends at the response length after a complete read and at 0 after a timeout. |
| As608.Sensor.DeleteModel | as608.c:216-233 | Fills in the checksum by its loop, sends delete_model's frame for the id and returns the 12-byte read's result unchanged; `index` ends at the response length after a complete read and at 0 after a timeout. |
| As608.Sensor.EmptyDatabase | as608.c:241-253 | Sends empty_database's frame and returns the 12-byte read's result unchanged; `index` ends at the response length after a complete read and at 0 after a timeout. |
| Keypad.KeyDecode | main.c:114-167 | The decoded key is 0xFF or a code below 0x10. |
| Keypad.DecodeKeyMask | main.c:114-167 | Every key code 0x00..0x0F has a mask that decodes to it. |
| Keypad.KeyMaskOfDecode | main.c:114-167 | Every accepted mask is the mask of the code it decodes to. |
| Keypad.KeyDecodeInjective | main.c:114-167 | No two masks decode to the same key code. |
| Keypad.KeyDecodeValid | main.c:114-167 | A value decodes exactly when it is a byte with one bit in the column nibble and one bit in the row nibble; every other input gives 0xFF. |
| Keypad.Find | main.c:177-185 | The linear search returns the first index of the key in range, or -1 exactly when the key is absent. |
| Keypad.CheckID | main.c:176-186 | checkID returns -1 or an index below 4. |
| Keypad.CheckIDFinds | main.c:176-186 | checkID returns the first of the four entries holding the key, and -1 exactly when none does. |
| Keypad.CheckIDlector | main.c:195-205 | checkIDlector returns -1 or a value in 1..8. |
| Keypad.CheckIDlectorFinds | main.c:195-205 | checkIDlector returns one more than the first of the first eight entries holding the key, and -1 exactly when none does. |
| Keypad.RowMatches | main.c:217-224 | The comparison loop with its early break holds exactly when every remaining entry of the row equals the typed key. |
| Keypad.CheckPsw2 | main.c:215-232 | checkPSW2 returns either the row index or -1. |
| Keypad.CheckPsw2Row | main.c:215-232 | checkPSW2 returns i exactly when `v[4i+j] == p[j]` for all j < 4. |
| Keypad.ShiftIn | main.c:97-101 | The password register stays four keys long; its contents are stated by TypingFourKeys and Firmware.Controller.InsertPswd. |
| Keypad.ModeTable | main.c:61 | With vecIDs, checkID maps A, B, C, D to 0..3 and refuses every other code. |
| Keypad.SlotTable | main.c:65 | With IDlector, checkIDlector accepts keys 1..8 as themselves and refuses 9 and every other code. |
| Keypad.TypingFourKeys | main.c:97-106 | Four keys shifted in leave the register holding them newest first, whatever it held before. |
| Keypad.User1Password | main.c:49-59 | User 1's row 4,3,2,1 accepts the typed keys 1,2,3,4 and no other four keys. |
| Keyboard.KeyData | main.c:367 | The byte decoded from a capture, GPIO 10..17 shifted down, lies in 0..255. |
| Keyboard.InitialValid | main.c:298-319 | The keypad's state after initialisation is one the handlers keep it in. |
| Keyboard.RowTickStrobesOneRow | main.c:257-261 | A row tick advances `gSeqCnt` modulo 4 and drives exactly that one of rows 10..13 high, leaving every other output pin alone. |
| Keyboard.CaptureFreezes | main.c:240-250 | A capture records the pins, raises `keyFlag`, stops the row tick, starts the debounce tick and masks all four column interrupts. |
| Keyboard.DebounceToggles | main.c:505-522 | Every debounce run flips `gDZero` and clears `keyDbnc`. |
| Keyboard.RearmOnlyOnSecondIdleSample | main.c:505-522 | From the frozen state, a debounce run re-arms the keypad (row tick and column interrupts on, debounce off) exactly when `gDZero` was set and columns 14..17 read 0; otherwise it stays frozen. |
| Keyboard.PwmIrqPreservesValid | main.c:255-270 | The PWM interrupt keeps the state valid, and the mask it reads is never 0x03; its default branch runs only on an empty mask and then changes nothing. |
| Keyboard.Scanner.constructor | main.c:354-358 | After start-up the scanner is in the initial state: rows low, row tick running, debounce tick off, all column interrupts on. |
| Keyboard.Scanner.KeyboardCallback | main.c:240-250 | The column-edge handler moves the globals by `Capture`. |
| Keyboard.Scanner.PwmIrqHandler | main.c:255-270 | The PWM handler moves the globals by `PwmIrq` for the pending mask. |
| Keyboard.Scanner.DebounceBlock | main.c:505-522 | The foreground debounce block moves the globals by `Debounce` on the column levels read. |
| Safe.PasswordBranch | main.c:365-398 | Password entry keeps the register four keys long and never changes `Inicio`, `opciones` or `tarea`. |
| Safe.SlotBranch | main.c:400-436 | Slot selection never touches the typed password, `PasswordAcept`, `Inicio` or `tarea`. |
| Safe.ModeBranch | main.c:438-499 | Mode selection never touches the typed password or `PasswordAcept`. |
| Safe.Chain | main.c:540-569 | A nested chain of calls issues at least one and at most all of its commands. |
| Safe.ChainShape | main.c:540-569 | A chain's trace is a prefix of its commands, each with its exchange's reply; every call but the last replied 0; it completes exactly when every command was issued and replied 0. |
| Safe.RemainingStep | main.c:537 | Each failed pass brings `while (rep != 3)` one pass closer to its end, with `rep` counting modulo 256. |
| Safe.Attempts | main.c:537-619 | The retry loop always ends with `rep == 3`, and `mala` is either unchanged or 0. |
| Safe.InitInv | main.c:30-74 | The power-up values of the globals satisfy the foreground invariant. |
| Safe.KeyDispatch | main.c:363-502 | Under the invariant each key is handled by exactly the one branch that matches the state; later branches never see the state an earlier one made. |
| Safe.KeyStepInv | main.c:363-502 | Every key keeps the foreground invariant. |
| Safe.ModeBranchInv | main.c:438-499 | The mode branch keeps the invariant. |
| Safe.SlotBranchInv | main.c:400-436 | The slot branch keeps the invariant. |
| Safe.PasswordBranchInv | main.c:365-398 | The password branch keeps the invariant. |
| Safe.ModeSelection | main.c:438-499 | A, B, C and D set `tarea` to 1..4 and clear `Inicio`; D also clears `opciones` and sets `EtapaLector`; any other key changes only `hKeys[0]`; an invalid key reuses the last valid one and is not stored. |
| Safe.SlotSelection | main.c:400-436 | Keys 1..8 set `UbicacionLector` and clear `opciones`, and set `EtapaLector` exactly when the task is not opening; any other key, 9 included, changes only `hKeys[0]`. |
| Safe.InvalidKeyRepeatsLast | main.c:405-410 | While a mode or a slot is awaited, an invalid key acts as the last valid key pressed again. |
| Safe.PasswordKey | main.c:365-373 | Before the fourth key, a key is shifted in if valid and counted either way, and nothing else changes. |
| Safe.PasswordAfterFourKeys | main.c:365-398 | Four valid keys leave the register newest first and `key_cnt` 0; the password is accepted (setting `PasswordAcept` and `EtapaLector`) exactly when the register equals the slot's row; otherwise no flag changes. |
| Safe.FourthKey | main.c:365-397 | On the fourth key, valid or invalid, the register (with a valid key shifted in, unchanged for an invalid one) is compared with the slot's row: a match sets `PasswordAcept` and `EtapaLector`, and `key_cnt` goes back to 0 either way. |
| Safe.FourthCountCompares | main.c:373-397 | The counting half of the branch accepts on the fourth key exactly when the register equals the slot's row. |
| Safe.StuckAfterAcceptance | main.c:365 | Once `PasswordAcept` is set it is never cleared: after a later opening's slot is chosen, every key leaves the state unchanged and the stage never starts. |
| Safe.StageInv | main.c:717-725 | A stage keeps the invariant and returns to mode selection; it leaves `PasswordAcept`, `key_cnt`, `hKeys` and `InPasswords` as they were. |
| Safe.ChainCount | main.c:540-569 | A chain issues each command at most as often as its list holds it. |
| Safe.AttemptsCount | main.c:537-619 | The retry loop issues each command at most `Remaining(rep)` times as often as one attempt does. |
| Safe.SuccessCount | main.c:537-619 | A complete first attempt ends the loop, so the loop's calls are those of one chain. |
| Safe.FailureCount | main.c:537-619 | A broken attempt adds the calls of one chain to those of the remaining passes. |
| Safe.ThreeAttempts | main.c:537-619 | From the start of a stage, the loop issues a command at most three times as often as one attempt does. |
| Safe.StageBounded | main.c:530-684 | A stage makes at most three attempts: at most six captures, three searches and three stores. |
| Safe.OccursVerify | main.c:636-644 | An opening attempt issues each command once. |
| Safe.OccursEnroll | main.c:540-563 | An enrolment attempt captures twice and issues every other command once. |
| Safe.EnrollAttemptGuarded | main.c:540-569 | In an enrolment attempt, the store only follows two captures, two conversions and a model that all replied 0, and the relay is never touched. |
| Safe.PulseGuarded | main.c:644-653 | The relay pulse after a search that replied 0 satisfies all the guards. |
| Safe.VerifyAttemptGuarded | main.c:636-653 | In an opening attempt, the relay switches on only right after a capture, a conversion and a search that replied 0, and switches off right after. |
| Safe.AttemptsUnfold | main.c:537-619 | The loop is its first pass, followed by the remaining passes if that pass broke off. |
| Safe.FirstPassGuarded | main.c:537-653 | The first pass of an enrolment or opening loop is guarded, and an enrolment pass never touches the relay. |
| Safe.AttemptsStoreGuarded | main.c:537-619 | If every pass is store-guarded, so is the whole loop. |
| Safe.AttemptsRelayGuarded | main.c:634-679 | If every pass is relay-guarded, so is the whole loop. |
| Safe.AttemptsMatchOpens | main.c:634-679 | If every successful search in a pass is followed by the relay switching on, the same holds for the whole loop. |
| Safe.AttemptsNoRelay | main.c:537-619 | If no pass touches the relay, the loop does not. |
| Safe.EveryPassGuarded | main.c:537-679 | Every pass of an enrolment or opening loop is guarded, wherever in the exchanges it starts. |
| Safe.LoopGuarded | main.c:537-679 | Over the whole retry loop, every store follows a complete enrolment sequence, every relay-on sits in a pulse right after a successful search, and an enrolment never touches the relay. |
| Safe.StageGuarded | main.c:527-725 | In every stage the store and relay guards hold, and the relay is touched only by an opening whose password was accepted. |
| Safe.FailedPass | main.c:610-617 | A pass whose first call fails issues only that call and counts a failure. |
| Safe.ThreeFailedCaptures | main.c:537-619 | Three failing captures in a row end the loop after exactly those three calls. |
| Safe.NoFingerLocksOut | main.c:530-684 | With no finger on the sensor, an enrolment or opening stage issues three captures and nothing else, and the relay is never engaged. |
| Safe.PowerUpToOpening | main.c:360-499 | From power-up, the keys B, 1, 1, 2, 3, 4 start the fingerprint stage for opening slot 1 with the password accepted. |
| Safe.OpeningPulses | main.c:634-653 | If capture, conversion and search all reply 0, the opening loop pulses the relay once and stops. |
| Safe.OpeningStage | main.c:629-725 | That stage's trace is one pulse, and it returns to mode selection with `PasswordAcept` still set. |
| Safe.SecondOpeningSticks | main.c:365-436 | After that, B and a slot key leave the safe in a state that no key changes and that never starts the stage. |
| Safe.WipeRepeatsOnInvalidKey | main.c:477-486 | D wipes the database with exactly one call and then resets; after that an invalid key is read as D and starts a second wipe. |
| Safe.ChainReaches | main.c:540-569 | A chain whose first k commands replied 0 goes on to issue command k. |
| Safe.ChainStopsAt | main.c:540-569 | A chain stops, incomplete, right at the first command that does not reply 0. |
| Safe.ChainEndsAt | main.c:540-569 | A chain that reaches its last command completes exactly when that command replies 0. |
| Safe.ChainCompletes | main.c:540-569 | When the last command occurs only at the end of the list, a chain completed exactly when its trace holds that command replying 0. |
| Safe.AttemptsMala | main.c:537-619 | Starting from `mala != 0`, and with the last command occurring only at the end of the list, the loop ends with `mala == 0` exactly when its trace holds that command replying 0. |
| Safe.LoopMala | main.c:537-684 | `mala == 0` at loop exit exactly when a store (enrolment) or a search (opening) replied 0, that is, when an attempt succeeded. |
| Safe.AttemptsUsed | main.c:537-619 | Each pass uses at most as many exchanges as the attempt has commands. |
| Safe.ThreePasses | main.c:537-619 | A stage's retry loop uses at most three exchanges per command of one attempt. |
| Firmware.FireValid | main.c:240-270 | No interrupt takes the keypad out of its valid states. |
| Firmware.Interrupt | main.c:240-270 | Delivering an interrupt moves the scanner by `Fire`; a masked column edge changes nothing. |
| Firmware.Controller.constructor | main.c:30-76 | At power-up the globals equal `Init()`, the relay pin is high (relay off), and nothing has been sent or logged. |
| Firmware.Controller.InsertKey | main.c:87-90 | insertKey makes the key the last valid key. |
| Firmware.Controller.InsertPswd | main.c:97-106 | The in-place shift loop moves every key one place back, drops the oldest and puts the new key in front. |
| Firmware.Controller.PasswordBlock | main.c:365-398 | The password branch over the globals moves the state by `PasswordBranch`. |
| Firmware.Controller.PasswordKeyCount | main.c:373-397 | The `key_cnt` half of the branch, including the comparison, moves the state by `PasswordCount`. |
| Firmware.Controller.SlotBlock | main.c:400-436 | The slot branch over the globals moves the state by `SlotBranch`. |
| Firmware.Controller.ModeBlock | main.c:438-499 | The mode branch over the globals moves the state by `ModeBranch`. |
| Firmware.Controller.HandleKey | main.c:363-499 | The three branches on the captured GPIO levels move the state by one `KeyStep` of the decoded key; the relay and the log are untouched. |
| Firmware.Controller.KeyFlagBlock | main.c:363-503 | A pending key is handled and its flag cleared, and the invariant is kept. |
| Firmware.Controller.KeypadPass | main.c:363-522 | One pass of the keypad loop: the key step if a key was pending, then the debounce block if its tick fired. |
| Firmware.Controller.KeypadLoop | main.c:362-524 | The keypad loop keeps the foreground and keypad invariants. It stops, while inputs remain, only when no flag is pending or the stage is due. |
| Firmware.Controller.KeypadRound | main.c:362-524 | A pass followed by one interrupt keeps both invariants. |
| Firmware.Controller.Issue | as608.c:121-253 | Calling the driver operation for a command writes its frame and returns the confirmation of that command's exchange; the driver's `index` ends as that exchange's read leaves it. |
| Firmware.Controller.Step | main.c:540-563 | Issuing command k of a nested chain, after k zero replies, extends the log by the chain's next call. |
| Firmware.Controller.RelayOn | cerradura.c:24-27 | encender_rele drives the pin low and logs the relay switching on. |
| Firmware.Controller.RelayOff | cerradura.c:30-32 | apagar_rele drives the pin high and logs the relay switching off. |
| Firmware.Controller.EnrollChain | main.c:540-569 | The six nested enrolment calls run until the first non-zero reply, or through the store; the log grows by that chain. |
| Firmware.Controller.EnrollPass | main.c:538-617 | One enrolment pass logs its chain; a complete chain sets `rep = 3` and `mala = 0`, a broken one increments `rep`. |
| Firmware.Controller.OpenChain | main.c:636-645 | The three nested opening calls run until the first non-zero reply, or through the search. |
| Firmware.Controller.OpenPass | main.c:635-678 | One opening pass logs its chain; a match pulses the relay (on, then off) and sets `mala = 0` and `rep = 3`, and a miss increments `rep`. |
| Firmware.Controller.EnrollRound | main.c:537-619 | One iteration of the enrolment loop extends the log by that pass of `Attempts` and brings the loop closer to its end. |
| Firmware.Controller.EnrollTask | main.c:537-619 | `while (rep != 3)` of enrolment ends with the counters and log that `Attempts` gives. |
| Firmware.Controller.OpenRound | main.c:634-679 | One iteration of the opening loop extends the log by that pass of `Attempts`, and the relay ends off. |
| Firmware.Controller.OpenTask | main.c:634-679 | `while (rep != 3)` of opening ends with the counters and log that `Attempts` gives, and the relay ends off. |
| Firmware.Controller.DeleteTask | main.c:686-699 | Deletion calls delete_model on the selected slot exactly once, with no retry. |
| Firmware.Controller.WipeTask | main.c:701-716 | The wipe calls empty_database exactly once, with no retry. |
| Firmware.Controller.RunTask | main.c:530-716 | The chosen task's block logs exactly the events of `Stage`, and the relay ends off. Enrolment and opening leave `rep` and `mala` as their `Attempts` loop ends; deletion and wipe leave them at 0 and 1. |
| Firmware.Controller.StageBody | main.c:527-734 | One pass of `while (EtapaLector)` moves the globals to the stage's reset state and logs its events. |
| Firmware.Controller.ReaderStage | main.c:527-734 | If the stage is due, the globals end where `Stage` leaves them and the log grows by its events; otherwise nothing changes. |
| Firmware.Controller.MainTurn | main.c:360-737 | One turn of `while (1)` keeps all invariants, ends with no stage pending, and only extends the log. In what it adds, every store follows a complete enrolment sequence, the relay only pulses right after a successful search, and only once a password was accepted. The sensor line received exactly the frames of the logged calls. |

## Left out

- Hardware bring-up is not modelled: `as608_init`, `initPWMasPIT` (with its float prescaler), the pin set-up of `initMatrixKeyboard4x4` and `rele_init`. Only the state they leave behind is modelled, as the constructors.
- The startup sync byte exchange (main.c:335-350) is not modelled: its reply is printed and never used.
- Keyboard.PendingMask: a slice that is disabled is taken to have no wrap pending. On the chip, `pwm_set_enabled(0, false)` in `keyboardCallback` (main.c:243) does not clear a slice-0 wrap already latched, so a late row tick (case 0x01 of `pwmIRQ`) can still follow a capture; the model does not produce it.
- UART I/O, `sleep_ms` and the clock become abstract inputs. A read is a finite poll script: for each pass, whether a byte was readable, the byte, and the clock reading. The UART transmit is an append to a log of sent frames.
- `printf`, the LCD messages (`initVar`, `mensaje`, `strcpy`) and the dwell delays are not modelled. They affect only what is displayed and how fast.
- lcd_i2c_16x2.h is not part of this model: it only declares the display driver.
- `as608_verify_password`'s return value is left out. On a timeout it returns an uninitialised byte, and `main` never calls it. Only its frame is modelled.
- Interrupt preemption is not modelled. Each handler runs as one atomic step. Between two passes of the keypad loop at most one interrupt fires, and none fires during the fingerprint stage.
- As608.Sensor.ReadResponse: requires that the poll script decides the read, by completing or timing out before it runs out. A real clock always gets there, but a finite script might not.
- Firmware.Controller.ReaderStage: requires at least 18 exchanges that each decide their read. That is enough for three full enrolment attempts, the most a stage can use.
- Safe.Reply: an exchange beyond the end of the line reads as a silent line, 0xFF.
- Firmware.Controller.KeypadLoop: the loop is bounded by the finite list of inputs given to it, while the firmware loops until a flag stops it. Its contract states the invariants and the exit condition, not the exact final state.
- Firmware.Controller.KeypadRound: states only that the invariants are preserved. The exact new state is stated by KeypadPass and Interrupt.
- Keypad.ShiftIn: its own contract gives only the register's length. Its contents are stated by Keypad.TypingFourKeys and by Firmware.Controller.InsertPswd, which is proved against it.
- Safe.Attempts: the `rep++` in each of the enrolment and opening loops' failure branches is modelled once per broken pass. All the failure branches do the same thing apart from their messages.
- The relay is the level of its pin (active low) plus relay-on and relay-off events in the log. The lock it drives is not modelled.
- `KeyData` is computed once per key in `HandleKey`. The three branches each recompute the same value from the unchanged `gKeyCap`.
- `volatile` semantics and the `gFlags.W` byte view of the flag bits are not modelled separately. The loop condition is read as "some flag set".
