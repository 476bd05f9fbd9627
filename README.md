# Raspberry Pi Bluetooth remote controller — a Dafny model

The Raspberry Pi side of a Bluetooth remote control. An Android app connects over RFCOMM and sends one-line text commands. The Pi controller (`RaspberryPiController`) turns two servos, draws status text on a 128x64 SSD1306 OLED, and answers each command with one `OK:` or `ERROR:` line. So that phones can pair without a keyboard, the controller runs a pairing agent in a background thread. The agent drives `bluetoothctl`, reads its output line by line, and answers PIN requests with the fixed PIN `0000` and consent prompts with `yes`. A standalone script (`BluetoothPairingHelper`) runs the same kind of agent in the foreground until it gets a signal.

The model is organised by module:

- `Text` (`text.dfy`): the Python string built-ins the code relies on, over `seq<char>`. These are `str.strip`, `in`, `startswith`, `split`, `replace`, `int()` and `str()`.
- `Commands` (`commands.dfy`): `process_command` as a total function from a received line and the servo-write outcome to a reply and the hardware effects it requests, plus the angle-to-servo-value mapping.
- `Display` (`display.dfy`): `convert_to_ascii` and the line layout of `display_text`, each as a method with a loop, proved against specification functions.
- `Pairing` (`pairing.dfy`): the agent's line classifier and responder. A `PairingAgent` class holds the `pairing_active` guard, the process handle and the worker loop.
- `PairingHelper` (`pairing_helper.dfy`): the helper's classifier, its `running` flag, its read loop, and lemmas on where it agrees with the controller's agent and where it does not.
- `Session` (`session.dfy`): the connection handshake, and the per-connection command loop of `run_server` as a `ConnectionServer` class.

Hardware, sockets and child processes are replaced by parameters. A servo write's success is a boolean. Each `recv` result is a `Chunk`. Each `readline` result is an `AgentInput` or a `HelperInput`. The accepted client address and the handshake reply are method arguments. A loop over a finite input sequence that has not met its end condition is taken to be still waiting for input. The controller's pairing worker stops the agent only after its loop has ended, so `Pairing.PairingAgent.Worker` is given only complete runs: ones that contain an empty read, a read error or an exit.

Three behaviours of the code are easy to misread:

- `DISCONNECT` is answered with `OK:DISCONNECTED` but does not close the session; only an empty read or a transport error does (`Session.DisconnectContinues`).
- An undecodable chunk is answered with `ERROR:DECODE_ERROR` and the session goes on.
- Because `convert_to_ascii` applies its phrase table in insertion order, `蓝牙已连接` is shown as `Connected`, not `BT Connected` (`Display.ConnectedStatus`).

## Model

| member | source | states |
|---|---|---|
| Text.Contains | raspberry/raspberry_pi_controller.py:225 | definition of the `in` test: the pattern is a prefix of some suffix of the text; `Text.ContainsAt` and `Text.ContainsOffset` characterise it by the offset of an occurrence |
| Text.Strip | raspberry/raspberry_pi_controller.py:583 | the stripped line neither starts nor ends with whitespace and is no longer than the input |
| Text.StripWindow | raspberry/raspberry_pi_controller.py:583 | the stripped line is a contiguous window of the input, and everything outside the window is whitespace |
| Text.StripIdempotent | raspberry/raspberry_pi_controller.py:583 | stripping twice is stripping once |
| Text.StripUnpadded | raspberry/raspberry_pi_controller.py:583 | a line without surrounding whitespace is left unchanged |
| Text.Split | raspberry/raspberry_pi_controller.py:529 | `split` returns at least one piece, and no piece contains the separator |
| Text.JoinSplit | raspberry/raspberry_pi_controller.py:529 | joining the pieces of a split with the separator gives back the original text |
| Text.Replace | raspberry/raspberry_pi_controller.py:567 | definition of `str.replace` with every occurrence replaced, scanning left to right and resuming after each replaced occurrence; characterised by `Text.ReplaceAbsent` and, for the display's phrases, by `Display.ConnectedStatus` and `Display.ServoStatus` |
| Text.NatToString | raspberry/raspberry_pi_controller.py:605-606 | the decimal form of a natural number, as `f"{angle}"` writes it: non-empty, all digits, no leading zero; `Text.ParseNatToString` shows `int()` reads it back |
| Text.ParseInt | raspberry/raspberry_pi_controller.py:601 | `int()` on text: strip, an optional sign, then digits with single underscores between them, anything else `None`; a result implies the stripped text is non-empty, and `Text.ParseDigits`, `Text.ParseForeign` and `Text.ParseNatToString` characterise it |
| Text.ReplaceAbsent | raspberry/raspberry_pi_controller.py:567-568 | `replace` with a pattern that does not occur leaves the text unchanged |
| Text.ParseNatToString | raspberry/raspberry_pi_controller.py:601 | `int()` of the decimal form of any natural number gives that number back |
| Text.ParseDigits | raspberry/raspberry_pi_controller.py:601 | `int()` accepts every non-empty string of ASCII digits, with its decimal value |
| Text.ParseForeign | raspberry/raspberry_pi_controller.py:601 | a character other than whitespace, a sign, a digit or `_` makes `int()` fail (the `ValueError` path) |
| Commands.ReplyText | raspberry/raspberry_pi_controller.py:580-660 | an OK reply's line starts with `OK:` and every other reply's line starts with `ERROR:` |
| Commands.ParseReplyText | raspberry/raspberry_pi_controller.py:580-660 | every response line reads back as the reply it came from, so a client can tell all replies apart |
| Commands.ReplyTextInjective | raspberry/raspberry_pi_controller.py:580-660 | two different replies never produce the same response line |
| Commands.Clamp | raspberry/raspberry_pi_controller.py:490 | `max(-1, min(1, x))` lies in [-1, 1], is `x` inside that range, and is the nearer bound outside it |
| Commands.ServoValue | raspberry/raspberry_pi_controller.py:489-490 | every value written to a servo lies in [-1, 1] |
| Commands.ServoValueExact | raspberry/raspberry_pi_controller.py:489-490 | for angles 0..180 the clamp never fires: the value is (angle - 90) / 90, and the angle is recovered as 90 + 90 * value |
| Commands.ServoValueMonotone | raspberry/raspberry_pi_controller.py:489-490 | a larger angle never gives a smaller servo value |
| Commands.ServoValueInjective | raspberry/raspberry_pi_controller.py:501-502 | distinct angles in 0..180 give distinct servo values |
| Commands.AngleOutcome | raspberry/raspberry_pi_controller.py:600-617 | the servo branch succeeds exactly when the field parsed to an integer in 0..180 and the write succeeded; on success it replies with that angle, writes its servo value and shows the angle. A field `int()` rejects gives `SERVOk_PARSE_ERROR`, an integer outside 0..180 gives `INVALID_ANGLE`, and a failed write gives `SERVOk_CONTROL_FAILED`, each with no effects |
| Commands.Dispatch | raspberry/raspberry_pi_controller.py:586-660 | on the stripped line, an error reply requests no effects, at most two effects are requested, and every servo value requested is in [-1, 1] |
| Commands.ProcessCommand | raspberry/raspberry_pi_controller.py:580-660 | the same three guarantees for any received line |
| Commands.DispatchOnStripped | raspberry/raspberry_pi_controller.py:583 | the response depends only on the stripped line |
| Commands.UnknownIffUnrecognised | raspberry/raspberry_pi_controller.py:586-660 | `ERROR:UNKNOWN_COMMAND` is returned exactly when the stripped line is none of `CONNECT`, `DISCONNECT`, `OLED_CLEAR` and starts with none of `SERVO1:`, `SERVO2:`, `OLED:` |
| Commands.ExactDispatch | raspberry/raspberry_pi_controller.py:587-655 | `CONNECT`, `DISCONNECT` and `OLED_CLEAR` give `OK:CONNECTED`, `OK:DISCONNECTED` and `OK:OLED_CLEARED` with their display effects |
| Commands.ExactCommands | raspberry/raspberry_pi_controller.py:583-655 | the three exact commands are recognised with any surrounding whitespace |
| Commands.ConnectShowsConnected | raspberry/raspberry_pi_controller.py:586-589 | `CONNECT` asks the display for `蓝牙已连接`, which the display shows as `Connected` |
| Commands.OledShowsRest | raspberry/raspberry_pi_controller.py:641-648 | `OLED:t` replies `OK:OLED_DISPLAY` and displays the stripped line without its first five characters |
| Commands.CaseSensitive | raspberry/raspberry_pi_controller.py:586-660 | `connect` in lower case is an unknown command |
| Commands.AngleField | raspberry/raspberry_pi_controller.py:600 | definition: piece 1 of `split(':')`, `None` for the `IndexError` case; `Commands.ServoField` and `Commands.ServoFieldPresent` characterise it |
| Commands.ServoCommand | raspberry/raspberry_pi_controller.py:596-617 | definition of the servo branch: `int()` of the field, then `AngleOutcome`; characterised by `Commands.ServoLine`, `Commands.ServoAccepted`, `Commands.ServoOutOfRange` and `Commands.ServoUnparsable` |
| Commands.ServoField | raspberry/raspberry_pi_controller.py:600 | the field parsed is the text between the first and second colon |
| Commands.ServoDispatch | raspberry/raspberry_pi_controller.py:596-597 | a stripped line starting with `SERVOk:` is handled by servo k's branch |
| Commands.ServoBranch | raspberry/raspberry_pi_controller.py:596-597 | an unpadded line starting with `SERVOk:` is handled by servo k's branch |
| Commands.ServoLine | raspberry/raspberry_pi_controller.py:596-617 | a `SERVOk:` line is answered by the servo branch on its first field |
| Commands.ServoAccepted | raspberry/raspberry_pi_controller.py:597-608 | any `SERVOk:` line whose first field `int()` reads as n in 0..180 (including `090`, `+45`, `4_5`), with a successful write, gives `OK:SERVOk:n`, writes (n - 90) / 90 and shows the angle |
| Commands.ServoWriteFailed | raspberry/raspberry_pi_controller.py:603-611 | any such line with a failed write gives `ERROR:SERVOk_CONTROL_FAILED` and no effects |
| Commands.ServoCanonical | raspberry/raspberry_pi_controller.py:597-611 | the canonical `SERVOk:n`, optionally followed by `:` and more text, is accepted as n with a good write and fails with `SERVOk_CONTROL_FAILED` with a failed one |
| Commands.ServoOutOfRange | raspberry/raspberry_pi_controller.py:602-614 | an integer outside 0..180 gives `ERROR:INVALID_ANGLE` and no servo write |
| Commands.ServoUnparsable | raspberry/raspberry_pi_controller.py:600-617 | a field `int()` rejects gives `ERROR:SERVOk_PARSE_ERROR` and no effects |
| Commands.ServoFieldPresent | raspberry/raspberry_pi_controller.py:600 | a line starting with `SERVOk:` always has a second field, so the `IndexError` case cannot occur |
| Commands.ServoExample45 | raspberry/raspberry_pi_controller.py:618-630 | `SERVO2:45` with a successful write is accepted as 45 degrees |
| Commands.ServoExample90 | raspberry/raspberry_pi_controller.py:597-608 | `SERVO1:90:x` is accepted as 90 degrees |
| Commands.ServoExampleLeadingZero | raspberry/raspberry_pi_controller.py:597-608 | `SERVO1:090` is accepted as 90 degrees and writes servo value 0 |
| Commands.ServoExampleEmpty | raspberry/raspberry_pi_controller.py:615-617 | `SERVO1:` gives a parse error |
| Commands.ServoExampleLetters | raspberry/raspberry_pi_controller.py:615-617 | `SERVO1:abc` gives a parse error |
| Commands.ServoExample200 | raspberry/raspberry_pi_controller.py:619-636 | `SERVO2:200` gives `ERROR:INVALID_ANGLE` |
| Display.ReplacementsArePhrases | raspberry/raspberry_pi_controller.py:550-563 | every phrase of the table is non-empty and starts with a non-ASCII character |
| Display.FilterAscii | raspberry/raspberry_pi_controller.py:570 | the filter never lengthens the text |
| Display.FilterAsciiIsAscii | raspberry/raspberry_pi_controller.py:570 | the filter's output is all ASCII, and ASCII input passes through unchanged |
| Display.FilterAsciiMembers | raspberry/raspberry_pi_controller.py:570 | a character is in the output exactly when it is in the input and is ASCII |
| Display.FilterAsciiAppend | raspberry/raspberry_pi_controller.py:570 | filtering a concatenation is concatenating the filtered parts |
| Display.ConvertToAscii | raspberry/raspberry_pi_controller.py:547-570 | the loop of `replace` calls followed by the filter computes `AsciiText`, and its result is all ASCII |
| Display.ApplyReplacements | raspberry/raspberry_pi_controller.py:566-568 | definition: one `replace` per table entry, in insertion order, each on the result of the one before; `Display.ApplyReplacementsAscii` and `Display.ApplyReplacementsAppend` characterise it |
| Display.AsciiText | raspberry/raspberry_pi_controller.py:547-570 | definition of `convert_to_ascii`: the phrase table, then the `ord(c) < 128` filter; `Display.ConvertToAscii` is proved equal to it, and `Display.AsciiTextOfAscii`, `Display.AsciiTextIdempotent`, `Display.ConnectedStatus` and `Display.ServoStatus` characterise it |
| Display.DisplayLines | raspberry/raspberry_pi_controller.py:529 | definition: the converted text split at newlines; `Display.DisplayText` draws the first five of these lines |
| Display.ApplyReplacementsAscii | raspberry/raspberry_pi_controller.py:566-568 | no phrase of the table occurs in ASCII text, so the replacements leave it unchanged |
| Display.ApplyReplacementsAppend | raspberry/raspberry_pi_controller.py:566-568 | running the table in two parts is running it once |
| Display.AsciiTextOfAscii | raspberry/raspberry_pi_controller.py:547-570 | ASCII text is returned unchanged |
| Display.AsciiTextIdempotent | raspberry/raspberry_pi_controller.py:547-570 | the conversion's result is ASCII, and converting twice is converting once |
| Display.ConnectedStatus | raspberry/raspberry_pi_controller.py:553-555 | because `已连接` is replaced before `蓝牙已连接`, `蓝牙已连接` is shown as `Connected` |
| Display.ServoStatus | raspberry/raspberry_pi_controller.py:557-570 | `舵机1: 90°` is shown as `Servo1: 90`: the phrase is translated and the degree sign is dropped |
| Display.DrawLines | raspberry/raspberry_pi_controller.py:530-538 | the layout loop draws the first min(n, 5) lines, line k at y = 12k, each filtered to ASCII; later lines are skipped, not wrapped |
| Display.DisplayText | raspberry/raspberry_pi_controller.py:526-538 | the drawn lines are the first at most five lines of the converted text, at y = 0, 12, 24, 36, 48, each fully inside the 64-pixel height |
| Pairing.DigitRun | raspberry/raspberry_pi_controller.py:234 | `\d+` takes a digit prefix that cannot be extended |
| Pairing.FindPasskey | raspberry/raspberry_pi_controller.py:234-236 | a match is a non-empty digit string that occurs in the line right after `Confirm passkey ` |
| Pairing.FindPasskeyLeftmost | raspberry/raspberry_pi_controller.py:234-236 | at the leftmost position where `Confirm passkey ` is followed by a digit, the result is the maximal digit run that follows, as `re.search` gives for group 1 |
| Pairing.FindPasskeyNone | raspberry/raspberry_pi_controller.py:234-235 | when the prompt is nowhere followed by a digit, there is no match |
| Pairing.FindPasskeyAt | raspberry/raspberry_pi_controller.py:234-235 | wherever `Confirm passkey ` followed by a digit occurs in the line, the search finds a passkey |
| Pairing.PasskeyFound | raspberry/raspberry_pi_controller.py:234-236 | `Confirm passkey 123456` yields passkey `123456` |
| Pairing.PasskeyClassified | raspberry/raspberry_pi_controller.py:231-236 | `Confirm passkey 123456` is classified as a passkey confirmation with key `123456` |
| Pairing.Classify | raspberry/raspberry_pi_controller.py:225-285 | definition of the `if/elif` chain on a stripped line: the first test that holds decides the event, `Unrecognized` when none does; `Pairing.ClassifyConsent`, `Pairing.AgentBranchUnreachable` and `Pairing.PasskeyClassified` characterise it |
| Pairing.Respond | raspberry/raspberry_pi_controller.py:227-285 | definition of each branch's body: the directive written and the text displayed, in source order; `Pairing.EventWrites`, `Pairing.PasskeyPromptConfirmed` and `Pairing.NoticesWriteNothing` characterise it |
| Pairing.LineActions | raspberry/raspberry_pi_controller.py:216-221 | definition: a read line is stripped, and a non-empty result is classified and answered; `Pairing.LineWrites`, `Pairing.AtMostOneWrite` and `Pairing.LineActionsUnpadded` characterise it |
| Pairing.LineActionsUnpadded | raspberry/raspberry_pi_controller.py:220-221 | an unpadded non-empty line is classified as it is |
| Pairing.WritesMembers | raspberry/raspberry_pi_controller.py:225-268 | the directives written are exactly the payloads of the write actions |
| Pairing.WritesAppend | raspberry/raspberry_pi_controller.py:214-290 | directives are collected piecewise over a sequence of actions |
| Pairing.LineWrites | raspberry/raspberry_pi_controller.py:220-268 | a line writes the PIN if it contains `Request PIN code`, otherwise `yes` if it asks for consent, otherwise nothing |
| Pairing.EventWrites | raspberry/raspberry_pi_controller.py:225-285 | a PIN request writes the PIN, the four consent events write `yes`, and the notices write nothing |
| Pairing.ClassifyConsent | raspberry/raspberry_pi_controller.py:225-268 | the PIN branch is taken exactly for lines containing `Request PIN code`; a consent branch is taken exactly for other lines that ask for consent |
| Pairing.AtMostOneWrite | raspberry/raspberry_pi_controller.py:220-285 | at most one directive is written per line |
| Pairing.AgentBranchUnreachable | raspberry/raspberry_pi_controller.py:231-262 | the `[agent] Confirm passkey` branch is never taken, because the plain `Confirm passkey` test comes first |
| Pairing.PasskeyPromptConfirmed | raspberry/raspberry_pi_controller.py:231-243 | a passkey prompt always writes `yes`, and shows `Confirm:` with the key exactly when the pattern matches |
| Pairing.NoticesWriteNothing | raspberry/raspberry_pi_controller.py:270-285 | success, failure, cancel, new-device and unmatched lines write nothing |
| Pairing.MonitorRun | raspberry/raspberry_pi_controller.py:214-290 | definition of the monitoring loop over read results: it answers each non-empty line and stops at the first empty read, read error or exit; `Pairing.MonitorRunFrom`, `Pairing.MonitorStopsAtEnd` and `Pairing.MonitorWritesOnlyAnswers` characterise it, and `Pairing.PairingAgent.Monitor` is proved equal to it |
| Pairing.MonitorStopsAtEnd | raspberry/raspberry_pi_controller.py:214-290 | after an empty read, a read error or a process exit, no later line is acted on |
| Pairing.MonitorWritesOnlyAnswers | raspberry/raspberry_pi_controller.py:214-290 | every directive the loop writes is the PIN or `yes` |
| Pairing.MonitorRunFrom | raspberry/raspberry_pi_controller.py:214-290 | the loop either ends at the current read result or answers its line and goes on |
| Pairing.StopActions | raspberry/raspberry_pi_controller.py:300-309 | stopping asks a held child to terminate and writes no directive; without a child it does nothing |
| Pairing.PairingAgent.constructor | raspberry/raspberry_pi_controller.py:40-42 | the agent starts inactive, without a process, with PIN `0000` |
| Pairing.PairingAgent.Start | raspberry/raspberry_pi_controller.py:164-181 | a no-op while active; otherwise marks the agent active, and clears the mark again if the worker thread cannot start |
| Pairing.PairingAgent.Stop | raspberry/raspberry_pi_controller.py:297-310 | a held child is asked to terminate (then killed if that fails), and the agent always ends inactive and without a process, whatever terminate or kill does, so a second stop asks nothing |
| Pairing.PairingAgent.SendSetup | raspberry/raspberry_pi_controller.py:198-208 | writes `agent on`, `default-agent`, `pairable on`, `discoverable on`, in that order |
| Pairing.PairingAgent.Answer | raspberry/raspberry_pi_controller.py:220-285 | one line read adds exactly the actions of its classification |
| Pairing.PairingAgent.Monitor | raspberry/raspberry_pi_controller.py:214-290 | the loop performs exactly the run specified by `MonitorRun` when active, and nothing when inactive |
| Pairing.PairingAgent.Worker | raspberry/raspberry_pi_controller.py:183-295 | given a complete run, with a spawned process the worker performs the setup, the ready message and the monitoring run, then asks that process to terminate; when spawning fails it stops the handle held before, if any; in every case it ends inactive and without a process |
| PairingHelper.HelperClassify | raspberry/bluetooth_pairing_helper.py:81-128 | definition of the helper's `if/elif` chain: the controller's tests without the new-device test; `PairingHelper.ClassifiersAgree` characterises it |
| PairingHelper.HelperDirective | raspberry/bluetooth_pairing_helper.py:81-119 | definition: the PIN for a PIN request, `yes` for the four consent events, nothing for the rest; `PairingHelper.DirectivesAgree` and `PairingHelper.PinLine` characterise it |
| PairingHelper.HelperLine | raspberry/bluetooth_pairing_helper.py:72-79 | definition: an empty read writes nothing, any other line is stripped and answered; `PairingHelper.DirectivesAgree` and `PairingHelper.EmptyReadContinues` characterise it |
| PairingHelper.ClassifiersAgree | raspberry/bluetooth_pairing_helper.py:81-128 | the helper's chain classifies every line as the controller's does, except that new-device lines are unrecognised |
| PairingHelper.DirectivesAgree | raspberry/bluetooth_pairing_helper.py:75-119 | for every line read, the helper writes the same directive, if any, as the controller's agent |
| PairingHelper.OptionToSeq | raspberry/bluetooth_pairing_helper.py:81-119 | at most one directive is written per line |
| PairingHelper.Run | raspberry/bluetooth_pairing_helper.py:72-133 | a run stopped by a signal has ended |
| PairingHelper.EmptyReadContinues | raspberry/bluetooth_pairing_helper.py:75-76 | an empty read writes nothing and does not end the loop |
| PairingHelper.RunEndsOnlyOnErrorOrSignal | raspberry/bluetooth_pairing_helper.py:72-133 | the loop ends exactly when a read error or a signal occurs |
| PairingHelper.RunWritesOnlyAnswers | raspberry/bluetooth_pairing_helper.py:81-119 | every directive the loop writes is the PIN or `yes` |
| PairingHelper.PinLine | raspberry/bluetooth_pairing_helper.py:81-84 | a line containing `Request PIN code` writes exactly the PIN and a newline |
| PairingHelper.EndOfFileSpins | raspberry/bluetooth_pairing_helper.py:72-76 | at end of file the helper's loop spins: any number of empty reads writes nothing and does not end the loop, and only a signal then ends it |
| PairingHelper.EndOfFileDiffers | raspberry/bluetooth_pairing_helper.py:72-76 | at end of file the controller's loop ends at the first empty read and does nothing, while the helper's loop has neither ended nor written anything after any number of empty reads |
| PairingHelper.BluetoothPairingHelper.constructor | raspberry/bluetooth_pairing_helper.py:16-18 | the helper starts running, with PIN `0000` and nothing written |
| PairingHelper.BluetoothPairingHelper.SignalHandler | raspberry/bluetooth_pairing_helper.py:205-209 | clears `running` and changes nothing else |
| PairingHelper.BluetoothPairingHelper.Answer | raspberry/bluetooth_pairing_helper.py:75-119 | one line read adds exactly its directive, if any |
| PairingHelper.BluetoothPairingHelper.ReadLoop | raspberry/bluetooth_pairing_helper.py:72-133 | the loop writes exactly the run's directives, reports whether a read error or a signal ended it, and is still running unless a signal arrived |
| PairingHelper.BluetoothPairingHelper.MonitorPairingRequests | raspberry/bluetooth_pairing_helper.py:56-143 | with a spawned process, writes `agent on` then `default-agent`, then the read loop's directives, and terminates the process once the loop ends; without one, nothing |
| Session.AcceptsHandshake | raspberry/raspberry_pi_controller.py:451-454 | definition: the client replied, and its decoded, stripped reply is `PING`, `HELLO` or `CONNECT`; `Session.HandshakeOkIff` and `Session.PaddedTokenAccepted` characterise it |
| Session.HandshakeSent | raspberry/raspberry_pi_controller.py:443-458 | the greeting `WELCOME_RPi` is always sent first |
| Session.HandshakeOkIff | raspberry/raspberry_pi_controller.py:443-465 | `HANDSHAKE_OK` is sent exactly when the stripped reply is `PING`, `HELLO` or `CONNECT`, and nothing else is sent |
| Session.PaddedTokenAccepted | raspberry/raspberry_pi_controller.py:451-454 | a token with whitespace on either side is accepted, and the Android client's `PING` is accepted |
| Text.StripPadded | raspberry/raspberry_pi_controller.py:451 | whitespace on either side of a word that starts and ends with a non-space is stripped away |
| Session.ReplyFor | raspberry/raspberry_pi_controller.py:722-739 | definition: `ERROR:DECODE_ERROR` for an undecodable chunk, otherwise the reply text of `process_command`; `Session.RepliesTagged` and `Session.DecodeErrorContinues` characterise it |
| Session.Serve | raspberry/raspberry_pi_controller.py:705-748 | definition of the command loop over received chunks: one response per chunk until an empty chunk or a transport error; `Session.OneReplyPerChunk`, `Session.ServeStep` and `Session.DisconnectContinues` characterise it, and `Session.ConnectionServer.CommandLoop` is proved equal to it |
| Session.EffectsFor | raspberry/raspberry_pi_controller.py:725-730 | an undecodable chunk requests no effects |
| Session.OneReplyPerChunk | raspberry/raspberry_pi_controller.py:705-748 | one response per chunk, in order, up to the first empty chunk or transport error; the session ends exactly when such a chunk occurs |
| Session.RepliesTagged | raspberry/raspberry_pi_controller.py:725-739 | every response starts with `OK:` or `ERROR:` |
| Session.DecodeErrorContinues | raspberry/raspberry_pi_controller.py:725-730 | an undecodable chunk is answered with `ERROR:DECODE_ERROR` and the session goes on |
| Session.DisconnectContinues | raspberry/raspberry_pi_controller.py:713-739 | `DISCONNECT` is answered with `OK:DISCONNECTED` but does not end the session |
| Session.ServeStep | raspberry/raspberry_pi_controller.py:713-739 | the loop either ends at the current chunk or answers it and goes on |
| Session.AndroidSession | raspberry/raspberry_pi_controller.py:443-458 | a client that answers `PING`, sends `SERVO2:45` and closes gets `HANDSHAKE_OK`, then `OK:SERVO2:45`, and the session ends |
| Session.ConnectionServer.constructor | raspberry/raspberry_pi_controller.py:35-37 | the server starts running, with no client and nothing sent |
| Session.ConnectionServer.WaitForConnection | raspberry/raspberry_pi_controller.py:424-481 | succeeds exactly when a client is accepted; then it records the client, sends the handshake messages and shows the first 12 characters of the address |
| Session.ConnectionServer.Answer | raspberry/raspberry_pi_controller.py:722-739 | one chunk adds exactly its response and its effects |
| Session.ConnectionServer.CommandLoop | raspberry/raspberry_pi_controller.py:705-748 | the loop sends exactly the session's responses, requests its effects, and reports whether the session ended |
| Session.ConnectionServer.ServeClient | raspberry/raspberry_pi_controller.py:702-759 | shows `Connected!`, serves the session, and once it ends drops the client and shows `Disconnected` |
| Session.ConnectionServer.RunOnce | raspberry/raspberry_pi_controller.py:695-763 | one pass of the outer loop: a failed accept changes nothing; otherwise the handshake, then the session |

## Left out

- Unicode: `str.strip` is modelled on ASCII whitespace and the separators `\x1c`-`\x1f`, and `int()` on ASCII digits. Unicode spaces and digits, which Python also accepts, are not modelled.
- Pairing.PairingAgent.Worker: only complete runs are given to it. A worker still blocked in `readline` with `pairing_active` set has not reached its `finally` clause; what it has done so far is what `Pairing.PairingAgent.Monitor` states for the inputs read so far.
- Pairing.FindPasskey: the pattern's `\d` is modelled as the ASCII digits 0-9. Python's `\d` on text also matches other Unicode decimal digits; those are not modelled.
- Commands.ServoValue: modelled over exact reals. The IEEE float rounding of `(angle - 90) / 90.0` is not modelled.
- The `ERROR:COMMAND_PROCESSING:<message>` reply is not modelled. It depends on the text of an unexpected exception, and none of the modelled branches raises one.
- Hardware: servo and display writes are requested effects. A servo write's success is an input. A failing display write is only logged by the source, so it is not modelled. The PIL drawing is modelled as the list of placed lines.
- Concurrency: the pairing worker runs in a daemon thread, and `pairing_active` can be cleared by another thread mid-loop. `Pairing.PairingAgent.Monitor` keeps the flag fixed during the loop. Signals are modelled as an input (`Signal`) that arrives between reads.
- Timing: all sleeps (0.5 s, 2 s, 5 s) and socket timeouts (5 s, 30 s) are left out. A timeout in the command loop is a `Failed` chunk. A timeout in the handshake is `TimedOut`.
- Writes to `bluetoothctl` and socket sends are assumed to succeed. A failing write in the agent would end its loop through the exception handler; that path is not modelled.
- System setup is not modelled: `setup_bluetooth_server`, `setup_simple_bluetooth_server`, `check_bluetooth_adapter`, `fix_bluetooth_adapter`, `ensure_discoverable`, `run_command`, `setup_bluetooth`, `auto_accept_pairing` and `cleanup`. They only run system commands and log failures.
- `run_server` is modelled one pass at a time (`Session.ConnectionServer.RunOnce`). The outer loop's repetition, its retry delay, the `KeyboardInterrupt` exit and the server-setup failure path are not modelled.
- The helper's `main` menu is not modelled. In `monitor_pairing_requests`, a failed `Popen` is the `spawned == false` case. A finite input sequence that ends without a read error or a signal means the loop is still reading.
- The Android app is not part of this model. Its `PING` reply and its `SERVO2:45` command appear only as concrete inputs in `Session.AndroidSession`.
