# VibeInput engine: a Dafny model

VibeInput is a push-to-talk dictation tool built on the sherpa-onnx C++ API.
A microphone callback queues audio chunks. A worker thread feeds them, in
512-sample windows, to a voice-activity detector (VAD). It decodes each
finished speech segment with an offline recognizer. Chinese voice commands
pause or resume typing. Every final text is first checked for a command.
Whenever the engine is not paused after that check, the text has its full
stops turned into commas and is typed into the focused window by `typestr`.

A small Qt preference store keeps the pause hotkey and the denoise method.

This project models the logic of three files and proves properties of the
model:

- `vibeinput.cc`, in the modules below:
  - `VibeInput`: the pause flag, voice-command handling, the start/stop
    lifecycle, and one iteration of the worker loop. The worker iteration
    covers the queue pop, the window feed, the look-back trim, the
    speculative decode, and the drain of finished segments with the
    typing gate.
  - `Commands`: phrase classification, full-stop normalisation, and the
    routing of a final result.
  - `Search`: `std::string::find`.
  - `Paths`: `~` expansion and the model-file search order.
  - `Vad`: the detector interface as an oracle.
- `typestr/typestr.c`, in the modules below:
  - `Utf8`: `utf8_decode_one` and the RFC 3629 encoding it inverts.
  - `TypeStr`: the `typestr_generic` and `typestr_x11` loops, `typestr`
    and `typestr_simple`. The key-injection calls are recorded as a log of
    events.
- `preference_manager.cpp`, in the module `Preferences`: `load`,
  `setHotkey` and `setDenoiseMethod`. The INI file is a map, settings
  writes are a log, and signals are a log.

Real threads, hardware and ONNX engines are not modelled. They are replaced
as follows:

- The sample queue is a sequence, and the microphone callback is a push.
- The VAD is a class whose answers are two oracle functions of the windows
  fed so far.
- The recognizer is a function from samples to bytes.
- The resampler is an optional function.
- "More than 0.4 s since speech started" is a boolean input.
- The home directory, the current directory and "is a regular file" are
  fields of an abstract file system.

Where the code and its documentation disagree, the model follows the code:

- The engine has one pause flag. `vibeinput.h:19-29` declares separate
  hotkey and voice pause toggles that `vibeinput.cc` never defines.
- The feed loop hands over a window only while `offset + 512 < size`. The
  test is strict, so a full window of exactly 512 unread samples is not fed
  until more audio arrives.
- The default VAD model is `silero_vad.int8.onnx`. The program's usage text
  names `silero_vad.onnx` instead.
- `load` lower-cases the stored method but does not trim it. The setters
  trim.

## Model

| member | source | states |
|---|---|---|
| Utf8.DecodeOne | cxx-api-examples/vibeinput/typestr/typestr.c:21-44 | The result is a length of 0 to 4. An ASCII first byte gives length 1 and that byte as the code point. A failure gives code point 0. A length of 2, 3 or 4 gives a code point in the shortest-form range [0x80,0x7FF], [0x800,0xFFFF] or [0x10000,0x10FFFF]. A successful decode of a non-empty string stops before the terminating NUL. |
| Utf8.DecodeOneReadsOnlyString | cxx-api-examples/vibeinput/typestr/typestr.c:24-42 | Every byte after the lead that a decode of length n consumes matches 10xxxxxx. None of the consumed bytes is the terminator, so the short-circuit tests never read past NUL. |
| Utf8.EncodeThenDecode | cxx-api-examples/vibeinput/typestr/typestr.c:21-44 | Every code point up to 0x10FFFF, surrogates included, is decoded back from its RFC 3629 encoding, whatever follows it. The decoded length equals the encoding's length. |
| Utf8.DecodeIsEncoding | cxx-api-examples/vibeinput/typestr/typestr.c:25-42 | A successful decode of length n consumes exactly the n bytes of the encoding of the returned code point. This is the converse of the round trip. |
| Utf8.InvalidLeadBytes | cxx-api-examples/vibeinput/typestr/typestr.c:43 | Lead bytes 0x80-0xBF and 0xF8-0xFF decode to length 0. |
| Utf8.SurrogateAccepted | cxx-api-examples/vibeinput/typestr/typestr.c:31-35 | ED A0 80 decodes to the surrogate U+D800 with length 3. |
| Utf8.OverlongRejected | cxx-api-examples/vibeinput/typestr/typestr.c:25-41 | An overlong 2- or 3-byte form, and the code point 0x110000, are rejected. |
| TypeStr.Next | cxx-api-examples/vibeinput/typestr/typestr.c:53-57 | One loop step advances 1 to 4 bytes without crossing the terminator. An invalid sequence yields its raw first byte and advances 1. Otherwise the step is the decoder's result. |
| TypeStr.Scan | cxx-api-examples/vibeinput/typestr/typestr.c:78-85 | Every code point the loop visits is non-zero and at most 0x10FFFF. |
| TypeStr.Strlen | cxx-api-examples/vibeinput/typestr/typestr.c:51 | The loop ends at the first NUL byte. |
| TypeStr.ScanBounded | cxx-api-examples/vibeinput/typestr/typestr.c:76-86 | The loop emits at most one value per byte before the terminator. |
| TypeStr.ScanOfEncoding | cxx-api-examples/vibeinput/typestr/typestr.c:50-73 | On the well-formed UTF-8 encoding of non-zero code points, the visited code points are exactly those code points, in order. |
| TypeStr.ScanStep | cxx-api-examples/vibeinput/typestr/typestr.c:72 | The visited sequence is the current code point followed by the sequence visited from `p + n`. |
| TypeStr.GenericStep | cxx-api-examples/vibeinput/typestr/typestr.c:78-85 | One pass of the generic loop emits the `unicodeType` call of the current code point, then the sleep if `tm > 0`, then what the loop emits from `p + n`. `p + n` is still a C string. |
| TypeStr.X11Step | cxx-api-examples/vibeinput/typestr/typestr.c:50-73 | One pass of the X11 loop emits the events of the current code point, then what the loop emits from `p + n`. `p + n` is still a C string. |
| TypeStr.X11OneMeaning | cxx-api-examples/vibeinput/typestr/typestr.c:59-71 | An ASCII code point is one direct `unicodeType(cp, 0, 0)`, followed by the `tm` sleep when `tm > 0`. Any other is one `input_utf` whose keysym is "U" plus hex digits that read back to the code point, then the `tm1` and `tm` sleeps when positive. For a scalar value the keysym and its NUL fit the 16-byte buffer. |
| TypeStr.X11Keys | cxx-api-examples/vibeinput/typestr/typestr.c:59-71 | The calls for one code point are those events: for a wide code point, one `input_utf` whose keysym names the code point in hex and fits the buffer, and only sleeps after it. |
| TypeStr.Hex | cxx-api-examples/vibeinput/typestr/typestr.c:67 | `%X` gives at least one digit, all digits are upper-case hex, and there is no leading zero. |
| TypeStr.HexRoundTrip | cxx-api-examples/vibeinput/typestr/typestr.c:67 | The hex digits read back to the code point. |
| TypeStr.DigitRoundTrip | cxx-api-examples/vibeinput/typestr/typestr.c:67 | Each `%X` digit reads back to its value below 16. |
| TypeStr.HexFitsBuffer | cxx-api-examples/vibeinput/typestr/typestr.c:65-67 | For every code point, "U" plus its hex digits plus NUL fits in the 16-byte buffer. |
| TypeStr.HexLength | cxx-api-examples/vibeinput/typestr/typestr.c:67 | A number below 16^k has at most k hex digits. |
| TypeStr.GenericWithoutDelay | cxx-api-examples/vibeinput/typestr/typestr.c:82-83 | With no delay, the generic path is one `unicodeType` call per code point, in order, carrying the caller's pid and isPid. |
| TypeStr.TypeStrGeneric | cxx-api-examples/vibeinput/typestr/typestr.c:76-86 | The loop emits, for each visited code point, `unicodeType(cp, pid, isPid)` followed by a sleep when `tm > 0`. |
| TypeStr.TypeStrX11 | cxx-api-examples/vibeinput/typestr/typestr.c:46-74 | The X11 loop emits the X11 events of each visited code point, in order. |
| TypeStr.TypeStr | cxx-api-examples/vibeinput/typestr/typestr.c:88-95 | A NULL text emits nothing. Otherwise the build's loop runs. |
| TypeStr.TypeStrSimple | cxx-api-examples/vibeinput/typestr/typestr.c:97-99 | The result equals `typestr(text, 0, 0, 7, 0)`. |
| Search.Find | cxx-api-examples/vibeinput/vibeinput.cc:388 | `find(pat, from)` returns the first match at or after `from`. `npos` means there is no match at any position at or after `from`. |
| Search.FindFromStart | cxx-api-examples/vibeinput/vibeinput.cc:52-53 | `find(pat) != npos` exactly when the text contains the pattern. |
| Commands.StopVoiceInputIsUtf8 | cxx-api-examples/vibeinput/vibeinput.cc:52 | The byte constant is the UTF-8 encoding of 停止语音输入. |
| Commands.StopInputIsUtf8 | cxx-api-examples/vibeinput/vibeinput.cc:53 | The byte constant is the UTF-8 encoding of 停止输入. |
| Commands.OpenVoiceInputIsUtf8 | cxx-api-examples/vibeinput/vibeinput.cc:61 | The byte constant is the UTF-8 encoding of 开启语音输入. |
| Commands.StartVoiceInputIsUtf8 | cxx-api-examples/vibeinput/vibeinput.cc:62 | The byte constant is the UTF-8 encoding of 启动语音输入. |
| Commands.Classify | cxx-api-examples/vibeinput/vibeinput.cc:52-70 | A text is a pause command exactly when it contains a pause phrase. It is a resume command exactly when it contains a resume phrase and no pause phrase. It is no command exactly when it contains neither, so pause phrases win. |
| Commands.CommandIdempotent | cxx-api-examples/vibeinput/vibeinput.cc:54-67 | Applying the same command twice leaves the flag as applying it once. |
| Commands.PausePhraseInSentence | cxx-api-examples/vibeinput/vibeinput.cc:52-53 | A pause phrase inside a longer sentence (请停止输入谢谢) is still a pause command. |
| Commands.ResumePhraseAlone | cxx-api-examples/vibeinput/vibeinput.cc:61-62 | 开启语音输入 on its own is a resume command. |
| Commands.Normalize | cxx-api-examples/vibeinput/vibeinput.cc:385-391 | The in-place find/replace loop terminates, and its result is the clean replacement of every E3 80 82 by a comma. |
| Commands.NoFullStopLeft | cxx-api-examples/vibeinput/vibeinput.cc:388-391 | The normalised text contains no E3 80 82 at any position. |
| Commands.ReplaceLength | cxx-api-examples/vibeinput/vibeinput.cc:389 | The output is 2 bytes shorter per occurrence of the full stop. |
| Commands.ReplaceWithoutFullStop | cxx-api-examples/vibeinput/vibeinput.cc:388 | A text without a full stop is left unchanged. |
| Commands.ReplaceIdempotent | cxx-api-examples/vibeinput/vibeinput.cc:385-391 | Normalising a normalised text changes nothing. |
| Commands.ReplaceKeepsChar | cxx-api-examples/vibeinput/vibeinput.cc:389-390 | A three-byte character with no E3 byte is kept in place. |
| Commands.ReplaceFullStopChar | cxx-api-examples/vibeinput/vibeinput.cc:389 | A leading full stop becomes exactly one comma. |
| Commands.ReplaceHead | cxx-api-examples/vibeinput/vibeinput.cc:389-390 | The first output byte is the first input byte, or a comma that replaced a leading full stop. |
| Commands.ReplaceExample | cxx-api-examples/vibeinput/vibeinput.cc:382-391 | 你好。世界。 becomes 你好,世界,. |
| Commands.ReplaceSentences | cxx-api-examples/vibeinput/vibeinput.cc:385-391 | Two sentences of two three-byte characters each, every one ended by a full stop, come out with each full stop replaced by one comma and the characters kept. |
| Commands.FinalRoute | cxx-api-examples/vibeinput/vibeinput.cc:379-399 | The flag after a final result is the command's effect, and the display is synced exactly when the flag changed. The text is typed exactly when the flag is clear afterwards, and what is typed is the normalised text. |
| Commands.PausePhraseNeverTyped | cxx-api-examples/vibeinput/vibeinput.cc:379-381 | A text holding a pause phrase is never typed. |
| Commands.ResumePhraseIsTyped | cxx-api-examples/vibeinput/vibeinput.cc:379-396 | As written, the utterance 开启语音输入 is typed verbatim, whatever the earlier flag. |
| Commands.ResumeIsTyped | cxx-api-examples/vibeinput/vibeinput.cc:379-396 | As written, any resume command is typed after normalisation, whatever the earlier flag. |
| Commands.FinalRouteIntended | cxx-api-examples/vibeinput/vibeinput.cc:47-48 | With the command verdict honoured, a text is typed exactly when the flag is clear afterwards and the text is no command. |
| Commands.IntendedNeverTypesCommands | cxx-api-examples/vibeinput/vibeinput.cc:47-48 | Under the intended routing, no text that holds a command phrase is typed. On every other text the intended routing agrees with the routing as written. |
| Paths.ExpandUser | cxx-api-examples/vibeinput/vibeinput.cc:101-112 | Three cases. A path not of the form `~`, `~/x` or `~\x`, or any path when home is empty, is returned unchanged. `~` alone gives home. `~/x` and `~\x` give home joined with `x`. |
| Paths.TildeUserUnchanged | cxx-api-examples/vibeinput/vibeinput.cc:102-111 | `~alice/models` is not expanded. |
| Paths.FirstFile | cxx-api-examples/vibeinput/vibeinput.cc:122-142 | The reference search returns a candidate that is a file and that no earlier candidate beats: every candidate before it is not a file. It returns none exactly when no candidate is a file. |
| Paths.ResolveModelFile | cxx-api-examples/vibeinput/vibeinput.cc:120-143 | A result is always a regular file and one of the candidate places. |
| Paths.ResolveIsFirstFile | cxx-api-examples/vibeinput/vibeinput.cc:122-142 | The lookup returns the first regular file among: the expanded path; then, for a bare name, ./model-dir/name and ~/model-dir/name. |
| Paths.ExplicitMissingFails | cxx-api-examples/vibeinput/vibeinput.cc:126-129 | An explicit path that is not a file fails, and the model directories are not searched. |
| Paths.CwdBeforeHome | cxx-api-examples/vibeinput/vibeinput.cc:131-140 | A bare name found in ./model-dir is taken from there, even if ~/model-dir also has it. |
| Paths.ResolveModels | cxx-api-examples/vibeinput/vibeinput.cc:214-235 | Empty names take their defaults. The models resolve exactly when all three files are found. Otherwise the first missing one (VAD, then ASR, then tokens) is reported with its name. |
| Vad.VoiceActivityDetector.constructor | cxx-api-examples/vibeinput/vibeinput.cc:242 | A fresh detector has been fed nothing and has no finished segment. |
| Vad.VoiceActivityDetector.AcceptWaveform | cxx-api-examples/vibeinput/vibeinput.cc:325 | The window is appended to the history, and the segments it completes join the queue of finished segments. |
| Vad.VoiceActivityDetector.IsEmpty | cxx-api-examples/vibeinput/vibeinput.cc:366 | True exactly when no finished segment waits. |
| Vad.VoiceActivityDetector.Pop | cxx-api-examples/vibeinput/vibeinput.cc:369 | The oldest segment is dropped and the history is not touched. |
| VibeInput.State.constructor | cxx-api-examples/vibeinput/vibeinput.cc:29-35 | Initially nothing is paused, stopping, running or queued. |
| VibeInput.State.TogglePause | cxx-api-examples/vibeinput/vibeinput.cc:39-45 | The pause flag is negated. |
| VibeInput.State.TogglePauseTwice | cxx-api-examples/vibeinput/vibeinput.cc:39-41 | Two toggles restore the flag. |
| VibeInput.State.VibeInputTogglePause | cxx-api-examples/vibeinput/vibeinput.cc:438-441 | The flag is toggled and the display is synced once. |
| VibeInput.State.IsPaused | cxx-api-examples/vibeinput/vibeinput.cc:154-156 | The query returns the pause flag. |
| VibeInput.State.HandleVoiceCommand | cxx-api-examples/vibeinput/vibeinput.cc:47-71 | Returns true exactly when the text holds one of the four phrases. The new flag is the command's effect: a pause phrase sets it, a resume phrase alone clears it, and other text leaves it. The display is synced exactly when the flag changed. |
| VibeInput.State.RecordCallback | cxx-api-examples/vibeinput/vibeinput.cc:73-86 | The chunk is appended to the queue. Recording continues unless a stop was requested. |
| VibeInput.State.Start | cxx-api-examples/vibeinput/vibeinput.cc:415-426 | A start while running changes nothing. Otherwise the engine runs with `stop` cleared. Assigning a new thread over a still-joinable one terminates the process. |
| VibeInput.State.WorkerReturns | cxx-api-examples/vibeinput/vibeinput.cc:422-425 | When the worker function returns, `running` is cleared. The thread object is left joinable. |
| VibeInput.State.Stop | cxx-api-examples/vibeinput/vibeinput.cc:428-436 | A stop when not running changes nothing. Otherwise `stop` is set, the worker is joined and `running` is cleared. |
| VibeInput.State.StartJoined | cxx-api-examples/vibeinput/vibeinput.cc:415-426 | A start that joins a finished thread first always leaves a running, live worker and never terminates the process. |
| VibeInput.State.StopJoined | cxx-api-examples/vibeinput/vibeinput.cc:428-436 | A stop that also joins a thread that returned on its own always leaves nothing running or joinable. |
| VibeInput.EarlyReturnThenRestart | cxx-api-examples/vibeinput/vibeinput.cc:415-436 | The sequence start, worker returns early, stop, start ends with the process terminated. |
| VibeInput.EarlyReturnThenRestartJoined | cxx-api-examples/vibeinput/vibeinput.cc:415-436 | The same sequence with the joining versions ends with a running engine and no termination. |
| VibeInput.WindowsContiguous | cxx-api-examples/vibeinput/vibeinput.cc:324-330 | The k-th window fed is the 512 samples starting 512·k after the old offset. The windows stay inside the buffer, and at most 512 unread samples remain after them. |
| VibeInput.Texts | cxx-api-examples/vibeinput/vibeinput.cc:366-377 | There is one recognizer text per finished segment, in order. |
| VibeInput.PausedTextsNotTyped | cxx-api-examples/vibeinput/vibeinput.cc:366-399 | Draining any series of results that all hold a pause phrase passes nothing to `got_input` and types nothing. |
| VibeInput.PausedStaysQuiet | cxx-api-examples/vibeinput/vibeinput.cc:379-399 | A paused engine that drains any series of results without a resume phrase stays paused, passes nothing to `got_input` and types nothing. |
| VibeInput.AfterIngest | cxx-api-examples/vibeinput/vibeinput.cc:313-321 | The buffer grows by exactly the (resampled) chunk, appended after the old samples; nothing else changes. |
| VibeInput.AfterFeed | cxx-api-examples/vibeinput/vibeinput.cc:324-330 | The read position ends within the same buffer with at most 512 samples unread. The detector history only grows, and `speech_started` once set stays set. |
| VibeInput.AfterTrim | cxx-api-examples/vibeinput/vibeinput.cc:331-336 | The unread samples are kept. Before speech starts the buffer ends no longer than ten windows. Only the buffer and offset change. |
| VibeInput.AfterSpeculate | cxx-api-examples/vibeinput/vibeinput.cc:345-364 | Without speech past 0.4 s nothing changes. Otherwise the buffer's text is added to the previews and the flag becomes its command's effect; only previews, flag and syncs change, and nothing is typed. |
| VibeInput.AfterDrain | cxx-api-examples/vibeinput/vibeinput.cc:366-408 | No finished segment is left, and the history and previews are untouched. With no segment nothing changes; with any, the buffer, offset and `speech_started` are reset. |
| VibeInput.AfterDrainEffect | cxx-api-examples/vibeinput/vibeinput.cc:366-399 | The flag, syncs, inputs and keys after the drain are the old ones extended by the effect of routing the segments' texts in order. |
| VibeInput.DrainOneStep | cxx-api-examples/vibeinput/vibeinput.cc:366-408 | Routing the oldest segment and resetting the speech state leaves a state whose drain ends where the drain of the original state ends. |
| VibeInput.Iterate | cxx-api-examples/vibeinput/vibeinput.cc:313-408 | One iteration ends with the read position valid and at most 512 samples unread, no segment waiting, the history extended, and, before speech starts, at most ten windows buffered. |
| VibeInput.SpeculativePauseHoldsTyping | cxx-api-examples/vibeinput/vibeinput.cc:345-399 | During speech past 0.4 s, a speculative text holding a pause phrase leaves the engine paused, and none of the segments finished in the same iteration is typed or passed to `got_input`, unless one holds a resume phrase. |
| VibeInput.Worker.constructor | cxx-api-examples/vibeinput/vibeinput.cc:284-288 | The worker starts with an empty buffer, offset 0 and no speech. |
| VibeInput.Worker.Ingest | cxx-api-examples/vibeinput/vibeinput.cc:313-321 | The oldest chunk leaves the queue and is appended to the buffer, resampled when a resampler exists. The snapshot of the iteration's state moves exactly as `AfterIngest` says. |
| VibeInput.Worker.FeedWindows | cxx-api-examples/vibeinput/vibeinput.cc:324-330 | The offset moves by 512 per window fed and ends within the buffer, with at most 512 samples unread. The detector receives exactly those windows. `speech_started` becomes true exactly when the detector reported speech after one of them. The snapshot moves as `AfterFeed` says. |
| VibeInput.Worker.FeedOne | cxx-api-examples/vibeinput/vibeinput.cc:325-329 | One window is appended to the detector history and the segments it completes join the queue. `speech_started` becomes true exactly when it was already true or the detector now reports speech. |
| VibeInput.Worker.TrimLookback | cxx-api-examples/vibeinput/vibeinput.cc:331-336 | Before speech starts, a buffer longer than 5120 samples is cut to its last 5120, and the offset moves back by the number dropped. The offset stays within the buffer and every unread sample is kept. The snapshot moves as `AfterTrim` says. |
| VibeInput.Worker.Speculate | cxx-api-examples/vibeinput/vibeinput.cc:345-364 | After 0.4 s of speech the whole buffer is decoded, shown as a preview and handled as a command, but never typed. Otherwise none of these happens. The snapshot moves as `AfterSpeculate` says. |
| VibeInput.Worker.RouteFinal | cxx-api-examples/vibeinput/vibeinput.cc:379-399 | One final result changes the flag, the syncs, `got_input` and the typed keys exactly as the routing as written says. |
| VibeInput.Worker.DrainOne | cxx-api-examples/vibeinput/vibeinput.cc:366-408 | The oldest segment leaves the queue, the history is untouched, and the buffer, offset and `speech_started` are reset. Draining the rest from the new snapshot ends where draining all from the old one ends. |
| VibeInput.Worker.DrainSegments | cxx-api-examples/vibeinput/vibeinput.cc:366-408 | Every finished segment is routed in order; the flag, syncs, inputs and keys are those of the fold of the routing over their texts. The speech state is reset if and only if there was a segment. The snapshot moves as `AfterDrain` says. |
| VibeInput.Worker.Step | cxx-api-examples/vibeinput/vibeinput.cc:298-408 | A stop request ends the loop and an empty queue waits; in both the queue and the whole snapshot are unchanged. Otherwise the oldest chunk leaves the queue and the snapshot becomes `Iterate` of the old one with that chunk. |
| VibeInput.Worker.Process | cxx-api-examples/vibeinput/vibeinput.cc:313-408 | The oldest chunk leaves the queue and the snapshot (buffer, offset, speech flag, detector history and queue, pause flag, syncs, previews, inputs, keys) becomes `Iterate` of the old one with that chunk. |
| VibeInput.Worker.Listen | cxx-api-examples/vibeinput/vibeinput.cc:313-336 | The oldest chunk leaves the queue; the snapshot after it is the ingest, feed and trim stages applied in order. |
| VibeInput.Worker.Respond | cxx-api-examples/vibeinput/vibeinput.cc:345-408 | The snapshot after it is the speculative stage followed by the drain stage. |
| Preferences.TrimStart | cxx-api-examples/vibeinput/preference_manager.cpp:36 | The result is a suffix of the input. Only whitespace was removed, and the result does not start with whitespace. |
| Preferences.TrimEnd | cxx-api-examples/vibeinput/preference_manager.cpp:36 | The result is a prefix of the input. Only whitespace was removed, and the result does not end with whitespace. |
| Preferences.Trim | cxx-api-examples/vibeinput/preference_manager.cpp:36 | The result is a contiguous slice of the input with only whitespace before and after it, and it neither starts nor ends with whitespace. |
| Preferences.ToLower | cxx-api-examples/vibeinput/preference_manager.cpp:26 | The result has the same length, with every character lower-cased. |
| Preferences.NormalizeHotkey | cxx-api-examples/vibeinput/preference_manager.cpp:36-37 | The stored hotkey is never empty. It is the trimmed argument, or F12 when nothing is left. |
| Preferences.NormalizeMethod | cxx-api-examples/vibeinput/preference_manager.cpp:49-52 | The stored method is always gtcrn, rnnoise or none. It is the trimmed, lower-cased argument when that is one of them, and gtcrn otherwise. |
| Preferences.LoadedHotkey | cxx-api-examples/vibeinput/preference_manager.cpp:22-23 | The loaded hotkey is never empty. A non-empty stored value (or the current one when the key is absent) is taken untrimmed; an empty one gives F12. |
| Preferences.LoadedMethod | cxx-api-examples/vibeinput/preference_manager.cpp:26-30 | The loaded method is always one of the three. A lower-cased known value is taken as is; any other value gives gtcrn. |
| Preferences.TrimPadding | cxx-api-examples/vibeinput/preference_manager.cpp:36 | Whitespace around a value does not change its trim. |
| Preferences.TrimIdempotent | cxx-api-examples/vibeinput/preference_manager.cpp:36 | Trimming twice is trimming once. |
| Preferences.TrimLower | cxx-api-examples/vibeinput/preference_manager.cpp:49 | Trimming and lower-casing commute. |
| Preferences.MethodInsensitive | cxx-api-examples/vibeinput/preference_manager.cpp:49-52 | Two method inputs that agree up to case and surrounding whitespace are stored as the same method. |
| Preferences.MethodExample | cxx-api-examples/vibeinput/preference_manager.cpp:49 | " RNNoise " is stored as "rnnoise". |
| Preferences.HotkeyIdempotent | cxx-api-examples/vibeinput/preference_manager.cpp:35-38 | A stored hotkey normalises to itself, so setting it again is no change. |
| Preferences.MethodIdempotent | cxx-api-examples/vibeinput/preference_manager.cpp:48-53 | A stored method normalises to itself. |
| Preferences.LoadSyncs | cxx-api-examples/vibeinput/preference_manager.cpp:18-31 | After `load` the fields agree with what a second `load` would read, so loading twice is loading once. |
| Preferences.HotkeyRoundTrip | cxx-api-examples/vibeinput/preference_manager.cpp:22-41 | A hotkey written by `setHotkey` is read back unchanged by `load`. |
| Preferences.MethodRoundTrip | cxx-api-examples/vibeinput/preference_manager.cpp:26-56 | A method written by `setDenoiseMethod` is read back unchanged by `load`. |
| Preferences.SetHotkeyKeepsSync | cxx-api-examples/vibeinput/preference_manager.cpp:35-43 | If the fields agree with the file before `setHotkey`, they agree after it. |
| Preferences.SetMethodKeepsSync | cxx-api-examples/vibeinput/preference_manager.cpp:48-58 | If the fields agree with the file before `setDenoiseMethod`, they agree after it. |
| Preferences.HotkeyWriteKeepsMethod | cxx-api-examples/vibeinput/preference_manager.cpp:26-41 | Writing the hotkey entry does not change the method `load` reads. |
| Preferences.MethodWriteKeepsHotkey | cxx-api-examples/vibeinput/preference_manager.cpp:22-56 | Writing the method entry does not change the hotkey `load` reads. |
| Preferences.PreferenceManager.constructor | cxx-api-examples/vibeinput/preference_manager.h:38-39 | The initial hotkey is F12 and the initial method is gtcrn, with nothing written or signalled. |
| Preferences.PreferenceManager.Load | cxx-api-examples/vibeinput/preference_manager.cpp:18-31 | Both fields are read from the file, falling back on their current values. The hotkey is non-empty, the method is whitelisted, and the fields are in sync with the file. |
| Preferences.PreferenceManager.SetHotkey | cxx-api-examples/vibeinput/preference_manager.cpp:35-44 | The field becomes the normalised hotkey. When that equals the old value nothing is written or signalled. Otherwise exactly one write and one signal carry the new value, and sync with the file is kept. |
| Preferences.PreferenceManager.SetDenoiseMethod | cxx-api-examples/vibeinput/preference_manager.cpp:48-59 | The field becomes the normalised method. When that equals the old value nothing is written or signalled. Otherwise exactly one write and one signal carry the new value, and sync with the file is kept. |
| Preferences.PreferenceManager.StoreHotkey | cxx-api-examples/vibeinput/preference_manager.cpp:38-43 | A value equal to the current hotkey writes and signals nothing. Any other value becomes the field, and is written to the file and signalled exactly once. |
| Preferences.PreferenceManager.StoreMethod | cxx-api-examples/vibeinput/preference_manager.cpp:53-58 | A value equal to the current method writes and signals nothing. Any other value becomes the field, and is written to the file and signalled exactly once. |
| Preferences.PreferenceManager.SetHotkeyTwice | cxx-api-examples/vibeinput/preference_manager.cpp:35-44 | Setting the same hotkey twice is setting it once: when the normalised value equals the old field the file, writes and signals are unchanged; otherwise the file holds it and exactly one write and one signal carry it. |
| Preferences.PreferenceManager.SetDenoiseMethodTwice | cxx-api-examples/vibeinput/preference_manager.cpp:48-59 | Setting the same method twice is setting it once: when the normalised value equals the old field the file, writes and signals are unchanged; otherwise the file holds it and exactly one write and one signal carry it. |
| Preferences.PreferenceManager.SetHotkeyThenLoad | cxx-api-examples/vibeinput/preference_manager.cpp:18-44 | Once loaded, a hotkey that was set survives a reload, and the method is untouched. |
| Preferences.PreferenceManager.SetDenoiseMethodThenLoad | cxx-api-examples/vibeinput/preference_manager.cpp:18-59 | Once loaded, a method that was set survives a reload, and the hotkey is untouched. |

## Left out

- Threads, the mutex, the condition variable and the atomics are not modelled.
  - The model is sequential. The queue is a sequence, and the condition-variable wait is the `Idle` outcome of `Worker.Step`.
  - `Worker.Step` models one iteration of the worker loop. The outer `while (!g_stop)` is its repetition.
- The PortAudio device is not modelled: opening it, counting devices, `SHERPA_ONNX_MIC_DEVICE` and `SHERPA_ONNX_MIC_SAMPLE_RATE`. Hardware and environment lie outside the logic.
- `LinearResampler` is an optional pure function. Its filter state across chunks is floating-point DSP in a library that is not part of this model.
- The VAD and recognizer engines are oracles:
  - Their configuration constants are inside the ONNX engines.
  - `CreateVad` and `CreateOfflineRecognizer` exiting on failure are not modelled.
  - Sample values are an opaque type, since only positions and lengths matter.
- Timing is not modelled. `started_time`, `steady_clock` and the 0.4 s threshold become the boolean `elapsedOver`.
- `microsleep` delays are `Sleep` events and take no time.
- Console output is not modelled, nor is the usage text.
- `GetHomeDir` is not modelled: the `HOME`, `USERPROFILE` and `HOMEDRIVE`/`HOMEPATH` environment variables become the parameter `home`.
- `FileExists` and `fs::current_path` are fields of the abstract file system.
- Paths.Explicit: `is_absolute() || has_parent_path()` is taken with POSIX rules. A given string counts as explicit exactly when it contains '/', so Windows drive letters and backslash separators are not modelled.
- The separator rules of `std::filesystem::path` joins are not modelled. A join stays a symbolic `Join`.
- Utf8.DecodeOne: the NULL-pointer test `if (!s) return 0` is not modelled, because the model has no null pointer. NULL is modelled for `typestr` itself, as `None`.
- The optional `out` pointer of `utf8_decode_one` is not modelled. The code point is always returned.
- Worker offsets and sizes are unbounded integers. The `int32_t` offset against `size_t` comparison is sound because `Worker.Valid` (offset within the buffer) is kept; its width is not modelled.
- The dual pause API declared in `vibeinput.h:19-29` is not modelled. It has no definition in `vibeinput.cc`.
- The GUI callbacks `sync_display`, `got_tmp_input` and `got_input`, and the key injection (`unicodeType`, `input_utf`), are logs on the engine state.
- `QSettings` is a map from key to value.
  - The INI path (`ini_path_`, `iniPath()`, `applicationDirPath`) is not modelled.
  - The `instance()` singleton is not modelled.
  - Failure of `sync()` is not modelled.
  - Keys other than `pause_hotkey` and `denoise_method` are not modelled.
- Preferences.Trim: `QString::trimmed` is taken on ASCII whitespace only (space, tab, LF, VT, FF, CR). Unicode spaces are not trimmed.
- Preferences.ToLower: `QString::toLower` is taken on ASCII letters only.
- Preferences.PreferenceManager.SetHotkeyThenLoad and Preferences.PreferenceManager.SetDenoiseMethodThenLoad require the fields to be in sync with the file.
  - That holds after any `load` and is kept by both setters.
  - Before the first `load`, the file may hold a value the fields do not reflect, and a reload may then change it.
- Qt signals are logs of their values. Connected slots are not modelled.
- The GUI files (`mainwindow.cpp`, `preferenceform.cpp`, `main.cpp`) and `typestr/demo.c` are not part of this model.

## Findings

| source | as written | input that shows it | evidently intended | confidence | as-written member | corrected member |
|---|---|---|---|---|---|---|
| cxx-api-examples/vibeinput/vibeinput.cc:379 | The drain loop discards `HandleVoiceCommand`'s verdict and types the text whenever the engine is not paused afterwards. | The final result 开启语音输入 resumes input and is then typed into the focused window. | The comment at vibeinput.cc:48 says a pause/resume command should not be typed. | not executed | Commands.ResumePhraseIsTyped | Commands.IntendedNeverTypesCommands |
| cxx-api-examples/vibeinput/vibeinput.cc:415-436 | When `WorkerMain` returns on its own, for example because a model file is missing, the thread clears `g_running` but `g_worker` stays joinable. `VibeInputStop` then returns early without joining, and the next `VibeInputStart` assigns a new `std::thread` over a joinable one, which calls `std::terminate`. | Start with a missing VAD model file; the worker returns -1; Stop; Start. | Stop, or Start, joins a finished worker thread before a new one is assigned. | not executed | VibeInput.EarlyReturnThenRestart | VibeInput.EarlyReturnThenRestartJoined |
