# Yokogawa AQ6370D acquisition core, modelled in Dafny

This project models the part of the repository that talks to a Yokogawa
AQ6370D optical spectrum analyser over Ethernet and turns its replies into
spectra. It covers two files. From `OSA.py` it models class `OSA`. From
`OSACode_ForFiO.py` it models class `AQ6370D` and the acquisition script at
the bottom of that file. Each part is modelled and proved:

- **Wire** (`Wire.dfy`) covers the byte stream. It shows how a command is
  framed with CRLF and what a scripted peer delivers. It models one
  `recv(4096)` and how `__query__` reassembles a response from those reads,
  up to the first empty read or timeout.
- **FloatSyntax** (`FloatSyntax.dfy`) covers two pieces of Python. The first is
  `str.strip()` with the whitespace set of `str.isspace`. The second is whether
  `float()` accepts a token (the decimal and exponent grammar, `inf`, `nan`
  and underscores between digits).
- **Payload** (`Payload.dfy`) finds the numeric payload after the first `ready`.
  It splits the payload on commas, drops blank segments and requires every
  remaining segment to be a float. It also models `ArrayForLabview`.
- **Driver** (`Driver.dfy`) is class `OSA`, kept as class `Osa` with its
  `socket` field. Class `AQ6370D` repeats the same `open_socket`,
  `close_socket`, `send_command`, `__query__` and `initialize_connection`
  code, so one class models both.
  - The socket is a mock. It holds an option of a socket state.
  - Every line the driver writes is appended to `sent`.
  - The peer's replies are a script of deliveries, fixed when the socket is
    opened.
  - `GetSingleTrace` is `OSA.get_single_trace`. `GetRawTrace` is
    `AQ6370D.get_single_trace`, which returns the raw reply.
- **Acquisition** (`Acquisition.dfy`) is the `__main__` loop of
  `OSACode_ForFiO.py`. Each iteration builds a fresh driver object and fetches
  one raw trace. A trace is kept only when it parses and has as many samples
  as the first accepted trace. Kept traces are saved with indices 1, 2, …
  until the required number is reached.

`float()` values, `np.linspace` values, sockets, clocks and files are left
out. Samples are kept as the token strings `float()` would convert. A
wavelength axis is kept as its two bounds and its number of points.

The model follows the code in three places where the code's behaviour is
easy to misread:

- A sample `float()` rejects raises out of the acquisition loop. The script
  does not discard the trace and go on.
- On a length mismatch, `continue` skips the 0.1 s sleep as well.
- Both variants of `open_socket` and `initialize_connection` swallow their
  exceptions. A failed `connect` still leaves a socket object in
  `self.socket`, and every later `send` on it fails silently.

## Model

| member | source | states |
|---|---|---|
| Wire.Framed | OSA.py:87 | the line written for a command is the command followed by exactly CRLF |
| Wire.Read | OSA.py:104 | one `recv(4096)` returns a whole delivery of at most 4096 bytes, or its first 4096 bytes with the rest left queued in front of the script; an ended stream gives empty bytes, a timeout or an exhausted script times out, any other error fails; the script shrinks |
| Wire.Receive | OSA.py:101-111 | the receive loop's leftover script is bounded by the input script |
| Wire.ReceiveReadsToTerminator | OSA.py:101-111 | the reassembled response is the in-order concatenation of every chunk before the first empty read, timeout or error, whatever the chunk sizes; nothing after that terminator is read; an error is reported |
| Wire.Decode | OSA.py:113 | decoding never lengthens the text and yields only ASCII characters |
| Wire.DecodeAscii | OSA.py:113 | on ASCII bytes decoding is the identity, character for byte |
| FloatSyntax.StripLeft | OSA.py:223 | no leading whitespace remains; the result is empty exactly when the input is blank |
| FloatSyntax.StripRight | OSA.py:223 | the result is empty exactly when the input is blank |
| FloatSyntax.Strip | OSA.py:223 | `segment.strip()` is empty exactly when the segment is blank |
| FloatSyntax.IndexOf | OSA.py:223 | the first index holding either character, or -1 when neither occurs |
| FloatSyntax.LowerLength | OSA.py:223 | lower-casing keeps the length |
| FloatSyntax.FloatIsNotBlank | OSA.py:223 | `float()` rejects every blank token |
| FloatSyntax.ShortDecimal | OSA.py:223 | `float()` accepts a one-digit decimal such as `1.0` |
| Payload.FindFrom | OSA.py:217 | the first occurrence of the pattern at or after a position, and no earlier one; none exactly when it never occurs there |
| Payload.Find | OSA.py:217-220 | `'ready' in text` and `split('ready', 1)`: the first occurrence with none before it, or none at all |
| Payload.Split | OSA.py:223 | `split(",")` gives at least one segment, none containing a comma |
| Payload.JoinSplit | OSA.py:223 | joining the segments with commas gives back the text |
| Payload.SplitJoin | OSA.py:223 | splitting a comma-join of comma-free segments gives back the segments |
| Payload.JoinAppend | OSA.py:223 | joining two segment lists is joining each and putting a comma between |
| Payload.SplitAppend | OSA.py:223 | splitting around a comma splits each side |
| Payload.SplitCount | OSA.py:223 | a text has at most one more segment than characters |
| Payload.NonBlank | OSA.py:223 | filtering blank segments never adds segments |
| Payload.NonBlankMembers | OSA.py:223 | the kept segments are exactly the non-blank ones |
| Payload.NonBlankAppend | OSA.py:223 | the filter distributes over concatenation |
| Payload.TokensAppend | OSA.py:223 | the samples on either side of a comma are those of each side, in order |
| Payload.TokensSegment | OSA.py:223 | a comma-free segment is one sample unless it is blank |
| Payload.TrailingCommaIgnored | OSA.py:223 | a trailing comma adds no sample |
| Payload.FirstNonFloat | OSA.py:223 | the first token `float()` rejects, every earlier one accepted; -1 when all are |
| Payload.ParseTrace | OSA.py:217-223 | no sentinel exactly when `ready` is absent; otherwise success exactly when every non-blank segment after the first `ready` is a float, the samples being those segments in order; a failure names a rejected token from them |
| Payload.ParsedSamples | OSA.py:223 | every parsed sample is a float, non-blank and comma-free |
| Payload.ParseResponse | OSA.py:216 | `None` and the empty reply are no response; any other reply is parsed |
| Payload.SentinelFirst | OSA.py:220 | text before the first `ready` has no effect on the parse |
| Payload.NothingAfterSentinel | OSA.py:220-223 | a reply whose only `ready` is at its very end yields zero samples |
| Payload.NoSentinelWithoutY | OSA.py:217 | a reply without a `y` has no sentinel |
| Payload.MissingSentinelExample | OSA.py:217 | a reply without `ready` is rejected |
| Payload.ParseExample | OSA.py:217-223 | `junk,ready,1.0,2.0,,3.0` parses to the three samples, with the echo and the empty segment ignored |
| Payload.ExamplePayloadTokens | OSA.py:223 | the payload of that example holds exactly three tokens |
| Payload.LeadingCommaIgnored | OSA.py:223 | a leading comma adds no sample |
| Payload.FirstSample | OSA.py:223 | a non-blank segment before the first comma is the first sample |
| Payload.ThreeSamples | OSA.py:223 | an empty leading segment and a doubled comma add no samples |
| Payload.ArrayForLabview | OSA.py:238-242 | raises without `ready`; succeeds exactly when every segment, blank ones included, is a float; the axis has `len(InputArray)` points |
| Payload.LabviewRejectsBlankSegment | OSA.py:240 | a blank segment after `ready` makes it raise |
| Payload.LabviewAxisOutgrowsSamples | OSA.py:241 | its axis always has more points than it returns samples |
| Payload.ArrayForLabviewCorrected | OSA.py:238-242 | same samples and failures, with an axis of exactly as many points as samples |
| Driver.Opened | OSA.py:58-70 | the socket is stored before `connect`, so a failed connect leaves a dead socket; a failed creation keeps the previous value unchanged; otherwise the new socket is connected exactly when `connect` succeeds and holds the new replies |
| Driver.Closed | OSA.py:72-78 | closing keeps whether there is a socket and leaves none working |
| Driver.QueryResult | OSA.py:94-119 | `None` without a working socket or when the reception ends in an error; otherwise the decoded bytes of every chunk before the terminator |
| Driver.AfterQuery | OSA.py:101-111 | the query consumes the deliveries up to and including the terminator, no more |
| Driver.Transmitted | OSA.py:80-92 | on a working socket every command is written framed, in order; otherwise nothing is written |
| Driver.TraceCommands | OSA.py:177-212 | a trace sends twelve commands, `open "anonymous"` first and the trace query last |
| Driver.TraceSelectsSingleSweep | OSA.py:199-200 | the setup selects sweep mode 1, which the table calls `SINGLE` |
| Driver.SweepModeCode | OSA.py:52-56 | only `SINGLE`, `REPEAT` and `AUTO` have a code, each between 1 and 3 |
| Driver.SweepModeRoundTrip | OSA.py:52-56 | name and code determine each other; only 1 to 3 name a mode |
| Driver.SingleTrace | OSA.py:212-233 | a trace exactly when the reply parses, holding its samples and an axis of as many points |
| Driver.SingleTraceFailures | OSA.py:214-233 | `get_single_trace` yields nothing exactly when the reply is `None` or empty, lacks `ready`, or holds a segment `float()` rejects |
| Driver.TraceTransmitted | OSA.py:177-212 | the login, setup and query lines together are the lines of one trace, in order |
| Driver.TransmittedAppend | OSA.py:80-92 | the lines written for consecutive command batches are those of the batches, in order |
| Driver.Osa.constructor | OSA.py:47-51 | a new driver has no socket and has written nothing |
| Driver.Osa.OpenSocket | OSA.py:58-70 | the socket becomes `Opened(...)`; nothing is written |
| Driver.Osa.CloseSocket | OSA.py:72-78 | an existing socket is closed exactly once; a missing one is left alone |
| Driver.Osa.SendCommand | OSA.py:80-92 | exactly `command + "\r\n"` is written once on a working socket and nothing otherwise; the socket is unchanged |
| Driver.Osa.Recv | OSA.py:104 | one read of the socket's script; a read on a dead socket fails |
| Driver.Osa.Query | OSA.py:94-119 | the query line is written, the result is `QueryResult` of the socket before the call, and the socket is left as `AfterQuery` says |
| Driver.Osa.InitializeConnection | OSA.py:121-129 | opens the socket, then writes `open "anonymous"` if it works |
| Driver.Osa.SetStartWavelength | OSA.py:131-135 | writes `:sens:wav:start <x>nm` |
| Driver.Osa.SetStopWavelength | OSA.py:137-141 | writes `:sens:wav:stop <x>nm` |
| Driver.Osa.SetWavelengthRange | OSA.py:143-149 | writes the start command, then the stop command |
| Driver.Osa.SetWavelengthSpan | OSA.py:151-155 | writes `:sens:wav:span <x>nm` |
| Driver.Osa.SetResolution | OSA.py:166-170 | writes `:sens:band:resolution <x>nm` |
| Driver.Osa.SetSweepModeAsWritten | OSA.py:157-165 | a known name raises for the missing `self.command`, any other name raises as invalid; nothing is sent |
| Driver.Osa.SetSweepMode | OSA.py:157-165 | a known name writes `:init:smode` with its code; any other name raises and writes nothing |
| Driver.Osa.SendSetup | OSA.py:179-209 | writes the ten configuration commands from `*RST` to `:init`, in order |
| Driver.Osa.SweepAndQuery | OSA.py:176-212 | writes the twelve trace commands in order on a working socket and returns the reply |
| Driver.Osa.GetSingleTrace | OSA.py:172-233 | writes the twelve commands, returns the parsed trace or nothing, and closes the socket exactly once if one exists |
| Driver.Osa.GetRawTrace | OSACode_ForFiO.py:108-132 | writes the twelve commands, returns the raw reply unchanged or `None`, and closes the socket exactly once if one exists (after a failed creation on a fresh object there is none) |
| Acquisition.Response | OSACode_ForFiO.py:177-178 | the raw trace a fresh driver object returns for one connection attempt |
| Acquisition.Responses | OSACode_ForFiO.py:176-178 | one raw trace per attempt |
| Acquisition.ResponsesAt | OSACode_ForFiO.py:177-178 | the i-th raw trace is what the i-th attempt returns |
| Acquisition.ResponsesNext | OSACode_ForFiO.py:176-178 | one more attempt adds its raw trace at the end |
| Acquisition.Fetch | OSACode_ForFiO.py:177-178 | a fresh `AQ6370D` object's `get_single_trace(600, 1100)` returns that raw trace |
| Acquisition.Consistent | OSACode_ForFiO.py:186-195 | the kept traces number at most the responses, each with exactly the target's sample count |
| Acquisition.FirstParsedSpec | OSACode_ForFiO.py:170-188 | no target exactly while no trace has parsed; a set target is the sample count of the first trace that parsed (zero included) |
| Acquisition.ConsistentFrom | OSACode_ForFiO.py:186-195 | every kept trace is the parse of a received response |
| Acquisition.NothingBeforeTarget | OSACode_ForFiO.py:180-188 | before any trace parses, nothing is kept |
| Acquisition.TargetFixed | OSACode_ForFiO.py:186-190 | once set, `target_data_length` never changes |
| Acquisition.ConsistentAppend | OSACode_ForFiO.py:186-195 | keeping consistent traces distributes over consecutive batches of responses |
| Acquisition.FirstParsedKept | OSACode_ForFiO.py:186-188 | the trace that sets the target is always kept |
| Acquisition.Step | OSACode_ForFiO.py:180-211 | one loop body: a rejected sample raises; the counter rises by one exactly on an accepted trace and otherwise counter, target and files are unchanged; an accepted trace is saved under the new count with an axis of its own length; the target never changes once set; only a mismatch skips the sleep |
| Acquisition.SavesAreConsistent | OSACode_ForFiO.py:186-203 | every saved file holds a received trace with exactly `target_data_length` samples |
| Acquisition.StepAccounts | OSACode_ForFiO.py:180-211 | every loop body that does not raise preserves the account of target, files and indices |
| Acquisition.PassedAccounts | OSACode_ForFiO.py:180-208 | a falsy, sentinel-free or mismatched trace changes nothing |
| Acquisition.KeptAccounts | OSACode_ForFiO.py:186-203 | an accepted trace is saved as the next file |
| Acquisition.KeptSamples | OSACode_ForFiO.py:186-203 | after an accepted trace the saved files hold exactly the traces of the target length |
| Acquisition.ScriptAsWritten | OSACode_ForFiO.py:170-178 | with `RequiredIterations` (fifty) required, the loop is entered and its first call raises for the missing wavelengths; no trace is fetched and nothing is saved |
| Acquisition.Acquire | OSACode_ForFiO.py:170-211 | consumes raw traces in order; completes exactly when the counter reaches the requirement; a rejected sample ends it with the last trace as culprit; the target is the length of the first trace that parsed; the files are exactly the traces of that length, indexed 1, 2, … with axes of their own length; each iteration either slept, was discarded or raised |

## Left out

- Real sockets are not modelled: no socket creation, `connect`, 20 s timeout or address lookup. A `Link` value says how `open_socket` turns out, and a script of deliveries stands for the peer.
- `time.sleep` delays are not modelled; `Acquisition.Step` only counts the iterations that end with the sleep.
- Printed diagnostics are not modelled. The `print(trace_data[:40])` of `get_single_trace` appears only through its effect, raising on a `None` reply.
- `socket.send` writing only part of a line is not modelled: a write on a working socket writes the whole line.
- Wire.Decode: drops every byte of 0x80 or above instead of decoding valid UTF-8 multi-byte sequences, so non-ASCII replies are weaker than the source's `decode('utf-8', errors='ignore')`.
- FloatSyntax.IsFloat: models only whether `float()` accepts a token, for ASCII digits only. The value is not modelled, and Unicode digits that `float()` also accepts are rejected.
- `np.linspace` values are not modelled: an axis keeps only its bounds, as the text they are given in, and its number of points.
- f-string number formatting is not modelled: wavelengths, spans and resolutions are taken as text already formatted.
- `save_data_to_csv` and `plot_data` are not modelled: a save is a record of its axis, samples and iteration index, and plotting is commented out in the script.
- `analyze_spectrum` is left out because it does nothing.
- The unused `self.data` list is left out.
- The script's timing prints are left out.
- WaveShaper.py is not part of this model. It is an HTTP client for another instrument.
- integration_v2.py is not part of this model. It is a numerical-integration script.
- Acquisition.Acquire: runs on a finite script of connection attempts. A script that runs out before the requirement is met ends with `Exhausted`, which stands for the real loop retrying forever. No claim is made that the source's loop terminates.

## Findings

| source | as written | input that shows it | evidently intended | confidence | as-written member | corrected member |
|---|---|---|---|---|---|---|
| OSA.py:163 | `set_sweep_mode` calls `self.command`, which class `OSA` does not define | `set_sweep_mode("SINGLE")` raises `AttributeError` and sends nothing | send `:init:smode 1` with `send_command` | high, not executed | Driver.Osa.SetSweepModeAsWritten | Driver.Osa.SetSweepMode |
| OSA.py:241 | `ArrayForLabview` sizes the wavelength axis by `len(InputArray)`, the length of the whole reply | `"ready1,2"` gives 2 samples and an 8-point axis | one axis point per sample, as `get_single_trace` does | high, not executed | Payload.LabviewAxisOutgrowsSamples | Payload.ArrayForLabviewCorrected |
| OSACode_ForFiO.py:178 | the script calls `osa.get_single_trace()` without the two wavelength arguments the method requires | any run with `required_iterations` = 50 raises `TypeError` on the first iteration, before a socket is opened, and saves nothing | `get_single_trace(600, 1100)`, the range the saved axis uses | high, not executed | Acquisition.ScriptAsWritten | Acquisition.Acquire |
