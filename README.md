# Lakeshore instrument drivers

A model of `driver.py`, the Python driver for three Lakeshore cryogenic
instruments:

- the **218** temperature monitor, on an RS-232 port (9600 baud, seven data
  bits, odd parity, one stop bit);
- the **350** temperature controller, on TCP port 7777;
- the **372** resistance bridge, on TCP port 7777.

Each instrument is a class that holds the link it talks over. The link is a
`Transport.Link`. It records every line written and every read, and it holds
the queue of replies the instrument will give, in order. A `None` in that
queue is a read that raises (a socket timeout or a port fault).

The modules:

- `Wrappers` holds `Option`, `Result` and `Outcome`.
- `Text` holds decimal digits, `str(int)`, and `split`/`join` at one
  separator.
- `Decimal` models the fixed-point numbers of `%.2f` and `%f`, rounded half
  to even on the exact value. It also models the part of Python's `float()`
  that parses decimal numerals.
- `Protocol` is the command set:
  - `Encode` is what the driver writes. `Decode` is how the instrument reads
    a line back.
  - `DecodeBatch` turns a comma-separated response into a dictionary.
- `Transport` is the link, as a class with a session value.
- `Requests` holds the argument checks of the 350's setters.
- `Readings` describes the reading operations as functions of the session:
  - `Batch` is one query and one read (218, 350);
  - `Sweep` is one query and one read per channel (372).
- `Driver` holds the three classes. Their methods change the link, and each
  method's postcondition ties the new session and the result to the
  `Readings` or `Requests` function of the old session.

The 372's `get_temps`, `get_rs` and `get_excitations` share one loop,
`Driver.Lakeshore372.ReadAll`. It is proved against `Readings.Sweep` by a
loop invariant. The lemmas about `Sweep` establish the following:

- When it succeeds.
- What it writes and reads: one query and one read per channel, in the
  dictionary's order.
- What it returns: each name holds its own channel's reading.
- Where it stops: at the first read or parse that raises, returning no
  dictionary.

## Model

| member | source | states |
|---|---|---|
| Driver.Lakeshore218.constructor | driver.py:30-33 | keeps device and channel names, opens the port at 9600 baud, 7 data bits, odd parity, 1 stop bit with no timeout, writes and reads nothing |
| Driver.Lakeshore218.ReadBatch | driver.py:51-55 | the shared body of the two readings: one write of the query, one read of what is waiting, and the result and final session of `Readings.Batch` of the old session; endpoint and timeout unchanged |
| Driver.Lakeshore218.GetTemps | driver.py:51-55 | writes `KRDG?` once, reads once, and returns exactly `Readings.Batch` of the old session with the port's read; the link ends in that batch's session |
| Driver.Lakeshore218.GetVoltage | driver.py:73-77 | the same with `SRDG?` |
| Driver.Lakeshore350.constructor | driver.py:97-106 | with other than four names no attribute is set and the socket is untouched; with four, the address, names and socket are kept, the socket is connected to port 7777 with a 1 s timeout; nothing is written or read either way |
| Driver.Lakeshore350.QueryTemps | driver.py:121 | writes exactly `KRDG? 0` on a configured instrument, raises AttributeError otherwise |
| Driver.Lakeshore350.ReadQueue | driver.py:137-138 | one socket read: the next reply, consumed, or the timeout |
| Driver.Lakeshore350.GetTemps | driver.py:156-160 | equals `Readings.Batch` over the socket with `KRDG? 0` on a configured instrument; AttributeError otherwise |
| Driver.Lakeshore350.Apply | driver.py:180-183 | the shared body of the setters: the result is `Requests.SettingOutcome` of the check, and the session is `Requests.SettingSession`, one line more exactly when the check passes on a configured instrument |
| Driver.Lakeshore350.SetHeaterRange | driver.py:180-183 | result is `Requests.SettingOutcome` of the range check; the session gains the one encoded line exactly when the check passes |
| Driver.Lakeshore350.SetHeaterOutput | driver.py:202-205 | the same with the manual-output check |
| Driver.Lakeshore350.SetPIDTemp | driver.py:223-226 | the same with the setpoint check |
| Driver.Lakeshore350.SetPIDParams | driver.py:246 | the same with the unchecked PID request |
| Driver.Lakeshore350.ConfigOutput | driver.py:275-278 | the same with the output-mode check |
| Driver.Lakeshore372.constructor | driver.py:297-302 | keeps address and channel dictionary, connects to port 7777 with a 10 s timeout, writes and reads nothing |
| Driver.Lakeshore372.Query | driver.py:318-319 | the shared body of the three queries: writes exactly the channel's query line for the quantity and changes nothing else |
| Driver.Lakeshore372.QueryTemp | driver.py:318-319 | writes exactly `KRDG? n` and changes nothing else |
| Driver.Lakeshore372.QueryR | driver.py:335-336 | writes exactly `SRDG? n` and changes nothing else |
| Driver.Lakeshore372.QueryExcitation | driver.py:352-353 | writes exactly `RDGPWR? n` and changes nothing else |
| Driver.Lakeshore372.ReadQueue | driver.py:369-370 | one socket read: the next reply, consumed, or the timeout |
| Driver.Lakeshore372.ReadAll | driver.py:388-393 | the loop's result and final session are those of `Readings.Sweep` over the channel dictionary from an empty dictionary |
| Driver.Lakeshore372.GetTemps | driver.py:388-393 | `Readings.Sweep` of the temperature queries |
| Driver.Lakeshore372.GetRs | driver.py:411-416 | `Readings.Sweep` of the resistance queries |
| Driver.Lakeshore372.GetExcitations | driver.py:434-439 | `Readings.Sweep` of the excitation-power queries |
| Transport.Link.Open | driver.py:33 | connecting sets the endpoint and starts with no timeout; nothing is written or read |
| Transport.Link.SetTimeout | driver.py:106 | sets the timeout and changes nothing else |
| Transport.Link.Send | driver.py:121 | appends exactly the written line to the trace; the reply queue, endpoint and timeout are unchanged |
| Transport.Link.Receive | driver.py:137 | returns the head of the reply queue and consumes it, or times out on an empty queue |
| Transport.Link.ReadWaiting | driver.py:53 | returns the head of the queue, or the empty text when nothing is waiting |
| Requests.HeaterRangeRequest | driver.py:180-183 | accepted exactly when output is 1 or 2 and range is 0 to 5; then the line is `RANGE o,r` CR LF, otherwise the ValueError with its message |
| Requests.ManualOutputRequest | driver.py:202-205 | accepted exactly when output is 1 or 2 and 0 <= value <= 100; then the line is `MOUT o,` and the value with two decimals; otherwise its ValueError |
| Requests.SetpointRequest | driver.py:223-226 | accepted exactly when output is 1 or 2, whatever the temperature; the line is `SETP o,` and the value with six decimals |
| Requests.PidGainsRequest | driver.py:246 | always accepted; the line is `PID p,i,d` with six decimals each |
| Requests.OutputModeRequest | driver.py:275-278 | accepted exactly when output is 1 or 2, mode in 0..5 and input in 0..4; then the line is `OUTMODE o,m,i,0` |
| Requests.RequestExamples | driver.py:180-183 | concrete checks: range 3 on output 1, 0 % and 100 %, a negative setpoint on output 2 and `OUTMODE 2,1,4` pass; output 3, range 6, 100.01 %, -0.5 %, setpoint output 0, mode 6 and input 5 raise |
| Requests.PercentInRange | driver.py:202-203 | an accepted manual output is written as a percentage that is itself between 0 and 100 after rounding |
| Requests.SettingOutcome | driver.py:180-183 | a setter succeeds exactly when its check passes and the instrument is configured; a failed check raises that check's ValueError |
| Requests.SettingWrites | driver.py:180-183 | a setter on a configured instrument writes exactly its encoded line when it succeeds and nothing otherwise, and never reads |
| Requests.SettingDecodes | driver.py:181 | the line a setter writes is read by the instrument as the command it encodes |
| Protocol.Encode | driver.py:181 | the bytes of each command as the driver formats them: the mnemonic, then one space and the comma-separated arguments when there are any, then CR LF. `DecodeEncode`, `EncodeWithArguments` and `EncodeExamples` state its properties |
| Protocol.EncodeWithArguments | driver.py:181 | a command with arguments is its mnemonic, one space, the arguments joined by commas, then CR LF |
| Protocol.DecodeEncode | driver.py:181 | every command line decodes back to the command it encodes |
| Protocol.EncodeExamples | driver.py:121 | concrete lines: `RANGE 1,3`, `OUTMODE 2,1,4,0`, `KRDG? 0`, `KRDG?`, `RDGPWR? 12` |
| Protocol.DecodeBatch | driver.py:54-55 | the dictionary comprehension over a response: split at commas, then `Tabulate` from an empty dictionary. `DecodeBatchMeaning`, `DecodeBatchShort` and `DecodeBatchIgnoresExtra` state its properties |
| Protocol.Tabulate | driver.py:159-160 | the comprehension evaluated name by name: a missing field raises IndexError and a field that is not a number raises ValueError, whichever comes first; otherwise the value is stored under the name |
| Protocol.DecodeBatchMeaning | driver.py:54-55 | a batch decodes exactly when there are at least as many fields as names and those fields are numbers; the keys are exactly the names, and each name holds its own field's number (the last one for a repeated name) |
| Protocol.DecodeBatchShort | driver.py:159-160 | a response with fewer fields than names, all of them numbers, raises IndexError; no partial dictionary is returned |
| Protocol.DecodeBatchIgnoresExtra | driver.py:54-55 | fields after the last name's are ignored, whatever they hold |
| Protocol.DecodeResponse | driver.py:159-160 | a response of rendered numbers decodes to those numbers under the names, or raises IndexError when it is short |
| Protocol.ResponseFields | driver.py:159 | splitting a response line at commas gives the rendered numbers, with CR LF on the last one |
| Protocol.DecodeBatchExample | driver.py:54-55 | `10.5,20.3,15.0` under names A, B, C gives A: 10.5, B: 20.3, C: 15.0 |
| Protocol.AssignKeys | driver.py:54-55 | the dictionary built from keys and values has exactly the given keys, added to those it started with |
| Protocol.AssignLast | driver.py:392 | a key holds the value stored with its last occurrence |
| Decimal.RoundHalfEven | driver.py:203 | the nearest integer, within one half, a tie going to the even one |
| Decimal.RoundToFixed | driver.py:203 | `%.nf` rounding: the sign is kept, and the value is within half a unit in the last place |
| Decimal.FormatFixed | driver.py:203 | `%.nf`: the rounded fixed-point number rendered with n fraction digits. `RoundToFixed` and `ParseFloatRender` state its properties |
| Decimal.ParseFloat | driver.py:159 | `float()` on decimal text: whitespace stripped from both ends, then an optional sign, digits with at most one point, an optional exponent; anything else raises ValueError. `ParseFloatStrips` and `ParseFloatRender` state its properties |
| Decimal.ParseFloatStrips | driver.py:159 | `float()` reads the text with leading and trailing whitespace removed |
| Decimal.ParseFloatRender | driver.py:159 | `float()` of a rendered fixed-point number is its value |
| Decimal.ParseFloatRenderTerminated | driver.py:159 | the same with the CR LF that ends the response line |
| Decimal.ParseRenderFixed | driver.py:203 | the fixed-point text reads back as the number it renders |
| Text.Split | driver.py:54 | `split(',')`: always at least one piece, and no piece holds the separator |
| Text.Join | driver.py:181 | the comma-separated argument list of a command line. `SplitJoin` and `JoinSplit` state its properties |
| Text.NatToString | driver.py:181 | `%d` and `format` of a non-negative integer: at least one decimal digit, a leading zero only for zero itself, one digit exactly for n < 10 |
| Text.SplitJoin | driver.py:54 | joining fields without the separator and splitting again gives back the fields |
| Text.JoinSplit | driver.py:54 | splitting then joining again gives back the text |
| Readings.Batch | driver.py:51-55 | one batched reading as a function of the session: one query written, one read, the reply decoded by `DecodeBatch`, or NoReply when the read raises; used by both the 218 (driver.py:51-55) and the 350 (driver.py:156-160). `BatchExchange`, `BatchOfResponse` and `BatchOfNothing` state its properties |
| Readings.BatchExchange | driver.py:51-55 | a batched reading writes exactly the query and then reads exactly once; it returns the decoded reply or the read's failure |
| Readings.BatchOfResponse | driver.py:156-160 | a reply carrying one number per channel gives those numbers under the channel names; a short reply raises IndexError |
| Readings.BatchOfNothing | driver.py:53-55 | with at least one channel name and nothing waiting, the 218's read gives the empty text and `float` raises ValueError; the 350's read times out |
| Readings.QueryLine | driver.py:318-319 | a channel query is the mnemonic, one space, the channel number in decimal, then CR LF |
| Readings.Sweep | driver.py:388-393 | the 372's loop as a function of the session: per channel, in order, one query and one read, the parsed value stored under the channel's name; the first read or parse that raises ends it with that exception. `SweepSucceeds`, `SweepTrace`, `SweepValue`, `SweepReadings` and `SweepStops` state its properties |
| Readings.SweepStep | driver.py:389-392 | one turn of the loop: the channel's read returns the head of the queue, and the sweep stops on it or goes on with the value stored |
| Readings.SweepSucceeds | driver.py:388-393 | a sweep returns a dictionary exactly when every channel's reply arrives and parses |
| Readings.SweepTrace | driver.py:389-391 | a complete sweep writes, for each channel in dictionary order, its query followed by one read, and consumes one reply per channel |
| Readings.DialogueAt | driver.py:390-391 | in the record of writing lines one at a time, each followed by one read, the 2j-th event is line j and the next is the read of reply j |
| Readings.QueryLinesAt | driver.py:389-390 | the j-th line a sweep writes is the query of the j-th channel in dictionary order |
| Readings.SweepEventsAt | driver.py:389-391 | in a sweep's record the 2j-th event is channel j's query and the next is the read of the j-th reply |
| Readings.SweepValue | driver.py:392 | a complete sweep stores each channel's reading under its name, in order |
| Readings.SweepReadings | driver.py:388-393 | a complete sweep's keys are exactly the channel names; each name holds the reading of the last channel that carries it |
| Readings.SweepStops | driver.py:390-392 | a sweep whose channel k is the first to fail raises that channel's exception with no dictionary, after the queries and reads of channels 0 to k only |

## Left out

- Sockets and serial ports are modelled abstractly by `Transport.Link`. `serial.Serial(...)` and `connect` become `Link.Open`, `settimeout` becomes `Link.SetTimeout`, `write` and `sendto` become `Link.Send`, `recvfrom` becomes `Link.Receive`, and `read(inWaiting())` becomes `Link.ReadWaiting`. A link only records lines and hands out queued replies; no bytes move.
- Each class is given the `Link` it uses instead of creating the port or socket itself.
- Opening a port and connecting a socket never fail in the model. The code can raise there: `serial.Serial(...)` at driver.py:33 and `connect` at driver.py:105 and driver.py:301.
- The sleep in the 218's reading methods and the socket timeouts are left out. A timeout is a queued `None` or an empty queue.
- Writes never fail in the model.
- UTF-8 encoding and decoding are left out. Text is `seq<char>`.
- The 2048-byte limit on one `recvfrom` is not modelled: a reply is delivered whole.
- Floats: setter arguments and readings are exact reals, not binary doubles, so the conversion of a decimal to the nearest double is not modelled. `%.2f` and `%f` round the exact value half to even.
- Floats: `float()` is modelled for decimal numerals with an optional sign, point and exponent, inside Python whitespace. `inf`, `nan` and digit underscores are left out. So are non-ASCII Unicode decimal digits, which Python's `float()` accepts (Arabic-Indic `١٢` reads as 12.0) and the model rejects.
- The error message that the 350's constructor prints is not modelled. The early return itself is.
- The 218's channel names are a sequence. Names are looked up by position `0..n-1`, which is what the code does with either a list or a dict keyed `0..n-1`.
- Driver.Lakeshore372.constructor: the channel dictionary is a sequence of (number, name) entries in insertion order, and it does not require the numbers to be distinct. A Python dict always has distinct keys, so the model allows more inputs than the code can receive.
- The 218's eight-channel layout is not enforced. The code accepts any number of names, and so does the model.
- `Driver.Lakeshore350.GetTemps` requires the object invariant `Valid()`, which every constructed instrument satisfies.
- The `scratch/` directory and the data-logging scripts built on these classes are not part of this model.
