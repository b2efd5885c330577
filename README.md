# hBDesktop command-result subsystem, modelled in Dafny

hBDesktop is an Electron shell for a web UI that controls local Docker "kernels"
(containers running a notebook image). The web page sends intents over IPC
('startKernel', 'getKernel', 'getKernels', 'stopKernel', 'runCommand'). The main
process, `index.js`, turns each intent into a docker command line. It runs the
command with `exec` (run to completion) or `spawn` (streamed, possibly detached).
It parses docker's output into kernel records. Every outcome goes back to the page
as a JSON envelope on the single 'commandResult' channel, tagged with the request's
`messageId`.

The model covers the part of `index.js` that decides things:

- `Text` (`text.dfy`): the JavaScript string built-ins the code uses. These are
  `includes`, `split` on one character, `trim`, and the decimal spelling of a port
  in a template literal. Each comes with its inverse or its characterising lemmas.
- `Transformers` (`transformers.dfy`): `formatStatus` and `formatPort`, and the
  `getKernel` and `getKernels` output transforms. The regular expression
  `/:(\d+)->/` becomes an explicit left-to-right scan. It is proved equal to the
  leftmost-match semantics of the expression. The `reduce` of `getKernels` is a
  method with a loop, proved equal to "one record per non-empty line, in order".
- `Envelopes` (`envelopes.dfy`): the envelope as a datatype. It also has the
  functions that say which envelopes `runCommand` sends for a process outcome, and
  which ones `spawnCommand` sends for a sequence of process events.
- `Intents` (`intents.dfy`): the `eventHandler` entries. They apply the defaults
  (image `asia.gcr.io/hasbrain-notes/base-notebook`, port 9999, status filter
  `running`) and build the argument vector or command string. They also pick
  `runCommand` or `spawnCommand`.
- `Shell` (`shell.dfy`): the main process as a class `CommandShell`. Sending is
  an append to the envelope log `outbox`, and every `exec`/`spawn` is an append
  to `processes`. The methods `RunCommand`, `SpawnCommand` and the intent handlers
  are proved to append exactly what the functions of `Envelopes` and `Intents`
  say. The class invariant is that every envelope ever sent is well-formed and
  carries a non-empty `messageId`.
- `Samples` (`samples.dfy`): concrete status, port and listing strings and their results.
- `Wrappers` (`wrappers.dfy`): `Option`. `None` is JavaScript's `undefined`.

Where the system's prose documentation and `index.js` differ, the model follows
`index.js`:

- 'startKernel' passes no `stdio`, so it is `'pipe'`, and the kernel's output is
  streamed back as data envelopes; it is not ignored (`Intents.StartKernelRequest`).
- A failed `exec` sends `errMsg = err.message`. Nothing makes that message non-empty.
- A kernel's `port` is the captured digit string, not a number.
- Nothing in `spawnCommand` stops envelopes after `error` or `close`. Every event
  that reaches a listener sends one. "Data first, then exactly one terminal
  envelope" holds when the child reports its events in that shape
  (`Envelopes.TerminalEnvelopeIsLast`).
- When no container matches, 'getKernel' still answers `ok` with a record whose
  id is empty (`Samples.NoContainerExample`). The transform runs on the raw,
  untrimmed output.
- JavaScript defaults replace only `undefined`. An image or status sent as `""`
  is used as `""`.

## Model

| member | source | states |
|---|---|---|
| `Text.Includes` | index.js:99-101 | `s.includes(t)` is true exactly when `t` occurs in `s` at some index |
| `Text.Split` | index.js:136 | `split` on one character gives at least one piece, no piece holds the separator, and joining the pieces with it gives the input back |
| `Text.SplitJoin` | index.js:155 | splitting what was joined from separator-free pieces gives those pieces back (the other half of the round trip) |
| `Text.SplitHead` | index.js:136 | the first piece is the text before the first separator, or the whole string when there is none |
| `Text.SplitCount` | index.js:151 | a string with n separators splits into n + 1 pieces, so a missing separator means a missing field |
| `Text.SplitAppend` | index.js:151 | a separator between two strings splits them into the pieces of each side, in order |
| `Text.Trim` | index.js:42 | `trim` gives the infix left after stripping JavaScript white space and line terminators from both ends, with no white space at either end |
| `Text.TrimIdempotent` | index.js:42 | trimming already trimmed text changes nothing |
| `Text.Dec` | index.js:123 | the template literal spells a port as a non-empty digit string without leading zeros, and 0 as "0" |
| `Text.DecValueOfDec` | index.js:123 | reading that digit string back gives the number |
| `Transformers.FormatStatus` | index.js:96-106 | falsy gives `pending`; containing "Up" gives `running` (checked first, so "Up" and "Exit" together give `running`); else containing "Exit" gives `exited`; otherwise `pending` |
| `Transformers.MatchEnd` | index.js:111-112 | at a given index the scan finds the end of the `\d+` group exactly when the regular expression matches there |
| `Transformers.ScanPort` | index.js:111-113 | the scan returns a match and no index to its left matches, or reports that no index matches at all |
| `Transformers.FormatPort` | index.js:108-116 | null for empty input or when no `:<digits>->` occurs; otherwise a non-empty all-digit string that stands in the input right after a ':' and right before "->", at the leftmost match |
| `Transformers.FormatPortIsLeftmostMatch` | index.js:111-115 | `formatPort` returns exactly the group of the leftmost match of `/:(\d+)->/` |
| `Transformers.FormatPortReadsPublishedPort` | index.js:108-116 | for a ports column `host:<digits>->…` with no ':' in `host`, the result is those digits |
| `Transformers.KernelOf` | index.js:135-137 | the getKernel transform: `id` is the text before the first '\|'; `image` is the request's image; no second field gives `pending`; fewer than three fields give a null port |
| `Transformers.KernelOfColumns` | index.js:135-137 | output with three columns yields its id, the normalized status, the request's image and the extracted port |
| `Transformers.ListedKernel` | index.js:155-156 | a listing line's `id` is its text before the first '\|'; its `image` is the third field and is absent when the line has fewer than three fields; fewer than four fields give a null port |
| `Transformers.ListedKernelOfColumns` | index.js:155-156 | a four-column line yields its id, the normalized status, the image verbatim and the extracted port |
| `Transformers.NonEmpty` | index.js:154 | the kept lines are non-empty lines of the input, no more of them than there are lines |
| `Transformers.NonEmptyAppend` | index.js:153-154 | filtering distributes over concatenation, so the kept lines keep their input order |
| `Transformers.KernelsOfLine` | index.js:153-157 | one line yields its record, and an empty line yields nothing |
| `Transformers.KernelsOfLines` | index.js:151-158 | the records of two blocks of lines joined by a newline are the records of each, in order |
| `Transformers.KernelsOfTrailingNewline` | index.js:151-158 | the empty line after a final newline adds no record |
| `Transformers.CollectKernels` | index.js:151-158 | the accumulating `reduce` returns exactly one record per non-empty line of `c.split('\n')`, in order |
| `Envelopes.Apply` | index.js:42 | the default transform gives `{text}` holding `Trim` of the output, which has no white space at either end; the getKernel transform gives `KernelOf` of the output, whose record carries the request's image; the listing transform gives `KernelsOf` of the output |
| `Envelopes.RunEnvelopes` | index.js:42-57 | no envelope when `messageId` or `cmd` is empty or output is not captured; otherwise exactly one, echoing `messageId` and `type`, never `exited` or on a channel; on error it is `error` with `err.message` and no payload, else `ok` with the transformed stdout and no `errMsg` |
| `Envelopes.EventEnvelopes` | index.js:67-91 | whatever the stdio, `error` sends one error envelope with its message and `close` one `exited` envelope; a data chunk sends one `ok` envelope with the chunk on its channel under 'pipe', none under 'ignore'; each is correlated and well-formed |
| `Envelopes.StreamEnvelopes` | index.js:62-91 | a rejected request sends nothing; every envelope sent carries the request's `messageId` and `type` and is well-formed; there are no more envelopes than events |
| `Envelopes.Terminals` | index.js:67-77 | the events that reach the `error` and `close` listeners, in the order they arrive, all of them terminal |
| `Envelopes.IgnoredStreamSendsOnlyTerminals` | index.js:67-91 | with stdio 'ignore' no `ok` envelope is ever sent; the k-th envelope answers the k-th `error` or `close` event (`Terminals`), an error with its message or `exited` |
| `Envelopes.PipedStreamSendsOnePerEvent` | index.js:67-91 | otherwise each event sends one envelope in order: a chunk gives `ok` with `{text: chunk}` on its channel, `error` gives `error` with the message, `close` gives `exited` |
| `Envelopes.TerminalEnvelopeIsLast` | index.js:67-91 | data events followed by one `error` or `close` give `ok` envelopes followed by one terminal envelope, which is last and is `exited` exactly when the event was `close` |
| `Intents.StartKernelRequest` | index.js:120-125 | 'startKernel' spawns `dockerPath run -p <port>:8888 <image>` with image defaulting to the base notebook image and port to 9999, detached and unreferenced, stdio 'pipe' |
| `Intents.StartedPortIsReadBack` | index.js:122-123 | the host port in the `-p` mapping spells the requested port, and `formatPort` reads that same port back from docker's ports column |
| `Intents.GetKernelRequest` | index.js:128-140 | 'getKernel' runs `dockerPath ps -a -f "ancestor=<image>" -n 1 --format '{{.ID}}\|{{.Status}}\|{{.Ports}}'` to completion and captures output; the image filtered on is the requested or default image, the same one the record transform echoes |
| `Intents.GetKernelEchoesRequest` | index.js:130-137 | a 'getKernel' answer is one `ok` envelope echoing the request's id, carrying the parsed record with the requested or default image |
| `Intents.GetKernelsRequest` | index.js:143-162 | 'getKernels' runs `dockerPath ps -a -f "status=<status>" --format '{{.ID}}\|{{.Status}}\|{{.Image}}\|{{.Ports}}'` to completion, with the status filter defaulting to `running`, captures output and parses it with the listing transform |
| `Intents.StopKernelRequest` | index.js:164-172 | no command at all when `kernelId` is missing or empty; otherwise `dockerPath stop <kernelId>` with the default transform |
| `Intents.RawRequest` | index.js:182-184 | a raw message runs its own command with the default transform, capturing output unless `captureOutput` is false |
| `Shell.RunLaunches` | index.js:43-59 | `exec` is called once for an accepted request, with a callback only when output is captured, and not at all otherwise |
| `Shell.SpawnLaunches` | index.js:63-65 | `spawn` is called once, with the request's arguments and options, only for an accepted request |
| `Shell.RunTransform` | index.js:53 | calling the transform yields the payload `Apply` describes, with the listing built by the loop of `CollectKernels` |
| `Shell.CommandShell.Send` | index.js:56 | sending appends exactly the envelope to the outbound log |
| `Shell.CommandShell.OnExecResult` | index.js:46-57 | the `exec` callback builds its result field by field and sends exactly the envelope `RunEnvelopes` describes |
| `Shell.CommandShell.RunCommand` | index.js:42-60 | appends `RunLaunches` to the process log and `RunEnvelopes` to the outbound log, keeping every envelope well-formed and correlated |
| `Shell.CommandShell.OnEvent` | index.js:67-91 | each listener appends exactly `EventEnvelopes` for its event |
| `Shell.CommandShell.SpawnCommand` | index.js:62-94 | appends `SpawnLaunches` to the process log and, event by event, exactly `StreamEnvelopes` to the outbound log |
| `Shell.CommandShell.StartKernel` | index.js:120-126 | the 'startKernel' handler spawns the request `StartKernelRequest` builds |
| `Shell.CommandShell.GetKernel` | index.js:128-141 | the 'getKernel' handler runs the request `GetKernelRequest` builds |
| `Shell.CommandShell.GetKernels` | index.js:143-162 | the 'getKernels' handler runs the request `GetKernelsRequest` builds |
| `Shell.CommandShell.StopKernel` | index.js:164-172 | without a kernel id neither log changes; otherwise the stop request is run |
| `Shell.CommandShell.RawCommand` | index.js:182-184 | the 'runCommand' handler passes the message to `runCommand` |
| `Samples.StatusExamples` | index.js:96-106 | "Up 2 hours" is `running`, "Exited (0) 3 minutes ago" is `exited`, "Created" and a missing status are `pending` |
| `Samples.PortExamples` | index.js:108-116 | "0.0.0.0:9999->8888/tcp" gives "9999" and the empty string gives null |
| `Samples.NoContainerExample` | index.js:135-137 | empty `docker ps` output still gives a record: empty id, `pending`, the requested image, null port |
| `Samples.ListingFirstLine` | index.js:155-156 | the line `id1\|Up 1 min\|imgA\|0.0.0.0:9999->8888/tcp` is a running kernel of image imgA on port "9999" |
| `Samples.ListingSecondLine` | index.js:155-156 | the line `id2\|Exited (1)\|imgB\|` is an exited kernel of image imgB with a null port |
| `Samples.TwoLineListing` | index.js:151-158 | two non-empty lines, each ended by a newline, give their two records in order |
| `Samples.ListingExample` | index.js:151-158 | the two lines above, each ended by a newline, list a running and an exited kernel |

## Left out

- Electron glue: `createWindow`, the `BrowserWindow`, devtools, the `app.on` lifecycle handlers and the `mainWindow === null` case (index.js:17-40, 178-180, 190-205). They are UI and platform plumbing. A send after the window has closed would throw in the source; the model always appends.
- `loadDockerPath` (index.js:8-13): `which docker` is an OS call. `dockerPath` is the constructor parameter of `CommandShell`.
- Running processes: `exec` and `spawn` are not modelled. The model does not decide which OS outcomes Node reports as errors (for example a non-zero exit under `exec`), whether `close` follows `error`, or what `detached` and `unref` do. An `exec` outcome and the event sequence of a spawned child are inputs. `unref` is only recorded in the process log.
- Asynchrony: each method runs its callbacks to completion in one call. Interleaving between concurrent requests, and between a child's stdout and stderr, is not modelled.
- JSON: envelopes and messages are datatypes, and a field left `undefined` is `None`. Malformed JSON in a message (where `JSON.parse` throws) is not modelled. Key order and the encoding itself are not modelled either.
- Message field types: `messageId` and `type` are strings, and the empty string stands for a missing one (both are falsy). Non-string ids, an absent `type` in a raw message, and a `captureOutput` that is not a boolean are not modelled. A startKernel `port` is a non-negative safe integer, so a port sent as a string, a negative number or a fraction is not modelled.
- A raw 'runCommand' message that carries a `transform` key (JSON cannot carry a function, so calling it would throw) is not modelled. Such messages always use the default transform.
- `Close(code)`: the exit code is carried by the event but dropped, as in the source.
- The registration loop `keys.forEach(k => eventHandler[k]())` (index.js:186-187) is not modelled: each handler is a method of `CommandShell`.
- localKernel.js is not part of this model: it is a usage sketch for the renderer and is not valid JavaScript.
- Strings are sequences of Unicode code points, where JavaScript strings are sequences of UTF-16 code units: a surrogate pair is one `char` in the model and a lone surrogate cannot be written. Every separator, needle and white-space character the core uses lies outside the surrogate range, so the operations modelled agree. There is no Unicode normalisation.
- `spawn`'s `stdio` is either 'pipe' or 'ignore' (`Envelopes.Stdio`). Other values, such as 'inherit' or an array, are not modelled: with them `subprocess.stdout` is null and the listener registration at index.js:80 would throw.
- `Text.Dec`: spells every natural number in plain digits. JavaScript prints 10^21 and above in exponent notation and cannot hold integers above 2^53 exactly; the startKernel `port` is therefore a `SafePort`, below 2^53, where both agree.
- A JSON `null` image, status or port is not modelled. The destructuring defaults replace only `undefined`, so the source would query `ancestor=null` or `status=null`; `None` in the model stands for `undefined` alone. For the falsiness tests (`formatStatus`, `formatPort`, `kernelId`) null and `undefined` behave alike.
