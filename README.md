# Key/value service console client: a Dafny model

This project models the interactive console client in
`TestServerClientProgram/Program.cs`. The client talks to a key/value record
service over HTTP. Its core consists of four small sequential machines:

- **Line readers.** `ReadLineOrEscape` and its polling twin
  `GetInputOrEscape` consume console key events one at a time. Escape
  cancels the read, Enter returns the buffer, Backspace erases, and a
  non-control character is appended.
- **Startup diagnostics.** `RunDiagnostics` runs a tunnel check (`GET
  /health`) and then a database check (`GET api/data`, which passes on 200
  or on the 409 the service uses for an empty store). The first failure ends
  the run, and `Main` shows the menu only when the diagnostics pass.
- **Commands.**
  - `HandleUpload` prompts for a key and a value, parses the value as an
    `int`, POSTs the record, classifies the answer and prompts again.
  - `HandleDelete` reads a key, looks the record up, asks for a confirmation
    key, and deletes only on `Y`.
  - `RetrieveData` lists the records numbered from 1 in the order received.
- **Menu loop.** `Main` maps "1" to "4" to the commands and to exit; any
  other line is a retry.

The inputs are abstract:

- Key events are a finite sequence of `KeyInfo` (key, character).
- Console lines are a finite sequence of strings.
- The service is a function `Server = seq<Request> -> Response`. It gives
  the answer to the last request of everything the client has sent so far,
  so it can answer statefully.

Each command's requests are recorded, so "no POST was sent" and "DELETE only
after the lookup and the confirmation" are statements about a trace.

Modules, one file each:

| module | file | models |
|---|---|---|
| `Wrappers` | `wrappers.dfy` | `Option` |
| `Terminal` | `terminal.dfy` | keys, `char.IsControl`, `char.IsWhiteSpace`, `string.IsNullOrWhiteSpace` |
| `LineReader` | `line_reader.dfy` | the two readers |
| `Int32Text` | `int32_text.dfy` | `int.TryParse` |
| `Http` | `http.dfy` | requests, responses, the service |
| `Diagnostics` | `diagnostics.dfy` | both versions of `RunDiagnostics` |
| `Upload` | `upload.dfy` | `HandleUpload` |
| `Deletion` | `deletion.dfy` | `HandleDelete` |
| `Listing` | `listing.dfy` | `RetrieveData` |
| `Client` | `client.dfy` | `Main`'s gate and menu loop |

How the loops are modelled:

- The readers, the upload loop and the menu loop are `method`s with `while`
  loops. Each is proved equal to a recursive specification function
  (`ReadFrom`, `UploadFrom`, `MenuFrom`), and the promises are proved about
  that function. The numbering loop of the listing is a `method` whose
  `ensures` states the rows directly.
- The menu's `switch` (lines 55-72) is the method `Dispatch`, proved equal to
  the function `Switch` that `MenuFrom` uses for each round.
- The straight-line decisions are `function`s: the diagnostics, the
  deletion, and the reading of the listing reply.

Where the source does not compile as shown, the model follows its evident
intent:

- the stray `Client` and `Console-WriteLine` (lines 33, 35) and the missing
  `;` (line 38);
- `while(!!)` at line 102, read as `while (true)` that is left only by
  `return`;
- the duplicate bodies after the class closes at line 281. The model follows
  the two-check `RunDiagnostics` (284-331) and the numbered `RetrieveData`
  (333-365). The earlier one-check diagnostics are modelled as
  `CheckTunnel`. The earlier listing's 409 handling (266-268) is what
  `ReadReply` takes as the intended reading.

## Model

| member | source | states |
|---|---|---|
| LineReader.ReadFrom | TestServerClientProgram/Program.cs:166-199 | A read that ends, ends just after an Escape or Enter at or after the start; that it is the first one is `LineReader.ReadEndsAtFirstStop`. A read that starts from a printable buffer returns a printable line. |
| LineReader.ReadLineOrEscape | TestServerClientProgram/Program.cs:163-200 | The blocking reader's loop returns exactly the read that `ReadFrom` defines, one key event per step. |
| LineReader.GetInputOrEscape | TestServerClientProgram/Program.cs:134-161 | The polling reader's loop returns exactly the read that `ReadFrom` defines with its own Backspace test. |
| LineReader.ReadEndsAtFirstStop | TestServerClientProgram/Program.cs:171-182 | At the first stop key, the read is cancelled if that key is Escape. If it is Enter, the read returns exactly what the events before it typed. |
| LineReader.EscapeCancels | TestServerClientProgram/Program.cs:171-175 | An Escape after any run of editing events cancels the read, and the partial buffer is discarded. |
| LineReader.EnterReturnsTyped | TestServerClientProgram/Program.cs:178-182 | An Enter returns the typed buffer. An empty buffer is returned as an empty string, distinct from cancelled. |
| LineReader.ReadLineWaits | TestServerClientProgram/Program.cs:166-168 | Without Escape or Enter the read never ends: the reader keeps waiting for a key. |
| LineReader.TypedIsPrintable | TestServerClientProgram/Program.cs:185-198 | The buffer never holds a control character, under either reader. |
| LineReader.TypedLength | TestServerClientProgram/Program.cs:185-198 | For the blocking reader `ReadLineOrEscape`, the buffer is never longer than the number of printable key events other than Backspace. The polling reader does not keep this bound: a Backspace that carries a printable character on an empty buffer is appended (`LineReader.ReadersDifferOnPrintableBackspace`). |
| LineReader.TypedWithoutBackspace | TestServerClientProgram/Program.cs:194-198 | Without Backspace, the buffer is exactly the printable characters typed, in order. Control characters are ignored. |
| LineReader.ReadersAgree | TestServerClientProgram/Program.cs:148-157 | When Backspace's character is a control character, as the console reports it, the two readers give the same result on every key sequence. |
| LineReader.ReadersDifferOnPrintableBackspace | TestServerClientProgram/Program.cs:148-153 | The agreement needs that condition: a Backspace typing 'x' on an empty buffer is dropped by one reader and appended by the other. |
| Int32Text.TryParse | TestServerClientProgram/Program.cs:114 | `int.TryParse` returns a value only when it fits in an `int`. |
| Int32Text.NatDigits | TestServerClientProgram/Program.cs:114 | The decimal text of a natural number is a non-empty string of digits. |
| Int32Text.ParseDecimal | TestServerClientProgram/Program.cs:114 | Parsing an integer's decimal text gives the integer back exactly when it lies in the `int` range, and fails otherwise. |
| Diagnostics.RunDiagnostics | TestServerClientProgram/Program.cs:284-331 | The diagnostics pass iff `/health` has a success status and `api/data` answers 200 or 409. A failed tunnel check sends no data request. A transport failure of either request is reported as such. |
| Diagnostics.CheckTunnel | TestServerClientProgram/Program.cs:272-280 | The one-check version passes iff `/health` answers with a success status. |
| Diagnostics.DiagnosticsImplyTunnelCheck | TestServerClientProgram/Program.cs:272-331 | Every service that passes the two-check version also passes the one-check version. |
| Diagnostics.TunnelCheckIsWeaker | TestServerClientProgram/Program.cs:272-331 | Some service passes the one-check version but fails the two-check one. |
| Upload.Classify | TestServerClientProgram/Program.cs:123-128 | A POST's status is classified as uploaded iff it is a success status and as key in use iff it is 409. Any other status is reported as is. |
| Upload.UploadFrom | TestServerClientProgram/Program.cs:102-129 | An upload session only moves forward through the key events. |
| Upload.HandleUpload | TestServerClientProgram/Program.cs:98-130 | The upload loop returns exactly the session `UploadFrom` defines: its completed rounds, its requests, how it ended, and where it stopped reading. |
| Upload.UploadPostsOnlyAcceptedPairs | TestServerClientProgram/Program.cs:104-121 | Each upload request is the POST of a round's entered key and parsed value, with a printable key and a value in the `int` range. There is one POST per completed round, plus one only when the session ended because a POST failed in transport. |
| Upload.PostOnlyAfterBothInputs | TestServerClientProgram/Program.cs:106-121 | A round issues a request iff the key and the value were both entered and the value parses. The request it issues is the POST of that key with the parsed value. |
| Upload.AnsweredRoundPromptsAgain | TestServerClientProgram/Program.cs:121-129 | After an answered POST, the round is recorded with its classification, and the session prompts for a key again right after the value's Enter. |
| Deletion.HandleDelete | TestServerClientProgram/Program.cs:203-252 | The deletion uses the line read, or `""` if there is none. It issues nothing, a GET, or a GET then a DELETE, always for that same key. It issues nothing iff the key is blank. It only reads forward in the key events; that it reads exactly the one confirmation key, and only when it asks for it, is `Deletion.DeleteOnlyAfterConfirmation`. |
| Deletion.DeleteOnlyAfterConfirmation | TestServerClientProgram/Program.cs:214-241 | A DELETE is issued, and exactly once, iff the lookup was answered with success and a record and the next key event is `Y`. The confirmation key is consumed exactly when it was asked for. |
| Deletion.LookupOutcomes | TestServerClientProgram/Program.cs:216-225 | "Key not found" is reported iff the lookup answered 404. A null record is reported iff it answered success with a JSON null. Any other non-success status is reported as a failed lookup. |
| Deletion.ConfirmedRecordIsLookedUp | TestServerClientProgram/Program.cs:225-241 | A declined, done or refused deletion refers to the record the lookup returned. |
| Listing.ReadReplyAsWritten | TestServerClientProgram/Program.cs:337-364 | As written, every non-success status is a failed request, 409 included. Only a success with a JSON list yields records, and the empty-store reading never occurs. |
| Listing.ReadReply | TestServerClientProgram/Program.cs:259-268 | As intended, 409 is the empty store. Other non-success statuses and transport failures are failed requests. A success with a list yields its records, and a success with JSON null lists nothing. |
| Listing.EmptyStoreReportedAsFailure | TestServerClientProgram/Program.cs:337-355 | A 409 from the listing is reported as a network or server error as written, and as the empty store as intended. |
| Listing.ReadingsAgreeBut409 | TestServerClientProgram/Program.cs:337-364 | The two readings of the listing reply agree exactly on the replies that are not 409. |
| Listing.RetrieveData | TestServerClientProgram/Program.cs:333-365 | The listing issues one `GET api/data` and reads the reply as `ReadReply` does. It numbers the received records 1..n in the order received, and prints no row when there are no records. |
| Client.Halt | TestServerClientProgram/Program.cs:55-72 | A command ends the session iff it is an upload whose POST failed in transport, or a command whose key events ran out. |
| Client.AppendKeepsGuards | TestServerClientProgram/Program.cs:55-72 | "Every DELETE right after the GET of its key" and "every POST valid" survive concatenating two traces that have them. |
| Client.CommandGuards | TestServerClientProgram/Program.cs:55-72 | The requests of each command, on their own, satisfy both trace properties. |
| Client.Switch | TestServerClientProgram/Program.cs:55-72 | The command that a choice other than "4" names, run from the current console line and key event. It moves both positions only forward. That it runs the named command and keeps the trace properties is `Client.SwitchRunsNamedCommand`. |
| Client.SwitchRunsNamedCommand | TestServerClientProgram/Program.cs:55-72 | The `switch` runs the command its choice names and treats every other choice but "4" as a retry. Only a deletion consumes one more console line. The requests of every command keep both trace properties. |
| Client.Dispatch | TestServerClientProgram/Program.cs:55-72 | The `switch` returns exactly the step `Switch` defines: the upload `UploadFrom` defines, the deletion `HandleDelete` defines on the next console line, or the listing read by `ReadReply` with its numbered rows, and the line and key event it stopped at. |
| Client.MenuFrom | TestServerClientProgram/Program.cs:45-73 | Each round reads the next console line as the choice and runs `Switch` on it from the current line and key event with the requests issued so far. The menu reads the console lines and the key events only forward. |
| Client.Menu | TestServerClientProgram/Program.cs:45-73 | The menu loop returns exactly the run `MenuFrom` defines from the first console line and key event: its choices, commands, requests, ending, and where it stopped reading. |
| Client.MenuRunsChosenCommands | TestServerClientProgram/Program.cs:45-73 | The menu reads one choice per command, and one more when it ends on "4". Each choice runs the command it names. The requests are the commands' requests in order. It ends on "4" or for lack of input exactly when no command forced an ending; otherwise the last command forced it, and no earlier one did. |
| Client.MenuEnds | TestServerClientProgram/Program.cs:45-73 | The menu exits right after reading the line "4", and it ends for lack of input only once every console line was read. |
| Client.MenuGuards | TestServerClientProgram/Program.cs:45-73 | Through every menu round, every DELETE comes right after the GET of the same key, and every POST carries a printable key and an `int` value. |
| Client.Run | TestServerClientProgram/Program.cs:36-73 | The menu runs iff the diagnostics pass. A failed setup runs no command and issues only the diagnostic requests. When they pass, the session is the run `MenuFrom` defines on all the console lines and key events after the diagnostic requests. Every session's trace keeps both trace properties. |

## Left out

- HTTP and JSON. `HttpClient`, the base address, the timeout, the tunnel header and JSON (de)serialisation are foreign library calls. A response is abstracted to a status and a payload kind: no content, JSON null, one record, a list, or malformed.
- Exception mapping. Timeouts and connection failures are one outcome, `Transport`. So the listing's separate "Request timed out" message (lines 356-359) is not distinguished from its network error.
- Diagnostics.RunDiagnostics: a timeout of the health request is merged into `Transport` and reported as `Unreachable`. In the source, the tunnel check catches only `HttpRequestException`, so a timeout there (`TaskCanceledException`) would escape `RunDiagnostics` and end the program.
- Console rendering. Echo, the `"\b \b"` erase sequence, prompts and all message text are not modelled. Only outcomes are.
- Async polling. `Console.KeyAvailable`, `Task.Delay(10)` and the awaits have no logical effect and are left out.
- One console. Console lines and key events are two separate finite scripts. A real console interleaves them in one input stream.
- Blocking reads. When the key events run out inside a read, the model ends the read as `Waiting` (a `Stalled` upload or deletion), whereas a real console would block.
- The menu at end of input. When there is no line left at the menu, the session ends as `InputEnded`. The real program would get `null` and loop on "Invalid selection" forever.
- Culture rules. `Int32Text.TryParse` does not model .NET's acceptance of trailing NUL characters or culture-specific signs. It follows the default integer style with the invariant culture.
- `UploadData` and `RequestValue` (lines 367-444) are never called: their only uses are commented out.
- The commented-out seed loop (lines 75-92) and the unused `keys` and `values` arrays (lines 19-20) are not modelled.
- The earlier `RetrieveData` (lines 255-270) is not modelled as an operation. Its 409 handling is what `Listing.ReadReply` adopts.
- Admin login, bearer tokens, key trimming and key-length checks are not in this source, so they are not modelled. The model follows the code as it stands:
  - an invalid value ends the upload; it does not prompt again;
  - a lookup that is not found ends the deletion; it does not prompt for another key;
  - an upload whose POST fails in transport is not caught anywhere, so it ends the session (`Crashed`, `UploadCrashed`);
  - the menu has no admin login entry.
- Client.Dispatch is the `switch` of lines 55-72, split out of the loop of `Main` to keep the loop's proof small. Its branches are the source's.
- Client.Menu leaves the loop with `return` on the choice "4" where the source sets `exit = true` and lets the `while (!exit)` test end the loop. After the loop, `Main` only reads one console line and discards it (line 94). A failed setup also reads and discards one line (line 39). The model ends the session without consuming these lines, so the commands and requests are the same.
- Characters. Strings and key characters are Unicode scalar values, not UTF-16 code units. So a key event that carries half of a surrogate pair, and a Backspace (`input[..^1]`, lines 150 and 189) that removes only half of a pair, are not modelled.

## Findings

| source | as written | input that shows it | evidently intended | confidence | as-written member | corrected member |
|---|---|---|---|---|---|---|
| TestServerClientProgram/Program.cs:337-355 | The numbered `RetrieveData` calls `GetFromJsonAsync`, which raises `HttpRequestException` on every non-success status. Its handler prints "Network or server error" for all of them. | The service answers `GET api/data` with 409, which it uses for an empty store (comment at line 313). | Report the empty store, as the earlier listing does at lines 266-268 and as the diagnostics do by accepting 409 as healthy. | medium, not executed | Listing.ReadReplyAsWritten, Listing.EmptyStoreReportedAsFailure | Listing.ReadReply, Listing.ReadingsAgreeBut409 |
