# Pushover notifier — Dafny model

`pushover` is a small command-line program that sends one notification to
the Pushover service. When it starts it:

1. checks the `-version` and `-msg` flags;
2. reads the API token and user key from `~/.pushover`, a file of
   `token=…` / `user=…` lines;
3. builds a form payload from the two keys and the flags;
4. posts the payload once;
5. reports the reply and exits with status 0 (success) or 1 (any failure it
   handles). A bad flag, or one of the runtime panics listed under
   "Left out", ends the process with status 2 instead.

This project models the decisions the program makes and proves what it
promises about them:

- **`text.dfy` (module `Text`)** — the Go library behaviour the credential
  reader depends on:
  - finding a delimiter, as `bufio.Reader.ReadString` does;
  - `strings.Split` with a one-character separator, with `Join` as its
    inverse;
  - `strings.TrimSpace` with the white-space set of `unicode.IsSpace`.
- **`dotfile.dfy` (module `Dotfile`)** — the credential-file reader.
  - Specification functions: `Lines`, `ApplyLine` and `Parse`, plus an
    independent end-to-start reference, `LastValue`.
  - `ReadCredentials` is the read loop itself, proved to compute `Parse`.
  - Lemmas cover which lines are read, what a line sets, and that a later
    line overrides an earlier one.
- **`payload.dfy` (module `Payload`)** — the form payload.
  - `BuildPayload` builds the `url.Values` map step by step, as `main`
    does.
  - `Form` is the specification function it is proved equal to.
  - `Decode` reads a form back into the request, for the round-trip lemma.
  - Lemmas cover the mandatory keys, each optional key, and the emergency
    `retry`/`expire` pair.
- **`response.dfy` (module `Response`)** — how the status code and the
  parsed body decide the reported outcome and the exit status.
- **`pushover.dfy` (module `Pushover`)** — `init` (`Init`) and a whole run
  (`Run`). The dotfile contents, the HTTP exchange and the status reason
  phrases are inputs.
- **`wrappers.dfy`** — an `Option` type.

The outside world enters only as inputs:
- The dotfile is an `Option<string>`; `None` means the user lookup or the
  open failed.
- The HTTP exchange is a transport failure or a reply. A reply is the
  status, the body as JSON decoding sees it, and whether the
  `X-Limit-App-*` headers are present.
- `http.StatusText` is a function parameter.

## Model

| member | source | states |
|---|---|---|
| Text.Find | main.go:101 | the index where `ReadString` stops is within the string, and a delimiter sits there unless it is the end |
| Text.FindIsFirst | main.go:101 | no delimiter occurs before the index Find reports: `ReadString` stops at the first newline |
| Text.FindAbsent | main.go:101 | Find reports the end exactly when the delimiter does not occur, i.e. when `ReadString` fails |
| Text.Split | main.go:102 | there is at least one piece, and the first piece is the text before the first separator, so `t[0]` always exists |
| Text.SplitSingle | main.go:102 | there is a single piece exactly when the separator does not occur, so `t[1]` exists exactly when the line has an `=` |
| Text.SplitPiecesSeparatorFree | main.go:102 | no piece contains the separator |
| Text.JoinSplit | main.go:102 | joining the pieces with the separator gives back the line, so Split loses nothing |
| Text.SplitJoin | main.go:102 | splitting a join of separator-free pieces gives back the pieces |
| Text.TrimSpace | main.go:104 | the result is a contiguous part of the input; everything removed before and after it is white space; the result neither starts nor ends with white space |
| Text.TrimSpaceIdempotent | main.go:104 | trimming a trimmed value changes nothing |
| Text.TrimSpaceEmpty | main.go:106 | a value trims to empty exactly when it is all white space, which is when the key counts as missing at line 110 |
| Dotfile.Lines | main.go:101 | every line the read loop sees ends with its newline |
| Dotfile.ReadString | main.go:101 | returns the unread text up to and including the next newline, and reports failure exactly when no newline remains; the lines still to be read are this line followed by the rest |
| Dotfile.ReadCredentials | main.go:100-108 | the loop leaves `token`/`user` equal to `Parse` of the file contents |
| Dotfile.LinesCoverPrefix | main.go:101 | the lines read are exactly a prefix of the file, and no newline follows that prefix |
| Dotfile.LinesIgnoreUnterminatedTail | main.go:101 | text without a newline appended to the file adds no line |
| Dotfile.ParseIgnoresUnterminatedTail | main.go:101-108 | an unterminated last line never changes the keys, whatever it holds |
| Dotfile.LinesConcat | main.go:101 | a newline-terminated file followed by more text is read as its own lines, then the lines of the rest |
| Dotfile.SingleLine | main.go:101 | one newline-terminated line with no other newline is read as exactly one line |
| Dotfile.ApplyLinesConcat | main.go:101-108 | reading two batches of lines is reading the first batch, then the second |
| Dotfile.ApplyLinesIsLastValue | main.go:101-107 | each key ends up as the trimmed value of the last line naming it, or as before when no line names it |
| Dotfile.ParseIsLastValue | main.go:101-107 | `Parse` agrees with the end-to-start reference `LastValue` for both keys |
| Dotfile.KeyedLineHasValue | main.go:102-106 | a read line whose first piece is exactly `token` or `user` has an `=`, so `t[1]` exists |
| Dotfile.ValueIsSecondSegment | main.go:102-106 | a line's key is the text before its first `=`; its value is the text between the first and second `=`, or up to the end of the line |
| Dotfile.LaterLineOverrides | main.go:101-107 | appending a `token` line replaces the token and keeps the user; a `user` line does the converse; any other line changes nothing |
| Dotfile.MissingKeyStaysEmpty | main.go:101-110 | a key that no line names stays empty, so the reader rejects the file |
| Dotfile.LastValueAbsent | main.go:101-107 | with no line naming the key, the reference value is the default |
| Payload.BuildPayload | main.go:131-168 | the map equals `Form`. Its keys are among the twelve form keys, with `urlTitle` and not `url_title`. It holds `token`, `user` and `message` with their inputs. Each optional key is present exactly when its flag is non-empty, holding the flag unchanged. `retry=60` and `expire=3600` are present exactly when priority is exactly `2`. No optional key is empty. It decodes back to the request |
| Payload.FormMandatory | main.go:132-135 | the three mandatory keys are always present, holding the token, the user key and the message |
| Payload.FormKeysBounded | main.go:131-168 | only the twelve form keys occur |
| Payload.FormDevice | main.go:137-139 | `device` is present exactly when its flag is non-empty, with the flag's value |
| Payload.FormPriority | main.go:141-148 | `priority` is present exactly when its flag is non-empty. `retry=60` and `expire=3600` are present exactly when the flag is exactly `2`; `02` or ` 2` does not count |
| Payload.FormDisplayOptions | main.go:150-168 | sound, timestamp, title, url and url title are each present exactly when their flag is non-empty, with its value |
| Payload.FormOptionalValuesNonEmpty | main.go:137-168 | no key other than the mandatory three is ever sent empty |
| Payload.DecodeForm | main.go:131-168 | decoding the form gives back exactly the two keys and the flags it was built from |
| Response.Classify | main.go:199-231 | exactly one outcome applies: success only for 200 with a JSON object body; an unreadable acknowledgement for 200 with a body that is not JSON; a client failure for every status 400-499, showing `errors` only when the body parsed; the standard reason phrase for any other status |
| Response.ExitZeroOnlyOnAcknowledgement | main.go:199-231 | the exit status is 0 exactly for a 200 reply whose body is a JSON object, and the verbose flag never changes the outcome |
| Pushover.Init | main.go:73-113 | proceeds exactly when `-version` is absent, the message is non-empty, the dotfile is readable and both parsed keys are non-empty; it then yields the parsed keys; otherwise it exits with 0 for `-version` and 1 for every rejection |
| Pushover.Run | main.go:130-231 | a payload is built and sent exactly when `init` accepts; it equals `Form` of the parsed keys and the flags, so it carries exactly the keys `BuildPayload` promises, and decodes back to them; the exit status is 0 or 1, and 0 exactly for `-version` or for a sent payload answered by 200 with a JSON object |

## Left out

- Flag parsing (`flag` package, main.go:44-71) is not modelled. The flags arrive already parsed as `Switches` and `Flags`. An unknown flag would end the process with status 2; that is not modelled.
- The version banner (main.go:74) and every other printed message are not modelled. The model records only which outcome is reported.
- The user lookup and the file open (main.go:84-97) are not modelled separately. Either failure is the same `None` dotfile, with exit status 1.
- Read errors other than end of file are not modelled separately. `ReadString` ends the loop on any error, so they act like the end of the file.
- The read buffer size (main.go:100) is not modelled; it does not change which lines are returned.
- File contents are characters, not bytes. UTF-8 decoding is not modelled; `TrimSpace` works on characters with the white-space set of `unicode.IsSpace`.
- Form encoding (`v.Encode`), the request headers and the HTTP transport (main.go:170-197) are not modelled. Any failure before a reply is read is `TransportFailure`, with exit status 1.
- JSON decoding (main.go:117-128) is reduced to what the branching reads. The body is not JSON, a JSON object (and whether its `errors` member is non-null), or other JSON.
- Runtime panics are preconditions (`Response.Handled`), not outcomes. These are: a non-object JSON body for 200 or 4xx (main.go:125); a 4xx object without a non-null `errors` member (main.go:224); a verbose 200 without the `X-Limit-App-*` headers (main.go:208-211).
- The verbose details are not modelled: request id, quota and reset-time formatting (main.go:206-218).
- `http.StatusText` is a parameter of `Classify`; its table of reason phrases is not part of this model.
- Response.ExitCode: no contract of its own; `ExitZeroOnlyOnAcknowledgement` and `Pushover.Run` state what the exit status is.
- The Pushover API documents the URL-title parameter as `url_title`. The code (main.go:167) sends `urlTitle`, and the model follows the code.
- A 4xx reply whose body does not parse only prints the parse error and exits 1 (main.go:220-222). It is reported as `ClientFailure(false)`, not as a separate kind of error.
