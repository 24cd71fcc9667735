# task-1 `/api` endpoint — a Dafny model

The service answers `GET /api?slack_name=…&example_name=…`. It reads the two
query parameters and checks that neither is blank. It answers either 422 with one
`{field, errmsg}` entry per blank parameter, or 200 with a payload. The payload
echoes both names and carries the current weekday, the current time, two fixed
GitHub URLs and `status_code` 200.

This project models that decision logic in four modules:

- `Whitespace` (whitespace.dfy): the whitespace set of Go's `unicode.IsSpace`,
  `strings.TrimSpace`, and the `validstring` predicate.
- `Clock` (clock.dfy): `day`. A clock reading is formatted as
  "2006-01-02 15:04:05 Monday", split on spaces, and the last piece is kept. A
  `Stamp` stands for one reading: its date-and-time text and its weekday.
- `Validation` (validation.dfy): the `check` and `validationError` records.
  `validate` is a method with the source's loop, proved equal to the spec functions
  `Errors` and `Verdict`. Go's nil result is `None`; a non-nil result is
  `Some(errs)` with `errs` never empty.
- `Handler` (handler.dfy): `queryParam` (`url.Values.Get`) and `infoHandler`. The
  handler is a pure function from the parsed query and the two clock readings to
  the `(status, body)` pair it hands to its JSON writer.

The ordering property of `validate` is stated by rank. A failing check's error sits
at the position equal to the number of failing checks before it (`ErrorAt`). Every
error comes from exactly such a check (`ErrorSource`). Ranks strictly increase with
input position (`RankIncreasing`). Together these say there is exactly one error per
failing check, in input order.

The day label comes from `day(time.Now())` (main.go:95). `time.Now()` is in the
process's local zone and `Format` uses that zone, so `current_day` is the local
weekday. `utc_time` is a second `time.Now()` call (main.go:96), also in local time,
serialised with its offset. The `Stamp` parameter stands for the reading the day
label is formatted from.

## Model

| member | source | states |
|---|---|---|
| Whitespace.IsSpace | main.go:29 | no contract of its own: the whitespace set of Go's unicode.IsSpace that strings.TrimSpace strips; TrimSpace and ValidString state what it decides |
| Whitespace.TrimLeft | main.go:29 | the result is a suffix of the input, everything dropped is whitespace, and the result is empty or starts with a non-space |
| Whitespace.TrimRight | main.go:29 | the result is a prefix of the input, everything dropped is whitespace, and the result is empty or ends with a non-space |
| Whitespace.TrimSpace | main.go:29 | the trimmed string is empty iff every character of the input is whitespace; otherwise it starts and ends with a non-space |
| Whitespace.TrimSpaceIdempotent | main.go:29 | trimming an already trimmed string changes nothing |
| Whitespace.TrimSpaceIsInfix | main.go:29 | the trimmed string is a contiguous piece of the input with only whitespace before and after it |
| Whitespace.ValidString | main.go:28-30 | a string is valid iff it has at least one non-whitespace character, so "" and whitespace-only strings are invalid |
| Clock.Format | main.go:23 | no contract of its own: the formatted reading, date-and-time text, a space and the weekday name; Day states that its last piece is the weekday name |
| Clock.Split | main.go:24-25 | splitting on a separator gives at least one piece, so the last piece always exists |
| Clock.SplitPiecesExcludeSep | main.go:24 | no piece of a split contains the separator |
| Clock.SplitJoin | main.go:24 | joining the pieces of a split with the same separator gives back the original text |
| Clock.SplitLast | main.go:24-25 | the last piece of a split is exactly the text after the last separator |
| Clock.Day | main.go:22-26 | the day label is the full English name of the reading's weekday, whatever the date-and-time text is |
| Clock.DayIsWeekdayName | main.go:22-26 | the day label is one of the seven English weekday names |
| Validation.ValidationError.Error | main.go:53-55 | no contract of its own: the error text is the error's message; ErrorAt states that it is the failing check's message |
| Validation.Errors | main.go:58-67 | a list of checks yields at most one error per check |
| Validation.Verdict | main.go:69-73 | the result is nil iff every check passes; a non-nil result is the error list and is never empty |
| Validation.Validate | main.go:57-74 | the loop over every check returns exactly the verdict: nil iff all checks pass, else the errors of the failing checks in order |
| Validation.ErrorsEmptyIff | main.go:60-73 | no error is collected iff every check's condition holds |
| Validation.ErrorsLength | main.go:60-67 | the number of errors equals the number of failing checks |
| Validation.ErrorsAppend | main.go:60-67 | no short-circuit: the errors of two lists of checks in a row are the errors of the first followed by those of the second |
| Validation.PassingCheckIgnored | main.go:61-66 | inserting a passing check anywhere leaves the error list unchanged |
| Validation.ErrorAt | main.go:53-67 | a failing check's error sits at the position given by the failing checks before it, carries that check's field, and its Error() text is that check's message |
| Validation.ErrorSource | main.go:60-67 | every error at position k is the error of a failing check with exactly k failing checks before it |
| Validation.RankIncreasing | main.go:60-67 | an earlier failing check's error comes strictly before the errors of later checks, so input order is kept |
| Handler.QueryParam | main.go:32-34 | a key with values reads as its first value; a non-empty read means the key was present with a value |
| Handler.MissingParamIsBlank | main.go:32-34 | an absent parameter, or one with no values, reads as "" and is blank |
| Handler.InfoHandler | main.go:76-103 | status 422 goes with an error-list body and status 200 with a payload body |
| Handler.Checks | main.go:82-85 | no contract of its own: the two checks, slack_name first, each valid iff its value is not blank; their errors are stated by ChecksErrors and their messages by CheckMessages |
| Handler.CheckMessages | main.go:83-84 | each check's message is its own field name followed by " cannot be blank" |
| Handler.ChecksErrors | main.go:82-87 | the handler's checks report one error per blank parameter, slack_name first, with the message "<field> cannot be blank" |
| Handler.HandlerReply | main.go:79-102 | the reply is 200 with a payload echoing both raw values, the weekday name, the time, the two URLs and status_code 200 iff neither parameter is blank; otherwise it is 422 with one error per blank parameter, slack_name first |
| Handler.BlankErrorsShape | main.go:82-90 | when at least one value is blank, the expected error list has one or two entries, slack_name's first if it is blank, each saying "<field> cannot be blank" |
| Handler.RejectionMessages | main.go:82-90 | a 422 reply has one or two errors, the first for slack_name if it is blank, each naming a queried field and saying "<field> cannot be blank" |
| Handler.UrlsIndependentOfInput | main.go:97-98 | any two successful replies carry the same two URLs, whatever the inputs and clock readings |
| Handler.RepeatedRequestsAgree | main.go:92-102 | the same request at two different times gets the same status, and the replies differ at most in current_day and utc_time |
| Handler.NoParameters | main.go:79-90 | a request with no parameters gets 422 with exactly the slack_name and example_name errors, in that order |
| Handler.WhitespaceOnlyIsBlank | main.go:83-90 | a whitespace-only slack_name is blank and its error comes first in a 422 reply |
| Handler.NonBlankNamesAccepted | main.go:92-102 | slack_name "alice" and example_name "bob" get 200, echoed unchanged, with status_code 200 and the weekday name as current_day |

## Left out

- `main` (main.go:105-115): creating the mux, `ListenAndServe` on port 4000 and `log.Fatal` are server bootstrap and network I/O.
- `writeJSON` (main.go:36-40): setting the content-type header, writing the status and JSON encoding act on the response stream. The model stops at the `(status, body)` pair handed to it. The encoder's error, which the handler ignores, is not modelled.
- `r.URL.Query()`: parsing the raw query string into `url.Values` is library code. The handler takes the parsed map.
- Only the first value of a multi-valued parameter is used, as `url.Values.Get` does. Nothing else about multi-valued parameters is modelled.
- The clock: each `time.Now()` call becomes a parameter. `Stamp` is the reading that the day label is formatted from, and `Instant` is the reading stored as `utc_time`. The two are independent, like the two separate calls. Nothing relates them, and nothing says that later requests see later times.
- Go's time layout engine: `Stamp.dateTime` stands for the "2006-01-02 15:04:05" text. Its digits, padding and time zone are not modelled. Only the split-and-take-last step and the weekday name are modelled.
- Strings are sequences of Unicode code points. Go strings are UTF-8 bytes, and an invalid byte decodes to U+FFFD, which is not whitespace. Byte-level decoding is not modelled. A string has non-zero byte length iff it has at least one code point, so `len(…) > 0` becomes a sequence-length test.
- `validate` takes a variadic `...check` argument. It is modelled as a sequence of checks.
