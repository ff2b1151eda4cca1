# usyslog formatter in Dafny

A model of the message formatter of `SyslogClient` in `usyslog.py`, a
CircuitPython client for the BSD syslog protocol (RFC 3164). The client
turns a severity, a message and optional per-call values into the text
`<PRI>[HEADER ]BODY`:

- PRI is `(facility << 3) + severity`, written in decimal;
- HEADER is the timestamp `Mmm dd hh:mm:ss` (section 4.1.2 of RFC 3164)
  and/or the hostname, joined by one space;
- BODY is `TAG: ` followed by the message when a non-empty tag resolves,
  and the bare message otherwise.

Each per-call tag, hostname and timestamp flag falls back to the client's
stored default only when it is `None`. The shortcuts `alert` … `debug` log
at severities 1 … 7 with no per-call values.

Layout (one module per concept):

- `options.dfy` — `Option`, Python's "value or None".
- `decimal.dfy` — `str(int)`, the width-2 space and zero padding of the
  format specifiers `{:2}` and `{:02}`, and the parser that inverts
  `str(int)`.
- `priority.dfy` — the facility and severity constants and PRI.
- `timestamp.dfy` — the timestamp, rendered from a date/time record, and its
  parser.
- `message.dfy` — the stored defaults (`Config`), the per-call values
  (`Overrides`), resolution, header, body and the assembled message; a
  field-by-field reference layout (`WireFormat`) and the PRI reader
  (`ParsePri`) a collector would use.
- `client.dfy` — `log`, the shortcuts, and a sequence of calls on one client.

The clock is a parameter: `time.localtime()` becomes a `DateTime` record
whose fields are in the ranges `time.localtime()` reports. Sending is left
out. A log call yields the client it was made on and the datagram text.

Facility and severity are unbounded `int`s, because the source checks
neither. Python's `<<` on an int is exact multiplication by 8. An
out-of-table facility with a table severity gives a PRI outside 0..191,
negative (and written with a `-`) exactly for a negative facility
(`OutOfTableFacility`). An out-of-table severity can give a PRI inside the
range that a collector reads as another pair: `Pri(0, 8) == Pri(1, 0)`, so
severity 8 on a kern client arrives as user.emerg (`SeverityAliasing`). The
range facts are stated for codes inside the tables.

Resolution tests `is not None` (usyslog.py:98, 104, 110), modelled by
`ResolveText` for the tag and hostname and `ResolveFlag` for the timestamp
flag; the header and body then test the resolved text for non-emptiness
(`Truthy`). So an explicit
`""` tag or hostname wins over the stored value: it suppresses a non-empty
stored tag or hostname instead of falling back to it
(`ExplicitEmptyOverridesWin`).

## Model

| member | source | states |
|---|---|---|
| Priority.Pri | usyslog.py:94 | for facility 0..23 and severity 0..7 the PRI lies in 0..191; for any severity 0..7, PRI div 8 is the facility and PRI mod 8 the severity |
| Priority.DecomposePri | usyslog.py:94 | splitting a PRI into quotient and remainder by 8 gives back the facility and severity that built it |
| Priority.PriDecompose | usyslog.py:25-59 | every PRI in 0..191 comes from a facility in the table (0..23) and a severity in the table (0..7) |
| Priority.OutOfTableFacility | usyslog.py:94 | an out-of-table facility with a table severity gives a PRI outside 0..191, negative exactly when the facility is negative |
| Priority.SeverityAliasing | usyslog.py:94 | severity s + 8 on facility f gives the same PRI as severity s on facility f + 1; severity 8 on kern equals user.emerg |
| Priority.PriInjective | usyslog.py:94 | two pairs with table severities that give the same PRI are the same pair |
| Decimal.NatToString | usyslog.py:117 | `str(n)` is a non-empty string of digits with no leading zero, and it starts with '0' only for zero |
| Decimal.IntToString | usyslog.py:117-119 | `str(i)` is an unpadded decimal numeral, preceded by '-' exactly when i is negative |
| Decimal.ValueOfNatToString | usyslog.py:117 | reading back the numeral of n gives n |
| Decimal.NatToStringValueOf | usyslog.py:117 | every digit string without a leading zero is the numeral of the number it denotes, so the rendering is a bijection |
| Decimal.ParseIntToString | usyslog.py:117-119 | the parser recovers any int from its rendering |
| Decimal.IntToStringParseInt | usyslog.py:117-119 | every string the parser accepts is the rendering of the int it returns |
| Decimal.PadLeft | usyslog.py:84-85 | a field-width pad keeps the text as its suffix, fills only on the left, and reaches the width without ever truncating |
| Decimal.SpacePad2 | usyslog.py:84 | `{:2}` writes days 1..9 as a space and the digit, days 10..99 as two digits, never with a leading zero |
| Decimal.ZeroPad2 | usyslog.py:85 | `{:02}` writes 0..99 as exactly two digits, the tens digit first |
| Timestamp.FormatTimestamp | usyslog.py:78-86 | the timestamp has 15 characters: the month name from the Jan..Dec table at month-1, a space, the day as a space-padded pair, a space, and hour, minute and second as zero-padded pairs separated by ':' |
| Timestamp.MonthsDistinct | usyslog.py:81-82 | the twelve month names are pairwise different |
| Timestamp.ParseFormatTimestamp | usyslog.py:81-85 | every valid date/time is recovered from its timestamp, so distinct readings give distinct timestamps |
| Timestamp.FormatParseTimestamp | usyslog.py:81-85 | every well-formed timestamp string is the rendering of the date/time it parses to |
| Message.Join | usyslog.py:108 | joining no parts gives "", one part gives that part, and two parts gives them with the separator between |
| Message.Body | usyslog.py:110-114 | the message ends the body unchanged |
| Message.Assemble | usyslog.py:116-119 | the result opens with '<', reads back as the PRI followed by header-space-body (or just body when the header is empty), and ends with the body |
| Message.BuildMessage | usyslog.py:88-119 | the message opens with '<', a collector reading the PRI part gets `(facility << 3) + severity`, and the message text ends the result unmodified |
| Message.ParsePriPrefix | usyslog.py:117-119 | the `<PRI>` prefix always reads back as the PRI written and the text after it |
| Message.Header | usyslog.py:95-108 | the header is timestamp-space-hostname, the timestamp alone, or the hostname alone, and is empty exactly when the timestamp is off and no non-empty hostname resolves |
| Message.BuildMessageIsWireFormat | usyslog.py:94-119 | the message equals `<PRI>` followed by each present field with its own separator: timestamp and space, hostname and space, tag and colon-space, then the message |
| Message.NoHeaderIff | usyslog.py:101-119 | the output is `<PRI>` directly followed by the body, with no space, if and only if the timestamp is off and no non-empty hostname resolves |
| Message.TagPrefixIff | usyslog.py:110-114 | the body equals the bare message if and only if no non-empty tag resolves; otherwise it is the tag, ": " and the message |
| Message.OverrideActsAsDefault | usyslog.py:97-110 | passing per-call values gives the same message as a client constructed with those values as its defaults |
| Message.AbsentOverridesUseDefaults | usyslog.py:97-114 | with no per-call values, the stored timestamp flag, hostname and tag decide every field |
| Message.ExplicitEmptyOverridesWin | usyslog.py:97-114 | an explicit "" tag and hostname and an explicit False flag suppress any stored defaults, leaving `<PRI>` and the message |
| Message.GivenOverridesIgnoreDefaults | usyslog.py:97-110 | when all three per-call values are given, two clients with the same facility produce the same message whatever else they store |
| Message.TimestampOnly | usyslog.py:101-119 | with the timestamp on and no non-empty hostname or tag (absent or an explicit ""), the output is `<PRI>`, the timestamp, one space and the message |
| Message.DefaultConfigFormat | usyslog.py:72-76 | a client built with all default arguments logs at facility user (PRI 8 + severity) with a timestamp, no hostname and no tag |
| Client.LevelSeverity | usyslog.py:133-153 | every shortcut logs at a severity in 1..7, never at EMERG |
| Client.LevelSeverityRoundTrip | usyslog.py:133-153 | distinct shortcuts log at distinct severities |
| Client.SeverityHasShortcut | usyslog.py:133-153 | a severity has a shortcut if and only if it lies in 1..7, and that shortcut logs at exactly that severity |
| Client.Log | usyslog.py:88-131 | a log call leaves the client's stored defaults unchanged and sends `<PRI>` followed by the resolved timestamp (when on), hostname and tag fields, each with its separator, then the message |
| Client.Shortcut | usyslog.py:133-153 | a shortcut sends `<PRI>` for its own severity followed by the stored timestamp flag, hostname and tag fields, then the message, and leaves the defaults unchanged |
| Client.Replay | usyslog.py:121-131 | a sequence of log calls yields one datagram per call |
| Client.ReplayKeepsDefaults | usyslog.py:72-76 | after any sequence of calls, whatever per-call values they passed, the client still holds the defaults it was constructed with |
| Client.LaterCallUnaffected | usyslog.py:88-131 | a call with no per-call values made after any sequence of calls gives the same datagram as the same call on a fresh client |
| Client.ReplayDatagrams | usyslog.py:88-131 | each datagram of a sequence of calls is what that call sends on the client alone |
| Client.InfoExample | usyslog.py:149-150 | facility user, tag "myapp", hostname "host1", no timestamp: `info("hello")` sends `<14>host1 myapp: hello` |
| Client.DaemonErrorExample | usyslog.py:121-131 | facility daemon, no tag or hostname, no timestamp: severity ERR "disk full" sends `<27>disk full` |
| Client.DayPaddingExample | usyslog.py:84-85 | the 5th of January at 09:03:07 is `Jan  5 09:03:07` (space before the day), the 15th at 23:59:00 is `Jan 15 23:59:00` |

## Left out

- Sending: `UDPClient.__init__` (address lookup with `getaddrinfo`, socket creation), the `sendto` in `log`, `close`, `__enter__` and `__exit__`. These are calls into the host's socket pool with no formatting logic. `Client.Log` returns the datagram text instead of sending it.
- `data.encode()`: the datagram is modelled as a string, not as bytes.
- `time.localtime()`: the clock is the `DateTime` parameter. Its fields are required to be in the ranges `time.localtime()` reports (month 1..12, day 1..31, hour 0..23, minute and second 0..59 and 0..61).
- Timestamp.FormatTimestamp: requires those clock ranges. It therefore does not model Python's behaviour for a month of 0 (index -1 wraps to "Dec") or 13 (an IndexError), or fields wider than two digits. A real clock never produces these.
- A closed state and a `SenderClosedError`: the source tracks no open/closed state, so there is nothing to model.
- Non-string values: a non-`str` tag or message is converted to text by the f-strings at usyslog.py:112, 117 and 119, while a truthy non-`str` hostname makes `" ".join` raise `TypeError` at usyslog.py:108. The model takes strings only, so neither conversion nor that error is modelled. The timestamp flag is modelled as a `bool`, not as an arbitrary value whose truthiness decides.
- Concurrency: the client holds no shared state besides the socket, which is left out.
