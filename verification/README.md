# DELIMa help bot: uptime report, replies and polling recovery in Dafny

This project models the logic in `bot.py`, a Telegram bot that helps parents of
students reach the DELIMa KPM portal. The script registers message handlers that
reply with fixed texts. The `/status` handler reports the server's uptime, split
into days, hours, minutes and seconds. A catch-all handler echoes any other
text. `run_bot` calls the library's polling function in an endless loop. After
each call it decides, from how the call ended, whether to poll again, wait
twenty seconds and poll again, or replace the process with a fresh copy of
itself. An exception that none of its `except` clauses catches leaves the loop.

Four modules:

- `Text` (`text.dfy`): Python's substring test `needle in hay`, written as
  `Contains` and proved equal to "occurs at some index". Also Python's `str()`
  of an `int` (`IntToString`), with a reader `ReadInt` that recovers the value.
- `Uptime` (`uptime.dfy`): the chain of `divmod` calls (`SplitUptime`). For a
  positive divisor, Python's floor division and its remainder in
  [0, divisor) are exactly Dafny's `/` and `%` on `int`. So the model holds for
  every integer, negative ones included.
- `Replies` (`replies.dfy`): the text and parse mode of each handler's reply
  (`Respond`). It comes with a parser for the status reply and one for the echo
  reply, so that the contents of those replies can be stated as round trips.
- `Polling` (`polling.dfy`): the exception handling of `run_bot` as a step
  function `Recover` from a polling outcome to an action. `Run` gives the
  actions the loop takes for a sequence of outcomes, up to the first one that
  ends it. `RunBot` is the
  loop itself, over a given sequence of outcomes, proved against `Run`.

## Model

| member | source | states |
|---|---|---|
| `Uptime.SplitUptime` | bot.py:94-97 | for every integer uptime, hours lie in [0, 24) and minutes and seconds in [0, 60); days*86400 + hours*3600 + minutes*60 + seconds equals the uptime; days is the floor of uptime/86400; a non-negative uptime gives non-negative days |
| `Uptime.SplitUptimeUnique` | bot.py:95-97 | any days/hours/minutes/seconds with in-range clock fields that add up to the uptime are exactly the ones the divmod chain produces |
| `Uptime.SplitJoinRoundTrip` | bot.py:94-97 | splitting and then summing gives the uptime back, and summing a normal duration and then splitting gives that duration back |
| `Uptime.SplitUptimeTick` | bot.py:94-97 | one more second of uptime increments the seconds, or wraps them to 0 and carries into minutes, then hours, then days |
| `Replies.FormatStatusRoundTrip` | bot.py:100-101 | the status f-string keeps its four values apart and in the order days, hours, minutes, seconds: for any four integers, reading them back out of the text gives the values filled in |
| `Replies.StatusText` | bot.py:94-102 | the `/status` reply lists the days, hours, minutes and seconds of the uptime split, each exactly as computed: parsing the reply gives the split of the uptime (via `Replies.FormatStatusRoundTrip`) |
| `Replies.StatusTextInjective` | bot.py:94-102 | two different uptimes never produce the same status reply |
| `Replies.EchoText` | bot.py:107-111 | the catch-all reply contains the incoming text verbatim between single quotes, and the quoted text can be recovered from the reply exactly |
| `Replies.HelpListsEveryCommand` | bot.py:54-67 | the `/help` text mentions `/start`, `/help`, `/delima`, `/ains`, `/resetpassword` and `/status`: every command that has a handler |
| `Replies.HelpLinesMention` | bot.py:59-65 | a command list built from entries mentions the command of every entry |
| `Replies.Respond` | bot.py:43-111 | the reply is sent as Markdown exactly for `/start`, `/help` and `/resetpassword`; the `/status` reply parses back to the uptime split; the echo reply parses back to the incoming text; the `/help` reply names every command |
| `Text.Contains` | bot.py:127 | Python's `"409" in str(e)`: true exactly when the needle occurs at some index of the text |
| `Text.IntToString` | bot.py:101 | Python's `str()` of an int, as the f-string renders `{days}` and the other fields: never empty, and it starts with a minus sign exactly for a negative value; `Text.ReadIntToString` reads the value back |
| `Text.ReadIntToString` | bot.py:101 | reading back the decimal rendering of any integer, followed by text that does not start with a digit, gives the integer and that text |
| `Polling.Recover` | bot.py:121-136 | a normal return leads to another poll and nothing else does; an API error whose text contains "409" leads to a 20-second sleep and another poll in the same process, and only such an error does; every other API error and every other `Exception` lead to a re-exec; a `BaseException` that is not an `Exception` escapes the loop, and only it does |
| `Polling.Run` | bot.py:121-136 | the loop makes at most one polling call per outcome, and its first action is the one `Recover` chooses for the first call |
| `Polling.RunActions` | bot.py:121-136 | each action of a run is the one `Recover` chooses for the corresponding polling call; no action before the last ends the loop; the run stops before the outcomes run out only by a re-exec or an escaping exception |
| `Polling.RunPrefix` | bot.py:121-136 | while no earlier call stopped the loop, one more polling call appends exactly its own action to the run |
| `Polling.RunEndsAtFirstStop` | bot.py:121-136 | the loop stops exactly when some polling call ends in a non-409 API error, another exception or an uncaught one; every call before the last one did not; the loop ends in a re-exec exactly when that last call failed with a caught exception |
| `Polling.RunWithoutStop` | bot.py:121-130 | while calls only return or raise 409 errors, every call is followed by another in the same process, the loop never ends, and the time slept is 20 seconds per 409 error |
| `Polling.RunBot` | bot.py:121-136 | the loop makes exactly as many polling calls, sleeps exactly as long, and ends in a re-exec or an escaping exception exactly when `Run` says; if it does neither, it has consumed every outcome |
| `Polling.ConflictMatchedByText` | bot.py:126-130 | any API error whose text has "409" anywhere in it leads to a 20-second wait and another poll, whatever comes before or after; two sample messages are instances, one of them with status code 400 |

## Left out

- The Flask keep-alive server and its thread (`home`, `keep_alive`, bot.py:21-29) are not modelled. They are HTTP plumbing with a constant response.
- `auto_restart` (bot.py:114-118) is not modelled. It is a background thread that sleeps 900 seconds and then replaces the process, which is concurrency plus process replacement.
- The logging helpers `log_command` and `log_message` (bot.py:32-40) and every `logging` call are not modelled, because they only produce output.
- `time.time()`, `START_TIME` and the `int()` truncation of the float difference (bot.py:94, 140) are not modelled, because they are floating point and a clock. The model starts from the integer `uptime_seconds`.
- The calls to `bot.polling`, `time.sleep`, `os.execv` and `bot.reply_to` are not made. A polling call is represented by its `Outcome` and the rest by the `Action` or `Reply` value chosen.
- `Polling.RunBot`: the source loop never ends. The model runs the loop over a finite sequence of polling outcomes and stops when that sequence runs out, so it covers every finite prefix of an execution, not the infinite run itself.
- `Replies.Respond` takes the `Command` as given. How the messaging library picks a handler is not modelled: it matches a `/command` to its handler, and the catch-all handler, registered last, receives every other text message. The message's sender and chat are not modelled either.
- The exact wording of the library's `ApiTelegramException` message is the library's. The samples in `Polling.ConflictMatchedByText` are illustrations, and every lemma holds for any message text.
- This `bot.py` has no record store or name lookup, no instance lock file, no rate-limit handling and no exponential backoff, so the model has none of them.
- `Polling.Recover` covers exceptions raised by the polling call only. An exception raised inside an `except` clause is not modelled: `time.sleep(20)` interrupted (bot.py:130), or `os.execv` failing with `OSError` (bot.py:133, 136). Such an exception also leaves `run_bot`. The main thread then ends, and the Flask thread keeps the process alive without polling until `auto_restart` replaces it.
