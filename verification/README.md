# Karuta drop tracker — a Dafny model

The `karuta` cog watches one Discord guild for drop announcements posted by
the Karuta bot. For each announcement it credits the mentioned member with a
drop in a daily and a weekly counter. It grants a role once a member reaches
three drops in a day. It shows a top-ten leaderboard. Once a minute it checks whether the daily counters are due to be
cleared: after 06:30 UTC on a date later than the last daily reset. On a
Monday it also checks the weekly counters. As written, that check compares
only the ISO week number with that of the last weekly reset, which goes
wrong at year boundaries (see "## Findings").

This project models that logic as pure functions over immutable values:

- `Decimal` (decimal.dfy): `int(...)` of the captured digits and `str(member.id)`, the counter key.
- `DropRegex` (drop_regex.dfy): the drop pattern `<@!?([0-9]+)> is dropping ([3-4]) cards!`.
  It is given both as a deterministic scan (`MatchAt`) and as the set of strings it accepts (`MatchesAt`).
  `FirstMatch` models `re.findall(...)[0]`.
- `Counters` (counters.dfy): a counter dictionary, as a sequence of `(user, count)` entries with distinct users.
  This keeps Python's insertion order, which the stable sort makes visible.
- `Leaderboard` (leaderboard.dfy): the stable descending sort, the top-ten cut (`get_all_drops`) and the emoji-prefixed lines.
- `Schedule` (schedule.dfy): the daily and weekly firing conditions of the reset task.
  The weekly condition comes both as written (`WeeklyDueAsWritten`) and corrected (`WeeklyDue`).
- `Karuta` (karuta.dfy): the cog's state, with the listener (`OnMessage`), `get_drops`, the two reset routines and one run of the reset task (`Tick`).
  `Tick` takes the weekly rule as a parameter: `AsWritten` is the source's behaviour and `Corrected` the intended one.

Inputs that come from the chat platform or the clock are parameters:

- `Guild`: which user ids resolve to a member, whether the drop role exists, and who holds it.
- `Env`: whether the guild and the drop-log channel can be found.
- `Instant`: the current time, as a date ordinal, the microsecond of the day and the ISO week number.

Only the counters of the one guild the cog serves are modelled, because no other guild's counters are ever touched.

## Model

| member | source | states |
|---|---|---|
| Decimal.ParseNat | karuta/karuta.py:215 | `int(d)` of the captured digits, most significant digit first. Its partners are `ParseShow` and `ShowParse` |
| Decimal.ShowNat | karuta/karuta.py:225 | `str(n)` is a non-empty string of ASCII digits with no leading zero, one character exactly when n < 10 |
| Decimal.ParseShow | karuta/karuta.py:215 | `int(str(n)) == n` for every n |
| Decimal.ShowNatInjective | karuta/karuta.py:225-226 | distinct member ids give distinct counter keys |
| Decimal.ShowParse | karuta/karuta.py:215 | a mention without leading zeros is its own counter key: `str(int(d)) == d` |
| DropRegex.DigitRunEnd | karuta/karuta.py:14 | greedy `[0-9]+`: every character of the run is a digit and the character after it is not |
| DropRegex.MatchAt | karuta/karuta.py:14 | a match captures a non-empty string of digits and a card count of 3 or 4 |
| DropRegex.MatchAtSound | karuta/karuta.py:14 | whatever the scan reports at a position is an occurrence of `<@`, optional `!`, the digits, `> is dropping `, the count and ` cards!` |
| DropRegex.MatchAtComplete | karuta/karuta.py:14 | every occurrence of the pattern is found at its position with the same captures, so the captures are unique |
| DropRegex.SearchFrom | karuta/karuta.py:210-214 | the result is the leftmost position at or after the start where a match begins, or no position matches |
| DropRegex.FirstMatch | karuta/karuta.py:210-214 | the first element of `findall` is the match with the leftmost start, and there is none exactly when nothing matches |
| DropRegex.FirstMatchIsLeftmost | karuta/karuta.py:210-215 | stated against the pattern itself: the first match is an occurrence, none starts earlier, and no first match means no occurrence at all |
| Counters.Get | karuta/karuta.py:241 | `d.get(u, 0)`: the stored count of the user's entry, or 0 when the user has none |
| Counters.Increment | karuta/karuta.py:225-226 | the result is still a dictionary, its users are the old ones plus u, an existing entry keeps its place, and a new one is appended with count 1 |
| Counters.IncrementCounts | karuta/karuta.py:225-226 | u's count goes up by one, a missing entry counting as 0, and every other user's count is unchanged |
| Leaderboard.SortDesc | karuta/karuta.py:245 | `sorted(items, key=count, reverse=True)` as an insertion sort that puts each entry before the first one whose count is not higher. It keeps the length, and the four lemmas below state what it computes |
| Leaderboard.SortDescPerm | karuta/karuta.py:245 | sorting only rearranges the items: same multiset of entries |
| Leaderboard.SortDescSorted | karuta/karuta.py:245 | sorting with `reverse=True` gives counts in non-increasing order |
| Leaderboard.SortDescUsers | karuta/karuta.py:245 | sorting a dictionary's items keeps the same users, each once |
| Leaderboard.SortDescStable | karuta/karuta.py:245 | the sort is stable: for each count, the entries with that count keep their dictionary order |
| Leaderboard.TopDrops | karuta/karuta.py:243-246 | `get_all_drops`: min(10, n) entries in non-increasing order, each stored with the same count; no left-out entry has a higher count than the last one shown; ties keep dictionary order; users stay distinct |
| Leaderboard.Lines | karuta/karuta.py:26-37 | line i carries entry i and is prefixed with `emoji[i]`: gold, silver and bronze medals for places 1-3 and a small black square after that |
| Leaderboard.Board | karuta/karuta.py:294-300 | line i shows the i-th `get_all_drops` entry, so the board inherits its distinct users and stable tie order. There are min(10, n) lines, and line i carries `emoji[i]`, so the 10-element emoji table is never indexed past its end. The first-place line holds the highest count, counts do not increase down the board, every line is a stored entry, and no entry left off has a higher count than the last line |
| Schedule.DailyDue | karuta/karuta.py:96-98 | the daily condition: the time of day is strictly after 06:30 and the date is strictly later than the cached daily watermark's |
| Schedule.WeeklyDueAsWritten | karuta/karuta.py:100-102 | the weekly condition as written: a Monday whose ISO week number is greater than the cached weekly watermark's. The ISO year is not compared |
| Schedule.WeeklyDue | karuta/karuta.py:100-102 | the corrected weekly condition: a Monday in a later ISO week than the cached weekly watermark, comparing the Mondays that start the two weeks |
| Schedule.WeeklyFires | karuta/karuta.py:100-102 | selects the weekly condition a tick applies: `AsWritten` or `Corrected` |
| Schedule.WeekStartIsMonday | karuta/karuta.py:101 | the start of an instant's week is a Monday, at most six days before it |
| Schedule.WeeklyDueOnMonday | karuta/karuta.py:100-103 | on a Monday, the corrected weekly rule fires exactly when the last weekly reset was on an earlier date |
| Schedule.WeeklyDueOncePerWeek | karuta/karuta.py:100-103 | once the weekly watermark is in an ISO week, no instant in that week fires the corrected weekly rule |
| Schedule.WeeklyAsWrittenMissesNewYear | karuta/karuta.py:100-103 | on Monday 2024-01-01 after a weekly reset on Monday 2023-12-25, the daily rule and the corrected weekly rule fire, but the week-number comparison as written does not |
| Schedule.WeeklyAsWrittenMisses | karuta/karuta.py:100-102 | on a Monday, the rule as written misses a reset the corrected rule makes exactly when the last weekly reset was on an earlier date with a week number at least as high. So a week-52 watermark silences every Monday of a 52-week year, and a week-53 watermark silences every later Monday |
| Karuta.Accepted | karuta/karuta.py:201-208 | the listener's filters: the message is in a guild, that guild is the served one, the author is the Karuta bot, and the channel is one of the three whitelisted ones |
| Karuta.InitialState | karuta/karuta.py:46-62 | the registered defaults: both counters empty, so every `get_drops` is 0 and both boards are empty. Both watermarks are 2023-03-19, and the cache holds the same instants |
| Karuta.GetDrops | karuta/karuta.py:239-241 | `get_drops`: the member's stored count of that kind, or 0 when the member has no entry |
| Karuta.OnMessage | karuta/karuta.py:200-235 | a member is credited exactly when the message passes the guild, author and channel filters and the first match's digits name a member; the credited id is `int` of those digits. Otherwise nothing changes. The credited member's daily and weekly counts go up by one and everyone else's are unchanged. Each map changes only by `d[str(id)] = d.get(str(id), 0) + 1`: every entry keeps its place, and a new key is appended with count 1. The watermarks are never touched. The role is requested exactly when the role exists, the member lacks it, and the updated daily count reaches MIN_DROPS (3) |
| Karuta.OnMessageCounts | karuta/karuta.py:222-229 | for every member and both kinds, `get_drops` after a message is the old value plus one for the credited member and unchanged for everyone else |
| Karuta.OnMessageCreditsFirstMention | karuta/karuta.py:210-220 | stated against the pattern itself. The credited id is the number in the leftmost occurrence of the drop pattern. Conversely, on an accepted message whose leftmost occurrence names a member, that member is credited. A message with no occurrence changes nothing |
| Karuta.LeftmostIsFirst | karuta/karuta.py:210-216 | an occurrence of the pattern with none before it is `findall(...)[0]`, captures included |
| Karuta.ResetDaily | karuta/karuta.py:114-141 | with the guild found: the daily map becomes empty and the daily watermark becomes now. Without it: nothing changes. The weekly side is untouched. A board is posted exactly when the guild and the log channel are found, and it ranks the counts from before the reset |
| Karuta.ResetWeekly | karuta/karuta.py:161-188 | the same for the weekly map and watermark, leaving the daily side untouched |
| Karuta.Tick | karuta/karuta.py:92-108 | nothing happens unless the time is after 06:30 and the date is later than the cached daily watermark. The daily map is emptied exactly when that rule fires and the guild is found. The weekly map is emptied exactly when, inside a daily reset, the weekly rule fires and the guild is found. With `AsWritten` that rule is the source's comparison. Each board is posted exactly when its reset runs and the log channel is found, and it ranks the counts from before the reset. After a firing, the cache equals the stored watermarks |
| Karuta.DailyResetOncePerDate | karuta/karuta.py:98-106 | after a tick past 06:30 with the guild found, any later tick on the same date changes nothing and posts nothing, under either weekly rule |
| Karuta.WeeklyResetOncePerWeek | karuta/karuta.py:100-106 | with the corrected rule, after a weekly reset, no tick in the same ISO week clears the weekly counts or posts a weekly board |
| Karuta.ResetRetriedWithoutGuild | karuta/karuta.py:114-117 | when the guild cannot be found a tick changes nothing, so the next tick tries again |
| Karuta.WeeklyResetAtNewYear | karuta/karuta.py:100-104 | with the corrected rule, the first Monday tick of 2024 empties the weekly map last reset on 2023-12-25 |
| Karuta.WeeklyResetSkippedAtNewYear | karuta/karuta.py:98-104 | as written, that same tick empties the daily map but leaves the weekly map and its watermark unchanged, and posts no weekly board |

## Left out

- Discord calls are not modelled, because they are foreign calls with no visible semantics. These are `add_reaction`, `add_roles`, the 60-second `asyncio.sleep` before it, `get_or_fetch_user`, embeds and `channel.send`. `OnMessage` returns the decision to grant the role, not its effect.
- The removal of the drop role from every holder at the end of a daily reset (karuta/karuta.py:152-159) is not modelled. It is a best-effort loop of foreign calls whose failures are swallowed.
- Display names in leaderboard lines are not modelled. A `Line` holds the emoji prefix, the user id and the count, not the rendered text.
- The Red `Config` store and its async getters and setters are not modelled. The `tasks.loop` timer, `before_loop`, `cog_unload`, `initialize` and `create_task` are left out too. State is passed in and returned, and one run of the task is one `Tick`.
- `Karuta.ResetDaily` and `Karuta.ResetWeekly` record the tick's `now` as the watermark. The source calls `datetime.now()` again inside each routine, and that slightly later instant is not modelled.
- Calendar arithmetic from POSIX timestamps (`fromtimestamp`, `isocalendar`) is not modelled. An `Instant` supplies the date ordinal, the time of day and the ISO week number as inputs. The weekday is derived from the ordinal.
- The `drops` and `karutaleaderboard` commands' argument handling, cooldowns and invalid-type message are left out. A `Kind` stands for the two registered names, `daily` and `weekly`. Any other type string makes `getattr` return an unregistered value, and the command then fails.
- `AUTO_DROP_REGEX` (karuta/karuta.py:15-17) is defined but never used, so it is not modelled.
- The `example` and `example_slash` cogs register hello-world commands with no logic.
- Counts are unbounded naturals, as Python integers are.
- Karuta.Tick: each reset routine is assumed to run to completion. In the source nothing catches an exception inside a reset (karuta/karuta.py:98-106). After the map is cleared (121, 168) and the watermark stored (125, 172), the routine can still raise: at the `isinstance` assertion when the log channel is not a text channel (130, 177), or in `get_or_fetch_user` or `channel.send`. The exception then skips the weekly check and `cache_configs()` and leaves the loop body. The model has no such outcome: a found log channel is one the board can be posted to, and a firing tick always refreshes the cache.
- Each message and each tick is one atomic step. The interleavings at the `Config` awaits are not modelled. The listener reads both maps (karuta/karuta.py:222-223) and writes them back in two separate awaits (228-229), and a reset running in the task loop can clear a map between those points. The listener's write then restores the pre-reset counts plus one.
- Karuta.Tick: an `Instant` carries its ISO week number as an input, unconstrained by its date ordinal. Facts about `AsWritten` therefore hold for the week numbers supplied; the calendar facts used in the lemmas are in the constants' comments.

## Findings

| source | as written | input that shows it | evidently intended | confidence | as-written member | corrected member |
|---|---|---|---|---|---|---|
| karuta/karuta.py:100-103 | the weekly reset fires on a Monday when `now.isocalendar().week > last_weekly_reset.isocalendar().week`, comparing week numbers without the ISO year | last weekly reset on Monday 2023-12-25 (ISO 2023 week 52), tick on Monday 2024-01-01 at 06:31 UTC (ISO 2024 week 1). `1 > 52` is false. ISO 2024 and 2025 have 52 weeks, so the next weekly reset is on Monday 2026-12-28 (ISO 2026 week 53). After that the watermark is in week 53, and `week > 53` never holds again | reset on the first Monday tick of every new ISO week, across year boundaries | high; not executed | Karuta.WeeklyResetSkippedAtNewYear | Karuta.WeeklyResetAtNewYear |

`Karuta.Tick` takes the weekly rule as a parameter. `AsWritten` applies `Schedule.WeeklyDueAsWritten`, the comparison as the source writes it. `Schedule.WeeklyAsWrittenMisses` states exactly which Mondays that comparison misses, and `Schedule.WeeklyAsWrittenMissesNewYear` gives a concrete one. `Corrected` applies `Schedule.WeeklyDue`, which compares the Mondays that start the two ISO weeks. Its intended properties are `Schedule.WeeklyDueOnMonday`, `Schedule.WeeklyDueOncePerWeek`, `Karuta.WeeklyResetOncePerWeek` and `Karuta.WeeklyResetAtNewYear`. Everywhere else the model follows the code.
