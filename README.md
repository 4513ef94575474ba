# Lost Ark raid scheduling: a Dafny model

This project models the core of a chat bot that organises weekly raid sign-ups for the game Lost Ark.

Each sign-up (`LostarkSchedule`) is a player, identified by a QQ number, who commits a number of slots in three roles:
- `dps1`;
- `dps2`;
- `mercy`, the support role.

`schedule` turns a list of sign-ups into rounds (`Round`), each a list of role entries (`ScheduleUser`). It works like this:
- It copies the sign-ups and stably sorts the copy by total committed slots, largest first (`sortFunc`).
- For each sign-up it emits its mercy entries, then its dps1 entries, then its dps2 entries.
- It places each entry with the closure `addUserToRound`. That closure scans the rounds in order and puts the entry into the first round that:
  - does not already hold the same player;
  - holds fewer entries than the team size;
  - is within the mercy quota, team size / 4.
  A mercy entry must also leave the round's mercies within that quota. If no round qualifies, a new round is opened.

The model also covers the small date and text helpers of the bot:
- `extractDays` reads which weekdays a player is available, and rejects long strings and repeated days.
- The weekday offsets compute the next Wednesday and the Tuesday after it.
- `formatDate` zero-pads the month and the day.
- `extractNextWednesdayFromRange` reads back the start date of a `start ~ end` range.

Module layout:
- `types.dfy` holds the records. Roles are a datatype.
- `order.dfy` holds the comparator, the stable sort and the order in which entries are emitted.
- `placement.dfy` holds first-fit placement as functions on values, with the round invariant and the conservation lemmas.
- `common.dfy` holds the imperative scheduler:
  - a `RoundBuilder` class whose `rounds` field the closure updates in place;
  - the three counted loops;
  - the `forEach` over the sorted sign-ups.
  Each method is proved against the functions of `placement.dfy`.
- `days.dfy` holds `extractDays`, a method with its loop.
- `dates.dfy` holds the weekday offsets, the number formatting and padding, `formatDate`, `trim`, `split('~')[0]`, and the round trip from range string back to start date.

`schedule` is a single greedy first-fit pass over the sorted entries. It has no separate batch or remainder phase, and neither has the model.

The team size (`mapTeamNumber`) is a natural number. When the caller passes none it defaults to 8 (`Common.ScheduleWithDefault`). The quota test `mercies <= mapTeamNumber / 4` divides real numbers in JavaScript, so it is modelled exactly as `4 * mercies <= teamSize`. The new-mercy test is modelled the same way, as `4 * (mercies + 1) > teamSize`.

## Model

| member | source | states |
|---|---|---|
| `Types.RoleCount` | src/types.ts:7-9 | The slots a sign-up committed for a set of roles never exceed its total. With all three roles they equal the total; with none they are zero. |
| `Order.SortFunc` | src/common.ts:251-254 | The comparator is negative exactly when `a` has the larger total, and zero exactly when the totals are equal. |
| `Order.InsertPos` | src/common.ts:251-256 | Where the stable sort puts a sign-up in front of an already sorted rest: after every sign-up with a strictly larger total, before the first one that is not larger. |
| `Order.Insert` | src/common.ts:256 | The insertion step of the stable sort. `Order.InsertAt` gives each element's new position, `Order.InsertSorted` keeps the roster non-increasing, and `Order.InsertPermutes` adds exactly the inserted sign-up. |
| `Order.InsertAt` | src/common.ts:256 | After inserting at position `k`, elements before `k` stay in place, `x` sits at `k`, and the others move up by one. |
| `Order.InsertPermutes` | src/common.ts:256 | Insertion adds exactly the inserted sign-up to the multiset of the roster. |
| `Order.SortByTotal` | src/common.ts:251-256 | The sorted roster is non-increasing in total and is a permutation of the input: same multiset, same length. |
| `Order.InsertSorted` | src/common.ts:256 | Inserting a sign-up at its stable position keeps a non-increasing roster non-increasing. |
| `Order.SortByTotalStable` | src/common.ts:251-256 | Stability: for every total `n`, the sign-ups with total `n` appear in the sorted roster in their input order. |
| `Order.SortByTotalDeclared` | src/common.ts:256 | Sorting changes neither the slots any QQ declared for any set of roles nor the sum of all totals. |
| `Order.DeclaredCoversMember` | src/common.ts:279-284 | A sign-up's own committed slots count towards what its QQ declared over the roster. |
| `Order.EntryStream` | src/common.ts:279-306 | The entries emitted for the whole roster, sign-up after sign-up. The stream's length is the sum of all totals. `Placement.EntryStreamOccurrences` gives each player's count per role. |
| `Order.UserEntries` | src/common.ts:279-306 | One sign-up emits exactly its total number of entries: first its mercy entries, then its dps1 entries, then its dps2 entries. |
| `Placement.MercyCount` | src/common.ts:263 | `filter(user => user.role === 'mercy').length`: never more than the round's size. `Placement.MercyCountSnoc` shows that appending an entry adds one exactly when it is a mercy entry. |
| `Placement.MercyCountSnoc` | src/common.ts:263 | Appending an entry raises the mercy count by one if it is a mercy entry, and leaves it unchanged otherwise. |
| `Placement.HasQq` | src/common.ts:262 | `some(user => user.user.qq === newUser.user.qq)`: some entry of the round belongs to that player. `Placement.NoQqNoOccurrences` shows that a round without the player holds none of its slots. |
| `Placement.NoQqNoOccurrences` | src/common.ts:262 | A round in which the player does not occur holds zero of its slots, for every set of roles. |
| `Placement.Admits` | src/common.ts:262-268 | The three tests of one iteration: the player is not yet in the round, the round is within the mercy quota and below the team size, and a mercy entry keeps the round within the quota. `Placement.AppendKeepsRoundOk` shows that an admitted entry keeps a well-formed round well formed. |
| `Placement.AppendKeepsRoundOk` | src/common.ts:266-269 | Appending an entry that the round admits keeps the round well formed. |
| `Placement.Place` | src/common.ts:260-277 | `addUserToRound` on values: first-fit append, or a new round. `Placement.PlaceFirstFit` states its behaviour. |
| `Placement.PlaceAll` | src/common.ts:279-306 | Placing a stream of entries one after the other, starting from no rounds. `Placement.PlaceAllWellFormed` and `Placement.PlaceAllCounts` state what the result holds. |
| `Placement.FirstFitFrom` | src/common.ts:261-272 | The scan stops at the first round at or after `from` that admits the entry, or at the end. Every round skipped rejects the entry. |
| `Placement.PlaceFirstFit` | src/common.ts:260-277 | Placing an entry opens a new round `[e]` exactly when no round admits it. Otherwise it appends the entry to the lowest-index round that admits it and leaves all other rounds unchanged. |
| `Placement.PlacePreservesWellFormed` | src/common.ts:262-276 | Placement keeps every round well formed. A round is well formed when it is non-empty, holds at most the team size, never holds one QQ twice, and keeps mercies within a quarter of the team (at least one mercy is allowed). |
| `Placement.PlaceAllWellFormed` | src/common.ts:260-306 | Placing any stream of entries from no rounds yields only well-formed rounds. |
| `Placement.MercyTestRedundant` | src/common.ts:258-268 | From a team of four upwards, the `isMercySatisfy` test never rejects a round of a well-formed schedule. |
| `Placement.MercyTestMattersBelowFour` | src/common.ts:263-268 | With a team of two, a round of one mercy rejects a dps entry of another player, only because of the `isMercySatisfy` test. |
| `Placement.OccurrencesConcat` | src/common.ts:269 | Occurrences of a player's roles are additive over concatenation. |
| `Placement.EntryStreamOccurrences` | src/common.ts:279-306 | The emitted entry stream holds each QQ's roles exactly as often as the roster declared them, and its length is the sum of all totals. |
| `Placement.PlaceCounts` | src/common.ts:269-276 | One placement adds exactly the placed entry to the rounds' role counts, for every QQ and every set of roles. |
| `Placement.PlaceAllCounts` | src/common.ts:260-306 | The rounds hold exactly the entries of the placed stream: per QQ and role set, and in total. |
| `Placement.NoDuplicateAtMostOne` | src/common.ts:262 | A round without repeated QQs holds at most one entry of any player. |
| `Placement.OccurrencesAtMostRounds` | src/common.ts:262-276 | In well-formed rounds a player occupies at most one slot per round, so never more slots than there are rounds. |
| `Common.RoundBuilder.constructor` | src/common.ts:230 | The builder starts with no rounds, for the given team size, and is well formed. |
| `Common.RoundBuilder.AddUserToRound` | src/common.ts:260-277 | The in-place scan leaves `rounds` equal to the first-fit placement of the entry into the old rounds, and keeps well-formed rounds well formed. |
| `Common.RoundBuilder.AddCopies` | src/common.ts:286-305 | One counted loop leaves `rounds` equal to placing `n` copies of the entry after everything placed before. |
| `Common.RoundBuilder.AddUser` | src/common.ts:279-306 | The `forEach` callback leaves `rounds` equal to placing the sign-up's mercy, dps1 and dps2 entries after everything placed before. |
| `Common.ScheduleWithDefault` | src/common.ts:229 | With no team size given, `schedule` behaves as with 8: the result is the first-fit placement for 8, and every round holds at most 8 entries and at most 2 mercies. |
| `Common.Schedule` | src/common.ts:229-309 | The result is the first-fit placement of the sorted roster's entry stream. Every round is well formed. Each QQ's role counts equal what it declared. The number of entries is the sum of all totals. No sign-up committed more slots than there are rounds. |
| `Common.ScheduleProperties` | src/common.ts:229-309 | The same guarantees, stated for the specification of the schedule. |
| `Days.ExtractDays` | src/utils.ts:35-53 | Returns `null` exactly when the string is longer than 7 UTF-16 code units or repeats a day character. Otherwise it maps exactly the day characters present, each to `true`. |
| `Days.Utf16Length` | src/utils.ts:39-40 | `length` counts each character once or twice: between `|s|` and `2 * |s|`. |
| `Days.SundaySpellingsDistinct` | src/utils.ts:2 | `日` and `天` are different keys, so `日天` is accepted with both days. |
| `Dates.JsRemainder` | src/utils.ts:16-17 | JavaScript `%` agrees with the mathematical remainder on non-negative operands and is non-positive on negative ones. |
| `Dates.DiffToNextWednesday` | src/utils.ts:16 | The offset is 0 to 6 days, lands on a Wednesday, and no earlier offset does. |
| `Dates.DiffToNextNextTuesday` | src/utils.ts:17 | The offset is 7 to 13 days and lands on a Tuesday. So does the offset seven days earlier, and no Tuesday comes before that one. |
| `Dates.RangeSpan` | src/utils.ts:16-17 | The range spans 6 days, except when today is a Wednesday, when it spans 13 days. |
| `Dates.DigitChar` | src/utils.ts:7-8 | A digit below ten becomes a decimal digit character with that value. |
| `Dates.NatToString` | src/utils.ts:7-8 | `toString()` of a natural number is a non-empty string of decimal digits with no leading zero. |
| `Dates.NatToStringRoundTrip` | src/utils.ts:7-8 | Reading the decimal digits of `n` back gives `n`. |
| `Dates.NatToStringLength` | src/utils.ts:6-8 | Numbers below 10, 100, 1000 and 10000 have 1, 2, 3 and 4 digits. |
| `Dates.IntToString` | src/utils.ts:7-8 | `toString()` of an integer is non-empty and starts with `-` exactly when the integer is negative. |
| `Dates.PadStart` | src/utils.ts:7-8 | `padStart` yields length `max(|s|, width)`, ends with `s`, and is filled with the fill character before it. |
| `Dates.TwoDigits` | src/utils.ts:7-8 | The two-digit numeral of `v < 100` is two decimal digits worth `v`. |
| `Dates.PaddedField` | src/utils.ts:7-8 | For 1 to 99, padding the decimal string to width 2 with `0` gives the two-digit numeral. |
| `Dates.FormatDate` | src/utils.ts:5-11 | `formatDate` on the year, month index and day. `Dates.FormatDateShape`, `Dates.FormatDateLength` and `Dates.FormatDateChars` state its output. |
| `Dates.FormatDateShape` | src/utils.ts:5-11 | For a month index 0 to 11 and a day 1 to 31, the output is the year's digits, `-`, the two-digit month, `-`, and the two-digit day. |
| `Dates.FormatDateLength` | src/utils.ts:5-11 | With a four-digit year the output has ten characters. |
| `Dates.FormatDateChars` | src/utils.ts:5-11 | The output is non-empty and holds only digits and `-`. |
| `Dates.TrimStart` | src/utils.ts:31 | Only white space is dropped from the front, and what is left does not start with white space. |
| `Dates.TrimEnd` | src/utils.ts:31 | Only white space is dropped from the back, and what is left does not end with white space. |
| `Dates.Trim` | src/utils.ts:31 | The result is no longer than the input and has no white space at either end. `Dates.TrimInfix` states which infix it is. |
| `Dates.TrimInfix` | src/utils.ts:31 | `trim` keeps exactly the infix of the input that starts after the leading white space and is followed only by white space. |
| `Dates.TrimStartPadded` | src/utils.ts:31 | `trimStart` of white space followed by a string that does not start with white space gives that string. |
| `Dates.TrimEndPadded` | src/utils.ts:31 | `trimEnd` of a string that does not end with white space, followed by white space, gives that string. |
| `Dates.TrimPadded` | src/utils.ts:31 | `trim` of white space, then `a`, then white space gives `a`, when `a` has no white space at either end. |
| `Dates.BeforeFirstTilde` | src/utils.ts:30 | `split('~')[0]` is a prefix without `~`, followed by `~` or by the end of the string. |
| `Dates.ExtractNextWednesdayFromRange` | src/utils.ts:29-32 | The extracted date has no `~` and no white space at either end. `Dates.ExtractPadded` states what it returns for a padded `a ~ b`. |
| `Dates.BeforeTildeOf` | src/utils.ts:30 | `split('~')[0]` of `p ~ b` is `p` when `p` has no `~`. |
| `Dates.ExtractPadded` | src/utils.ts:29-32 | For white space `w1` and `w2`, extracting from `w1 a w2 ~ b` gives `a`, when `a` has no `~` and no white space at either end. |
| `Dates.ExtractRoundTrip` | src/utils.ts:29-32 | For `a` without `~` and without outer white space, extracting from `a ~ b` gives back `a`. |
| `Dates.DateCharsOuter` | src/utils.ts:10 | A non-empty string of digits and `-` has no `~` and no white space at either end. |
| `Dates.RangeString` | src/utils.ts:25 | The `start ~ end` string of the two formatted dates. `Dates.NextWednesdayRoundTrip` reads the start back. |
| `Dates.NextWednesdayRoundTrip` | src/utils.ts:25-32 | Extracting the start from the range string of two dates gives back the formatted Wednesday. |

## Left out

- The `isLast` path of `schedule`, which sorts and places by the previous week's counts (`lastDps1`, `lastDps2`, `lastMercy`), is not modelled. It is the same algorithm on other fields.
- The `teamNumber` / `poolMaxValue` computation at the start of `schedule` is not modelled. Its value is never used afterwards, and it relies on floating-point `Math.ceil`.
- Fractional or negative team sizes are not modelled; `teamSize` is a natural number.
- The deep copy of the roster (`JSON.parse(JSON.stringify(...))` and the spread) is not modelled separately. Dafny values are already copies.
- Object identity of sign-ups is not modelled. Entries refer to a sign-up by value, so two equal sign-ups are indistinguishable, and aliasing of `user` objects is not captured.
- `Common.RoundBuilder.AddUser` and `Common.RoundBuilder.AddCopies` split the `forEach` callback and its three counted loops into two methods; the loops themselves are as in the source.
- `Date` arithmetic is not modelled: `getDay`, `setDate` with its month and year rollover, and `getFullYear`. Dates are `CalendarDate` values (year, month index, day), and weekdays are integers 0 to 6.
- `Dates.FormatDateShape`: states the output shape only for years from 0 on, month indexes 0 to 11 and days 1 to 31. Those are the values a JavaScript `Date` of the present era produces. `Dates.FormatDateChars` covers every input.
- Unpaired UTF-16 surrogates in strings are not modelled. Strings are sequences of Unicode scalar values, and `Days.Utf16Length` counts characters outside the Basic Multilingual Plane as two code units.
- The spreadsheet export (`exportExcel`) and the regular-expression parsing of chat messages (`extractContent`) are not modelled. They depend on a spreadsheet library and on regular expression semantics.
- src/index.tsx is not part of this model: the database, command registration and e-mail delivery are I/O.
