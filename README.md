# A verified model of the `todo` command-line client's decision logic

The `todo` client talks to a small plan service over HTTP. Apart from the
requests themselves, everything it decides is in `src/main.rs`:

- `hm` reads a time token `H:M` on a 24-hour clock;
- `parse_args` turns the argument vector into the plan to create
  (end-only, start-only with the `.` sentinel, or with both times);
- `Plan::to_string` prints a plan on one line;
- `main` picks one action from the arguments: help, version, list, get,
  delete, clear, create, or "Invalid arguments".

The model states these in Dafny and proves what they promise.

| file | module | models |
|---|---|---|
| `rust_text.dfy` | `RustText` | the Rust library behaviour the code relies on: `i32`, `str::split`, `str::parse::<i32>`, the `{}` and `{:02}` formats |
| `time_parse.dfy` | `TimeParse` | `hm` |
| `plans.dfy` | `Plans` | the `Plan` record and `Plan::to_string` (the pure layout `Render`, and `ToString`, which pushes piece after piece like the source) |
| `create_args.dfy` | `CreateArgs` | `parse_args` |
| `dispatch.dfy` | `Dispatch` | the guard chain of `main` as a function from arguments to a `Command` |

Integers are Dafny's unbounded `int`, restricted to `I32` wherever the source
holds an `i32`. `str::parse::<i32>` is modelled exactly: an optional sign,
one or more ASCII digits, and a value within `i32` range. So `-0` and `+9`
are read, while an empty piece or an overflowing one is refused. `{:02}` is
modelled exactly for every `i32`: the sign, then zeros up to width two, then
the digits, never truncated. So `-5` prints as `-5` and `123` as `123`.

Some behaviours of the code are worth stating plainly:

- An end-only plan renders as `: - 09:30 X`: one space between the colon
  and the dash, because the code writes `":"` then `" - "`.
- `parse_args` never produces a plan without any time: every accepted
  shape carries a start time, an end time, or both.
- A time piece is read by `str::parse::<i32>` and only then range-checked,
  so signed pieces are accepted: `+9:05` reads as 09:05 and `-0:30` as 00:30.
- An argument vector with no program name at all (length 0) matches no
  guard. It reaches `parse_args` and ends as `Invalid`.

## Model

| member | source | states |
|---|---|---|
| `RustText.ParseI32` | src/main.rs:51-52 | a successful `parse::<i32>` read a text that starts with a sign or a digit and has only digits after that first character, ending in a digit; a negative result needs a `-` |
| `RustText.ParseI32Decimal` | src/main.rs:51-52 | every decimal text of a non-negative `i32` is read back, with any number of leading zeros and an optional `+` |
| `RustText.ParseI32NegatedDecimal` | src/main.rs:51-52 | a `-` before such a text reads as the negated value, so `-0` reads as 0 |
| `RustText.ParseI32Rejects` | src/main.rs:51-53 | the empty text, a sign alone, a first character that is neither a sign nor a digit, a non-digit after the first character, and values beyond `i32` are all refused |
| `RustText.Split` | src/main.rs:47 | `split(':')` gives one more piece than there are colons, no piece holds a colon, and joining the pieces gives back the token |
| `RustText.SplitAround` | src/main.rs:47-48 | a token with exactly one colon splits into the text on each side of it |
| `RustText.NatText` | src/main.rs:19 | `{}` of a non-negative number is a non-empty digit run whose value is that number, without leading zeros |
| `RustText.IntText` | src/main.rs:19 | `{}` of an integer is made only of digits and the minus sign |
| `RustText.IntTextReadsBack` | src/main.rs:19 | `parse::<i32>` reads back what `{}` writes, for every `i32` |
| `RustText.Pad2` | src/main.rs:22 | `{:02}` is at least two characters of digits and minus signs, and exactly two digits for 0..99 |
| `RustText.Pad2ReadsBack` | src/main.rs:22 | `parse::<i32>` reads back what `{:02}` writes, for every `i32`, so padding loses nothing |
| `Plans.PadExamples` | src/main.rs:22 | `{:02}` writes 0 as `00` and 9 as `09`, keeps `30`, and neither truncates `123` nor pads `-5` |
| `TimeParse.ParseHm` | src/main.rs:46-61 | an accepted token has exactly one colon and gives an hour in 0..23 and a minute in 0..59 |
| `TimeParse.ParseHmMeaning` | src/main.rs:46-61 | `hm` accepts a token with time t exactly when the token has one colon and the text on each side reads as t's hour and minute, both on the clock |
| `TimeParse.ParseHmRoundTrip` | src/main.rs:46-58 | every clock time is read back from its decimal text, with or without leading zeros, and from its `{:02}` text |
| `TimeParse.ParseHmReadsClockText` | src/main.rs:46-58 | the `HH:MM` text of a clock time reads back as that time |
| `TimeParse.ParseHmOffClock` | src/main.rs:54-57 | a well-formed token whose hour or minute is off the clock gives `None` |
| `TimeParse.ParseHmEmptyPiece` | src/main.rs:51-53 | a token with an empty hour or an empty minute gives `None` |
| `TimeParse.ParseHmBadLead` | src/main.rs:51-53 | a colon-separated token whose hour or minute piece starts with neither a sign nor a digit gives `None` |
| `TimeParse.ParseHmLetters` | src/main.rs:51-53 | `a9:00` and `9:x5` give `None` |
| `TimeParse.ParseHmPieces` | src/main.rs:47-60 | a token made of two colon-free pieces is accepted exactly when both pieces read as `i32` and the pair is on the clock |
| `TimeParse.ParseHmUnpadded` | src/main.rs:46-58 | `9:5` reads as 09:05 |
| `TimeParse.ParseHmPadded` | src/main.rs:46-58 | `09:05` reads as 09:05 |
| `TimeParse.ParseHmSigned` | src/main.rs:51-58 | `-0:+30` reads as 00:30, because `parse::<i32>` admits signs |
| `TimeParse.ParseHmHour24` | src/main.rs:55-56 | `24:00` gives `None` |
| `TimeParse.ParseHmMinute60` | src/main.rs:55-56 | `10:60` gives `None` |
| `TimeParse.ParseHmColons` | src/main.rs:48-49 | `10` (no colon) and `1:2:3` (two colons) give `None` |
| `Plans.FieldText` | src/main.rs:21-35 | an optional field prints as nothing exactly when it is absent, and otherwise only as digits and minus signs |
| `Plans.IdText` | src/main.rs:18-20 | the id prefix is empty exactly when there is no id, and otherwise starts with `[` |
| `Plans.ToString` | src/main.rs:15-39 | pushing the id prefix, the start fields, `:`, ` - `, the end fields, `:`, a space and the title gives exactly the layout `Render` |
| `Plans.PushSlot` | src/main.rs:21-27 | pushing an hour, `:` and a minute appends exactly that slot's text |
| `Plans.PushField` | src/main.rs:21-23 | an `if let Some(v)` push appends `{:02}` of v, or nothing when the field is absent |
| `Plans.RenderInjective` | src/main.rs:15-39 | two plans that print the same line are the same plan, for every plan |
| `Plans.RenderFullExample` | src/main.rs:15-39 | id 5, 09:30 to 10:00, `Standup` prints as `[5] 09:30 - 10:00 Standup` |
| `Plans.RenderEndOnlyExample` | src/main.rs:15-39 | no id, end 09:30 only, `X` prints as `: - 09:30 X` |
| `CreateArgs.ParseArgs` | src/main.rs:64-110 | every plan returned has no id, has each hour and minute present together and on the clock, has at least one time, comes from 3 or 4 tokens, and takes the last token as its title |
| `CreateArgs.ParseArgsAccepts` | src/main.rs:64-109 | a plan is returned exactly for 3 tokens whose second reads as a time, or 4 tokens whose second reads as a time and whose third is `.` or reads as a time |
| `CreateArgs.ParseArgsMeaning` | src/main.rs:64-106 | 3 tokens give an end-only plan at the token's time; 4 tokens with `.` give a start-only plan; other 4-token vectors give a start and an end read from the two tokens |
| `CreateArgs.ParseArgsToArgs` | src/main.rs:64-106 | every draft plan is produced from its own times written as `HH:MM`, so the grammar can reach every plan the client may submit |
| `CreateArgs.DotIsNotATime` | src/main.rs:80-94 | `.` never reads as a time, so the start-only and two-time shapes never overlap |
| `CreateArgs.RenderCreated` | src/main.rs:15-39 | a created plan prints its present times in `HH:MM` form and keeps the separators of an absent slot, e.g. `: - HH:MM title` |
| `CreateArgs.RenderNoId` | src/main.rs:18-20 | a plan without an id prints with no prefix |
| `CreateArgs.ParseArgsNumericTitle` | src/main.rs:66-77 | `todo 09:00 10:00` is an end-only plan at 09:00 titled `10:00` |
| `CreateArgs.ParseArgsShapes` | src/main.rs:64-106 | `09:00 . Meeting` is start-only, `09:00 10:00 Meeting` has both times, and `09:00 Meeting` is end-only |
| `CreateArgs.ParseArgsOffClock` | src/main.rs:66-77 | `todo 09:99 Meeting` gives `None` |
| `Dispatch.Classify` | src/main.rs:126-195 | a created plan is a draft titled by the last token; get and delete take the third token as the id, unchecked |
| `Dispatch.ClassifyFlags` | src/main.rs:126-188 | each flag command is chosen exactly on its own shape, e.g. help exactly for no arguments or a lone `--help` or `-h`, and delete with id x exactly for `--delete x` or `-d x` |
| `Dispatch.FlagsAreNotTimes` | src/main.rs:161-171 | the get and delete flags never read as times |
| `Dispatch.ClassifyCreate` | src/main.rs:189-192 | the result is `Create(p)` exactly when `parse_args` returns p, so no flag guard ever hides a plan |
| `Dispatch.ClassifyInvalid` | src/main.rs:189-195 | the result is `Invalid` exactly when no flag shape matches and `parse_args` returns `None` |
| `Dispatch.ClassifyFallsThrough` | src/main.rs:189-195 | once no flag guard matches, the action is `Create` of what `parse_args` returns, or `Invalid` when it returns `None` |
| `Dispatch.ClassifyExamples` | src/main.rs:126-195 | `todo --help extra` and the empty vector are invalid, `todo` alone is help, and `todo -d not-a-number` deletes `not-a-number` |

## Left out

- HTTP through `reqwest::blocking`: `post_plan` (src/main.rs:113-121) and the requests of the list, delete, get and clear actions (src/main.rs:145-187). This is network I/O, and any failure there aborts the program. The model stops at the `Command` that names the action.
- The list action's loop that fetches each id in turn (src/main.rs:149-157). It only issues requests and prints their results.
- The serde derives and JSON decoding (src/main.rs:1, 4, 148, 155, 178). This is library code; a decoded `Plan` is taken as any value of the datatype.
- Collecting `env::args()` (src/main.rs:124). The argument vector is a parameter.
- All console output: the usage lines, the version text, the status lines and the `{:?}` quoting of printed plans (src/main.rs:127-140, 147, 156, 167, 177-179, 186, 194). Only the choice of action is modelled.
- The `URL` constant (src/main.rs:42). It is configuration used only by the requests.
