# Order-book snapshot store and replay scheduler, in Dafny

This project models `OrderBookService`, the core of an Angular order-book viewer. The service holds
three things:

- a sequence of order-book snapshots;
- the index of the current snapshot;
- whether a time-compressed replay is running.

It offers:

- views derived from that state: the current snapshot, the total count and the list of time labels;
- navigation: by absolute index, by time label, and one step forward or back;
- a replay that shows every snapshot in turn, keeping the real spacing between them but fitting the
  whole run into a requested number of seconds;
- the per-entry mapping that turns a raw JSON entry into a snapshot: the bid/ask levels are
  extracted and the `HH:MM:SS.ffffff` label is parsed into milliseconds since midnight.

Modules, one per part of the service:

- `Wrappers`: `Option`. It stands for the `null` of the current-snapshot view, for `findIndex`'s
  `-1`, and for the `NaN` that `parseInt` gives on a field that is not digits. An absent JSON
  field is a missing map key, not an `Option`.
- `Snapshots`: the `Level` and `Snapshot` values and the pure derived views, `CurrentOf`, `Labels`,
  `TimestampsMs` and `FirstMatch`. The total count is simply `|data|`.
- `TimeLabel`: splitting the label at every `:` and `.`, decimal digit parsing, and `ParseTime`.
- `Ingest`: a raw entry's ten bid and ten ask columns, the `for` loop that keeps the truthy pairs
  (`ExtractLevels`), and the per-entry mapping (`MapEntry`).
- `Schedule`: the replay schedule as a value. A schedule is a sequence of `Step(delay, target)`
  entries. Each step waits `delay` ms after the previous step fires, then makes `target` current.
  This module also holds the loop that builds the schedule (`BuildProportionalSchedule`), and
  lemmas about fire times and total duration.
- `Service`: class `OrderBookService` with fields `data`, `index`, `replaying` and `pending`. The
  timers and subscriptions are replaced by the `pending` queue of steps. `Tick` fires the head of
  the queue, as the expiry of its timer would. `Stop` empties the queue.

Design decisions that the model states explicitly:

- Navigation and `Load` never cancel a running replay. `Load` keeps `replaying` and `pending`
  unchanged.
- Step targets are fixed when the replay starts. The source's timers close over their indices, and
  in the fallback over the `++idx` counter, so the k-th tick sets index k.
- `InBounds()` says two things: the index is inside the data whenever there is data, and every
  pending target is inside the data. `StartReplay` establishes it, and navigation, `Stop` and `Tick`
  preserve it. `Load` preserves it when no replay is pending.
- `Load` can be called at any time. In the source the data arrives once, from the constructor's
  HTTP subscription, and before that `startReplay` returns early, so a load during a replay cannot
  happen there. In the model, a `Load` that replaces the data during a replay can leave a pending
  target outside the new data. `CurrentOf` then gives `None`, the source's defensive `null`.
- The index is a `nat`. No operation can make it negative.
- The normal-case jump to index 0 (`of(0)` inside `concat`) happens synchronously when the replay
  is subscribed. The model therefore sets `index := 0` inside `StartReplay`; it is not a queued step.
- Delays and prices are `real`. Timestamps are integer milliseconds.

## Model

| member | source | states |
|---|---|---|
| Snapshots.Labels | src/app/services/order-book.service.ts:32-34 | the timestamp list is as long as the data and holds `data[k].time` at each k |
| Snapshots.TimestampsMs | src/app/services/order-book.service.ts:126-127 | the timestamps used by the scheduler are `data[k].timestamp`, in order, one per snapshot |
| Snapshots.FirstMatch | src/app/services/order-book.service.ts:94 | the lookup finds the smallest index with the label, and finds nothing exactly when no snapshot has it |
| Snapshots.LabelListedIffFound | src/app/services/order-book.service.ts:93-98 | a label can be selected exactly when it appears in the timestamp list |
| Snapshots.DuplicateLabelResolvesToFirst | src/app/services/order-book.service.ts:94 | when a label occurs twice, the lookup returns an index no later than the first occurrence |
| TimeLabel.Split | src/app/services/order-book.service.ts:70 | splitting gives one more field than there are separators, and no field contains `:` or `.` |
| TimeLabel.SplitField | src/app/services/order-book.service.ts:70 | a field without separators is returned whole |
| TimeLabel.SplitAtSeparator | src/app/services/order-book.service.ts:70 | a field followed by a separator is split off as the first part, and the rest is split on its own |
| TimeLabel.SplitLabel | src/app/services/order-book.service.ts:70 | `h:m:s.f` with digit fields splits into exactly `[h, m, s, f]` |
| TimeLabel.DigitsValue | src/app/services/order-book.service.ts:72 | the decimal value of n digits is below 10^n (so three fraction digits give fewer than 1000 ms) |
| TimeLabel.ParseTime | src/app/services/order-book.service.ts:70-72 | a parsed timestamp is never negative |
| TimeLabel.MissingFractionRejected | src/app/services/order-book.service.ts:72 | a label with fewer than three separators has no fourth field and gives no timestamp |
| TimeLabel.ParseFormattedLabel | src/app/services/order-book.service.ts:70-72 | `h:m:s.f` parses to h*3600000 + m*60000 + s*1000 + (the first 3 digits of f); with h < 24, m < 60 and s < 60 the result is below 86400000 |
| TimeLabel.ParseShortFraction | src/app/services/order-book.service.ts:72 | a fraction of one to three digits is taken whole as the milliseconds, so `12:30:45.5` is 5 ms past the second |
| TimeLabel.MicrosecondsIgnored | src/app/services/order-book.service.ts:72 | fraction digits after the third do not change the timestamp |
| TimeLabel.ExampleLabel | src/app/services/order-book.service.ts:70-72 | "12:30:45.123456" is 45045123 ms after midnight |
| Ingest.KeptNumbersExact | src/app/services/order-book.service.ts:52-69 | a level among 1..n is kept exactly when both its price and its size are present and non-zero |
| Ingest.KeptNumbersIncreasing | src/app/services/order-book.service.ts:52-69 | kept levels appear in strictly increasing level number |
| Ingest.KeptLevelsAreKeptNumbers | src/app/services/order-book.service.ts:58-67 | the k-th kept pair is the price and size of the k-th kept level number |
| Ingest.KeptLevelsBounded | src/app/services/order-book.service.ts:52-69 | at most n levels are kept from n, and every kept level has non-zero price and size |
| Ingest.ExtractLevels | src/app/services/order-book.service.ts:49-69 | the loop over levels 1..10 returns exactly the kept bid and ask levels, at most 10 per side |
| Ingest.MapEntry | src/app/services/order-book.service.ts:48-79 | an entry maps to a snapshot exactly when its label parses; the snapshot then carries the label, the parsed timestamp and the kept levels |
| Schedule.ScheduleTargets | src/app/services/order-book.service.ts:130-157 | in both branches the schedule has `length - 1` steps to indices 1..length-1, each one past the previous |
| Schedule.ScheduleDelays | src/app/services/order-book.service.ts:130-157 | every delay is at least 10 ms: 100 ms in the fallback, otherwise `max(10, gap / span * seconds * 1000)` |
| Schedule.ReplayVisitsEveryIndex | src/app/services/order-book.service.ts:142-157 | the jump to 0 followed by the step targets visits 0, 1, ..., length-1 exactly once each, in order |
| Schedule.FallbackIgnoresDuration | src/app/services/order-book.service.ts:130-139 | with a non-positive span the schedule is the fixed cadence, whatever duration is requested |
| Schedule.FallbackFireTimes | src/app/services/order-book.service.ts:133-135 | in the fallback, step k fires (k+1)*100 ms after the start |
| Schedule.AccumulatedScaledGaps | src/app/services/order-book.service.ts:145-157 | chained floored delays add up to at least the rescaled real offset, and to exactly that when nothing is clamped |
| Schedule.ProportionalFireTimes | src/app/services/order-book.service.ts:126-157 | in the normal case the move to index k+1 fires no earlier than `(t[k+1]-t[0]) / span * seconds * 1000`, and exactly then when no delay is clamped |
| Schedule.ProportionalTotal | src/app/services/order-book.service.ts:126-157 | in the normal case the delays sum to at least `seconds * 1000`, and to exactly that when no delay is clamped |
| Schedule.ExampleProportional | src/app/services/order-book.service.ts:142-157 | timestamps 0, 100, 400 over 4 s give delays 1000 and 3000, so the steps fire at 1000 and 4000 ms |
| Schedule.ExampleFallback | src/app/services/order-book.service.ts:130-139 | three equal timestamps give two 100 ms steps to indices 1 and 2 |
| Schedule.BuildProportionalSchedule | src/app/services/order-book.service.ts:142-155 | the loop builds the proportional schedule: length-1 steps, step k targets k+1 with a delay of at least 10 |
| Service.OrderBookService.constructor | src/app/services/order-book.service.ts:11-14 | the service starts with no data, index 0, not replaying and nothing pending |
| Service.OrderBookService.Load | src/app/services/order-book.service.ts:36-43 | the data is replaced; the index becomes 0 when the new data is non-empty and stays put otherwise; the replay state is untouched; without a pending replay the index stays in bounds |
| Service.OrderBookService.Current | src/app/services/order-book.service.ts:21-26 | the current snapshot is present exactly when the index is within the data, and is then `data[index]` |
| Service.OrderBookService.AvailableTimestamps | src/app/services/order-book.service.ts:32-34 | the offered labels are one per snapshot, in order |
| Service.OrderBookService.SelectByIndex | src/app/services/order-book.service.ts:86-91 | the index becomes i exactly when 0 <= i < length, and the current snapshot is then `data[i]`; otherwise nothing changes; data and replay state are never touched; bounds are preserved |
| Service.OrderBookService.SelectByTime | src/app/services/order-book.service.ts:93-98 | the index moves to the first snapshot with the label, and stays put when there is none; bounds are preserved |
| Service.OrderBookService.Next | src/app/services/order-book.service.ts:100-106 | the index increments only when `index < length - 1`, with no wraparound, and stays in bounds; pending targets are untouched |
| Service.OrderBookService.Previous | src/app/services/order-book.service.ts:108-113 | the index decrements only when `index > 0`, with no wraparound, and stays in bounds; pending targets are untouched |
| Service.OrderBookService.Stop | src/app/services/order-book.service.ts:165-171 | afterwards nothing is pending and no replay runs; index and data are unchanged, so a second call changes nothing; bounds are preserved |
| Service.OrderBookService.StartReplay | src/app/services/order-book.service.ts:115-163 | with fewer than 2 snapshots no replay runs (index 0 only for one snapshot); otherwise index 0, replaying, and exactly the new schedule pending; afterwards the index and every pending target are inside the data |
| Service.OrderBookService.Tick | src/app/services/order-book.service.ts:133-162 | the head step's target becomes current and leaves the queue; the replay ends with the last step; an empty queue changes nothing; the next pending step moves one index on and waits at least 10 ms; index and targets stay inside the data |
| Service.ReplayToCompletion | src/app/services/order-book.service.ts:130-162 | a replay of at least two snapshots, left to run, ends at the last index, not replaying and with nothing pending, and stays in bounds throughout |
| Service.StopThenTick | src/app/services/order-book.service.ts:165-171 | after a stop, no queued step fires |
| Service.RestartReplay | src/app/services/order-book.service.ts:115-117 | starting a replay while one runs leaves only the second schedule pending |

## Left out

- The HTTP fetch of `assets/data.json`, `shareReplay`, and the mapping of the whole array
  (`rawData.map`): these are I/O. The model maps one entry (`MapEntry`) and loads an explicit
  sequence (`Load`).
- Push notification (`BehaviorSubject`, observers, `asObservable`): replaced by plain fields and
  derived functions. The transient `true` that `startReplay` publishes before its early return with
  fewer than two snapshots is not observable in the model.
- Timers, `concat`, `interval`, `take` and wall-clock timing: replaced by the pending queue. `Tick`
  fires the head step. The delays are data; elapsed time is not modelled.
- `Date` semantics (local time zone, daylight-saving shifts, the day a `Date` is created on): the
  timestamp is the arithmetic of `setHours` in milliseconds since midnight. This carry arithmetic
  also gives `setHours`' result when a field is out of range.
- TimeLabel.ParseTime: `parseInt` leniency is not modelled. The model gives no timestamp for a
  field that is empty or holds a non-digit. In that case the source would get `NaN` and an invalid
  date, or would read only the leading digits.
- TimeLabel.ParseTime: a label with fewer than four fields gives no timestamp. The source throws on
  `parts[3].substring`, which aborts the whole load.
- IEEE floating point: delays, real-time ratios and prices are Dafny `real`. `NaN` prices or sizes
  (also falsy in JavaScript) are not modelled.
- The fields of a raw entry that the spread `...rawEntry` copies unchanged into the snapshot are
  not modelled. The snapshot carries the label, the timestamp and the two level lists.
- `console.log('Replay finished')`.
- The chart and time-navigation components and the Angular module wiring: these are presentation
  and framework code.
