# NASA APOD date navigator — a verified model

The `NasaApod` React component shows NASA's Astronomy Picture of the Day for
a date. The user can step one day back or forward, jump to a random date, or
go back to today. This project models the component's date-navigation state
machine in Dafny and proves properties of it.

The machine has four state cells: `apod` (the record shown, if any),
`isLoading`, `currentDate` and `isFutureDate`. Every change of `currentDate`
re-runs an effect that evaluates the date. A date later than now is blocked.
Any other date starts one request whose response later overwrites the record
or, on failure, only clears the loading flag. The screen is one of four views
chosen by priority from these cells.

Two modules:

- `ApodMachine` (`apod_machine.dfy`) is the machine as values. It has a
  `State` datatype, one transition function per event, the view selection, an
  `Event` type with `Step`/`Run` over event sequences, and the lemmas.
- `NasaApodComponent` (`nasa_apod.dfy`) has the class `NasaApod`, whose
  fields are the four state cells. The effect flag and the requests are
  ghost fields, because they stand for React's effect queue and the pending
  promises. Its constructor, effect, callbacks and handlers assign those
  fields. Each method is proved to move the object's `Snapshot()`
  exactly as the matching `ApodMachine` function moves a `State`.

Modelling decisions:

- Time is integer milliseconds since 1970-01-01T00:00Z. The guard at
  src/NasaApod.tsx:34 compares full timestamps. "Now" is a parameter of
  every event that reads the clock.
- 1995-06-16 is `FirstApodMs = 803260800000`, which is how
  `new Date("1995-06-16")` parses (UTC midnight). One day is 86400000 ms.
- A request is two events. Evaluating a date appends it to `inFlight` and
  logs it in `issued`. A later event delivers the outcome of in-flight
  request `i`. Responses may be delivered in any order.
- `effectPending` records that `currentDate` was reassigned and the effect
  is due. Every handler builds a new `Date` object, so React's dependency
  check always sees a change and the effect always re-runs.
- The `draw` parameter is the integer offset `floor(r * span)`, where `r`
  is the value of `Math.random()` in [0, 1) and `span` runs from 1995-06-16
  to now − 1 day. The `Date` constructor truncates the positive sum
  `start + r * span`, so the date is `start + draw` (`DrawInRange`).
- Two schedules of events are modelled. `Enabled` allows the events in any
  order, so responses may arrive in any order and clicks may come at any
  time. `ComponentAllows` is the component's own schedule. A click needs a
  button that the rendered view shows, and it comes only after the effect of
  the previous date change has run. The effect runs only after `currentDate`
  was reassigned. Flushing that effect before the next click is what React 18
  does for discrete events such as clicks, and the schedule assumes it.

Behaviour of the code worth knowing:

- The `.then` callback applies every arriving response (src/NasaApod.tsx:44-47).
  It has no date or token check, so in any order of events the last response
  to arrive wins (`LastArrivalWins`). A response for an old date would
  overwrite the record (`StaleResponseOverwrites`).
- Under the component's own schedule no old response can arrive. The spinner
  hides every button while a request is out (src/NasaApod.tsx:80-82), the
  effect runs only on a date change, and each date change is evaluated before
  the next click (`SecondClickWaitsForEffect`). So at most one request is in
  flight, and it is for `currentDate` (`ResponsesAreForCurrentDate`). This
  rests on the schedule's assumptions. Without the effect flush, two quick
  clicks would give two evaluations and two requests, and the older answer
  arriving last would overwrite the record while the newer date is selected.
  A click on a button still on screen after the effect has set `isLoading`
  but before React has re-rendered the spinner would do the same. So would an
  effect run with no date change.
- "No data available" (src/NasaApod.tsx:99-101) shows no buttons. If the
  first request fails, the user is left with no navigation control
  (`FirstFailureLeavesNoControls`).
- A failure only clears `isLoading`. The error itself is only logged.
- The Next button's `disabled={isFutureDate}` only exists in the record
  view. `isFutureDate` is false there, so Next is never shown disabled
  (`SelectView`, `NextOfferedExactlyWithRecord`).

## Model

| member | source | states |
|---|---|---|
| ApodMachine.Initial | src/NasaApod.tsx:22-25 | mounting gives no record, loading set, not future, date = mount time, effect due, no request yet; the two flags are consistent |
| ApodMachine.FetchApodForDate | src/NasaApod.tsx:31-43 | `isFutureDate` holds iff the date is strictly after now, and `isLoading` iff it is not. A future date issues no request. Any other date issues exactly one request, for that date. The record and the date are unchanged and the result is consistent |
| ApodMachine.ResolveSuccess | src/NasaApod.tsx:44-47 | the payload replaces the record wholesale and loading is cleared, whatever date the request was for. `isFutureDate` and `currentDate` are kept, and exactly the answered request leaves `inFlight` |
| ApodMachine.ResolveFailure | src/NasaApod.tsx:48-51 | only loading is cleared: record, `isFutureDate` and date are kept, and the failed request leaves `inFlight` |
| ApodMachine.HandlePrevDate | src/NasaApod.tsx:54-58 | the date moves back one day and the effect is due. Nothing else changes, so consistency is kept |
| ApodMachine.HandleNextDate | src/NasaApod.tsx:60-64 | the date moves forward one day and the effect is due. Nothing else changes, so consistency is kept |
| ApodMachine.HandleRandomDate | src/NasaApod.tsx:66-74 | if now − 1 day is after 1995-06-16, the date lands in [1995-06-16, now − 1 day). Otherwise it lies between now − 1 day and 1995-06-16. Once now is past 1995-06-16 the date is never after now. The effect is due and nothing else changes |
| ApodMachine.HandleCurrentDate | src/NasaApod.tsx:76-78 | the date becomes now and the effect is due. Nothing else changes |
| ApodMachine.SelectView | src/NasaApod.tsx:80-101 | the view priority as four if-and-only-ifs: spinner iff loading; otherwise the message iff future; otherwise "No data" iff no record; otherwise the record view, which shows the held record with Next not disabled |
| ApodMachine.Controls | src/NasaApod.tsx:84-141 | the spinner and "No data available" offer no button. The future-date message offers only "Go to Current Date". The record view offers Previous and Random, and offers Next iff it is not disabled |
| ApodMachine.NextOfferedExactlyWithRecord | src/NasaApod.tsx:84-141 | Next is offered exactly in the record view, so never while loading or while the date is blocked. "Go to Current Date" is offered exactly in the future-date message |
| ApodMachine.Enabled | src/NasaApod.tsx:40-78 | in any order of events, a response needs a request in flight, and a random offset lies in [0, span) when the span is positive |
| ApodMachine.ComponentAllows | src/NasaApod.tsx:27-141 | the component's own schedule. Previous, Random and Next are clicked only on the record view, and "Go to Current Date" only on the future-date message, so never while loading, and any click only after the previous date change has been evaluated. The effect runs only after `currentDate` was reassigned. A response belongs to a request in flight |
| ApodMachine.Step | src/NasaApod.tsx:27-78 | any event keeps consistency. The record changes only when a successful response arrives, and then becomes its payload |
| ApodMachine.ConsistentAlongTrace | src/NasaApod.tsx:22-51 | after any sequence of events from a consistent state, `isLoading` and `isFutureDate` are never both true |
| ApodMachine.ConsistentFromMount | src/NasaApod.tsx:22-51 | the same, from the mounted state, for every sequence of events |
| ApodMachine.LastArrivalWins | src/NasaApod.tsx:44-47 | after any sequence of events, the record is the payload of the last successful response to arrive (or the earlier record if there was none), whatever dates were requested |
| ApodMachine.InFlightWereIssued | src/NasaApod.tsx:40-51 | along any sequence of events, the in-flight requests stay a sub-multiset of the issued ones |
| ApodMachine.RandomDateIsFetched | src/NasaApod.tsx:31-74 | a random date evaluated no earlier than the click never takes the future branch, and it issues one request for the drawn date |
| ApodMachine.CurrentDateIsFetched | src/NasaApod.tsx:31-78 | going to the current date and evaluating no earlier than the click never takes the future branch. It issues one request for that date and shows the spinner |
| ApodMachine.FailureKeepsRecordShown | src/NasaApod.tsx:48-51 | a failure while a record is held and the date is not blocked shows that record again, with Previous, Random and Next |
| ApodMachine.StaleResponseOverwrites | src/NasaApod.tsx:44-47 | a successful response for a date other than `currentDate` still replaces the record. Unless the date is blocked, the record view shows it |
| ApodMachine.FirstFailureLeavesNoControls | src/NasaApod.tsx:48-101 | if the first request after mounting fails, "No data available" is shown with no control and no request in flight. The component allows no further event at all |
| ApodMachine.ComponentStepKeepsOneRequest | src/NasaApod.tsx:27-141 | every event the component allows keeps this invariant: one request, for `currentDate`, is out exactly while the spinner waits for an answer, and none is out otherwise |
| ApodMachine.OneRequestAlongComponentTrace | src/NasaApod.tsx:27-141 | the same invariant holds along every sequence of events the component allows, and such a sequence is one the machine can run |
| ApodMachine.ResponsesAreForCurrentDate | src/NasaApod.tsx:22-141 | from mount, on every sequence of events the component allows, at most one request is in flight, and it is for the date currently selected |
| ApodMachine.PrevThenNextRestoresDate | src/NasaApod.tsx:27-64 | from a shown record with no evaluation due: Previous, its evaluation, the answer (success or failure), Next, its evaluation. The component allows this sequence. It restores the date, issues two fresh requests (the day before, then the date again) with no caching, and ends with the spinner. The record is the answer's payload, or the earlier record after a failure |
| ApodMachine.NextThenPrevRestoresDate | src/NasaApod.tsx:27-64 | from a shown record with no evaluation due, whose next day is not in the future: Next, its evaluation, the answer, Previous, its evaluation. The component allows this sequence. It restores the date with two fresh requests, and the record is as the answer left it |
| ApodMachine.NextIntoFutureThenBack | src/NasaApod.tsx:60-97 | from a shown record with no evaluation due, whose next day is in the future, Next and its evaluation block the date with no request. The message offers only "Go to Current Date", so Previous and Next cannot be clicked. That button and its evaluation issue one request for now and show the spinner |
| ApodMachine.SecondClickWaitsForEffect | src/NasaApod.tsx:27-78 | after a click, the component's schedule allows no second click until the effect of that date change has run: the next event is the effect or a response |
| NasaApodComponent.NasaApod.constructor | src/NasaApod.tsx:22-25 | the fields take the mounted state of `Initial` |
| NasaApodComponent.NasaApod.FetchApodForDate | src/NasaApod.tsx:31-52 | the fields move exactly as `ApodMachine.FetchApodForDate`. The flags follow the guard, the record and date are kept, and a request is logged iff the date is not in the future |
| NasaApodComponent.NasaApod.ResolveSuccess | src/NasaApod.tsx:44-47 | the fields move as `ApodMachine.ResolveSuccess`: the record is the payload and loading is cleared |
| NasaApodComponent.NasaApod.ResolveFailure | src/NasaApod.tsx:48-51 | the fields move as `ApodMachine.ResolveFailure`: the record is kept and loading is cleared |
| NasaApodComponent.NasaApod.HandlePrevDate | src/NasaApod.tsx:54-58 | the fields move as `ApodMachine.HandlePrevDate`: the date is one day earlier |
| NasaApodComponent.NasaApod.HandleNextDate | src/NasaApod.tsx:60-64 | the fields move as `ApodMachine.HandleNextDate`: the date is one day later |
| NasaApodComponent.NasaApod.HandleRandomDate | src/NasaApod.tsx:66-74 | the fields move as `ApodMachine.HandleRandomDate`: the date is in [1995-06-16, now − 1 day) when that range is non-empty |
| NasaApodComponent.NasaApod.HandleCurrentDate | src/NasaApod.tsx:76-78 | the fields move as `ApodMachine.HandleCurrentDate`: the date is now |
| NasaApodComponent.NasaApod.Render | src/NasaApod.tsx:80-101 | the object's view is `SelectView` of its state. The spinner is shown iff loading, and then never with `isFutureDate` set (this relies on the object invariant). The record view shows the held record with Next not disabled |
| NasaApodComponent.MountAndLoad | src/NasaApod.tsx:22-141 | mounting, evaluating at a time no earlier than mount, and a successful response show the payload with Previous, Random and Next enabled |

## Left out

- JSX and MUI layout, the CSS module and button styling (src/NasaApod.tsx:1-12, 81-144). They are presentation only. The model keeps the view selected and the buttons it offers.
- The axios transport, the URL and query string, the API key and the `YYYY-MM-DD` formatting (src/NasaApod.tsx:33, 40-43). These are foreign I/O. The model records only that a request for date D was issued.
- The `console.error` logging (src/NasaApod.tsx:49). It is a side effect only.
- The contents of `response.data` are assumed to be an `Apod` record. A server answer of another shape is not modelled.
- JavaScript `Date` internals. `setDate` works in local time, so across a daylight-saving change "one day" is 23 or 25 hours and not the fixed 86400000 ms modelled. Timezones and the 8.64e15 ms range of `Date` are not modelled either.
- HandleRandomDate: for a clock before 1970-01-02 the sum `start + r * span` is not positive, and the `Date` constructor's truncation toward zero is not the floor modelled; that case is not modelled.
- HandleRandomDate: the floating-point product `Math.random() * span` is replaced by an integer draw in the truncated range. Floating-point rounding at the edges of the range is not modelled.
- React scheduling and promise interleaving are explicit discrete events, not concurrency. The model assumes a click acts on the view of the current state. A click on a button still on screen after the effect has set `isLoading`, but before the spinner has rendered, is not modelled. `ComponentAllows` assumes that the effect of a date change runs before the next click, as React 18 with `createRoot` does for discrete events. Which React version and root mode the application uses is not part of this model. Without that flush, each click's render runs its own effect, so two quick clicks issue two requests, and a stale answer can overwrite the record. `ResponsesAreForCurrentDate` does not cover that schedule; `StaleResponseOverwrites` and `LastArrivalWins` describe what then happens. StrictMode's double invocation of the state updater is not modelled. This matters because `handlePrevDate`/`handleNextDate` mutate the previous `Date` in place.
- The clock is a parameter of each event, so nothing makes it non-decreasing. The "never takes the future branch" lemmas assume evaluation happens no earlier than the click.
