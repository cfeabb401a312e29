/** The date-navigation state machine of the NasaApod component, as values.

    Time is an integer number of milliseconds since 1970-01-01T00:00:00Z, the
    value a JavaScript Date compares by. The clock is never read: every event
    that reads "now" in the component receives it as a parameter.

    The component's asynchronous request is split into two events: evaluating
    the current date issues a request tagged with that date (it is appended
    to `inFlight` and logged in `issued`), and a later, separate event
    delivers the outcome of one in-flight request, in whatever order the
    responses happen to arrive. */
module ApodMachine {

  /** One day, as `Date.prototype.setDate(getDate() +/- 1)` moves a date
      (daylight-saving transitions are not modelled). */
  const DayMs: int := 86_400_000

  /** `new Date("1995-06-16")`: midnight UTC of the first picture's date. */
  const FirstApodMs: int := 803_260_800_000

  datatype Option<T> = None | Some(value: T)

  /** The record the remote service returns for a date. */
  datatype Apod = Apod(date: string, explanation: string, title: string, url: string)

  /** The component's state: the four React state cells, whether the effect
      keyed on `currentDate` still has to run, and the requests.
      - `effectPending`: `currentDate` was (re)assigned since the effect last ran.
      - `inFlight`: dates of the requests issued whose response has not arrived.
      - `issued`: every request ever issued, oldest first. */
  datatype State = State(
    apod: Option<Apod>,
    isLoading: bool,
    currentDate: int,
    isFutureDate: bool,
    effectPending: bool,
    inFlight: seq<int>,
    issued: seq<int>)

  /** The component never shows the spinner and the "most current date"
      message at once: the two flags are never both set. */
  predicate Consistent(s: State) {
    !(s.isLoading && s.isFutureDate)
  }

  /** The state of a freshly mounted component: no record, loading, the date
      is the mount time, and the effect is about to run for it. */
  function Initial(mountTime: int): (s: State)
    ensures Consistent(s)
    ensures s.isLoading && !s.isFutureDate && s.apod == None
    ensures s.currentDate == mountTime && s.effectPending
    ensures s.inFlight == [] && s.issued == []
  {
    State(None, true, mountTime, false, true, [], [])
  }

  /** The effect body `fetchApodForDate(currentDate)`, evaluated at clock
      value `now`. A date strictly later than now is blocked without a
      request; any other date sets the loading flag and issues exactly one
      request for that date. The record is left as it is in both branches. */
  function FetchApodForDate(s: State, now: int): (t: State)
    ensures Consistent(t)
    ensures t.isFutureDate <==> s.currentDate > now
    ensures t.isLoading <==> s.currentDate <= now
    ensures s.currentDate > now ==> t.inFlight == s.inFlight && t.issued == s.issued
    ensures s.currentDate <= now ==>
      t.inFlight == s.inFlight + [s.currentDate] && t.issued == s.issued + [s.currentDate]
    ensures t.apod == s.apod && t.currentDate == s.currentDate && !t.effectPending
  {
    if s.currentDate > now then
      s.(isFutureDate := true, isLoading := false, effectPending := false)
    else
      s.(isFutureDate := false, isLoading := true, effectPending := false,
         inFlight := s.inFlight + [s.currentDate], issued := s.issued + [s.currentDate])
  }

  /** `q` without its element at index `i`: the request whose response arrived. */
  function RemoveAt(q: seq<int>, i: nat): (r: seq<int>)
    requires i < |q|
    ensures |r| == |q| - 1
    ensures multiset(r) == multiset(q) - multiset{q[i]}
    ensures forall k :: 0 <= k < i ==> r[k] == q[k]
    ensures forall k :: i <= k < |r| ==> r[k] == q[k + 1]
  {
    assert q == q[..i] + [q[i]] + q[i + 1..];
    q[..i] + q[i + 1..]
  }

  /** The `.then` callback: the payload of in-flight request `i` replaces the
      record wholesale and clears the loading flag, whatever date the request
      was for and whatever `currentDate` is by now. */
  function ResolveSuccess(s: State, i: nat, payload: Apod): (t: State)
    requires i < |s.inFlight|
    ensures Consistent(t) && !t.isLoading
    ensures t.apod == Some(payload)
    ensures t.isFutureDate == s.isFutureDate && t.currentDate == s.currentDate
    ensures t.effectPending == s.effectPending && t.issued == s.issued
    ensures multiset(t.inFlight) == multiset(s.inFlight) - multiset{s.inFlight[i]}
  {
    s.(apod := Some(payload), isLoading := false, inFlight := RemoveAt(s.inFlight, i))
  }

  /** The `.catch` callback: request `i` failed. Only the loading flag is
      cleared, so a record shown before stays. */
  function ResolveFailure(s: State, i: nat): (t: State)
    requires i < |s.inFlight|
    ensures Consistent(t) && !t.isLoading
    ensures t.apod == s.apod
    ensures t.isFutureDate == s.isFutureDate && t.currentDate == s.currentDate
    ensures t.effectPending == s.effectPending && t.issued == s.issued
    ensures multiset(t.inFlight) == multiset(s.inFlight) - multiset{s.inFlight[i]}
  {
    s.(isLoading := false, inFlight := RemoveAt(s.inFlight, i))
  }

  /** The Previous button: one day back. */
  function HandlePrevDate(s: State): (t: State)
    ensures t.currentDate == s.currentDate - DayMs && t.effectPending
    ensures Consistent(t) == Consistent(s)
    ensures t.apod == s.apod && t.isLoading == s.isLoading && t.isFutureDate == s.isFutureDate
    ensures t.inFlight == s.inFlight && t.issued == s.issued
  {
    s.(currentDate := s.currentDate - DayMs, effectPending := true)
  }

  /** The Next button: one day forward. */
  function HandleNextDate(s: State): (t: State)
    ensures t.currentDate == s.currentDate + DayMs && t.effectPending
    ensures Consistent(t) == Consistent(s)
    ensures t.apod == s.apod && t.isLoading == s.isLoading && t.isFutureDate == s.isFutureDate
    ensures t.inFlight == s.inFlight && t.issued == s.issued
  {
    s.(currentDate := s.currentDate + DayMs, effectPending := true)
  }

  /** The span `end - start` of the Random button: from the first picture to
      one day before now. */
  function RandomSpan(now: int): int {
    (now - DayMs) - FirstApodMs
  }

  /** The offsets the Random button can produce. The Date constructor
      truncates the positive sum `start + Math.random() * span`, with a draw
      in [0, 1), so the offset is the floor of `Math.random() * span`. */
  predicate DrawInRange(draw: int, span: int) {
    if span > 0 then 0 <= draw < span
    else span <= draw <= 0
  }

  /** The Random button, with the offset it drew as a parameter. The date
      lands in [1995-06-16, now - 1 day) as long as now is more than a day
      after 1995-06-16, and never after now once now is past that date. */
  function HandleRandomDate(s: State, now: int, draw: int): (t: State)
    requires DrawInRange(draw, RandomSpan(now))
    ensures RandomSpan(now) > 0 ==> FirstApodMs <= t.currentDate < now - DayMs
    ensures RandomSpan(now) <= 0 ==> now - DayMs <= t.currentDate <= FirstApodMs
    ensures FirstApodMs <= now ==> t.currentDate <= now
    ensures t.effectPending && Consistent(t) == Consistent(s)
    ensures t.apod == s.apod && t.isLoading == s.isLoading && t.isFutureDate == s.isFutureDate
    ensures t.inFlight == s.inFlight && t.issued == s.issued
  {
    s.(currentDate := FirstApodMs + draw, effectPending := true)
  }

  /** The "Go to Current Date" button: the date becomes now. */
  function HandleCurrentDate(s: State, now: int): (t: State)
    ensures t.currentDate == now && t.effectPending
    ensures Consistent(t) == Consistent(s)
    ensures t.apod == s.apod && t.isLoading == s.isLoading && t.isFutureDate == s.isFutureDate
    ensures t.inFlight == s.inFlight && t.issued == s.issued
  {
    s.(currentDate := now, effectPending := true)
  }

  /** What the component renders. `Record` carries the value of the Next
      button's `disabled` property. */
  datatype View =
    | Spinner
    | CurrentDateReached
    | NoData
    | Record(shown: Apod, nextDisabled: bool)

  /** The buttons the user can press. */
  datatype Control = Previous | Random | Next | GoToCurrent

  /** The render branches, in the order the component tests them. */
  function SelectView(s: State): (v: View)
    ensures v == Spinner <==> s.isLoading
    ensures v == CurrentDateReached <==> !s.isLoading && s.isFutureDate
    ensures v == NoData <==> !s.isLoading && !s.isFutureDate && s.apod == None
    ensures v.Record? <==> !s.isLoading && !s.isFutureDate && s.apod.Some?
    ensures v.Record? ==> v.shown == s.apod.value && !v.nextDisabled
  {
    if s.isLoading then Spinner
    else if s.isFutureDate then CurrentDateReached
    else if s.apod.None? then NoData
    else Record(s.apod.value, s.isFutureDate)
  }

  /** The enabled buttons of each view: the message view has only "Go to
      Current Date"; the record view has Previous and Random, and Next unless
      it is disabled; the spinner and "No data available" have none. */
  function Controls(v: View): (c: set<Control>)
    ensures v == Spinner || v == NoData ==> c == {}
    ensures v == CurrentDateReached ==> c == {GoToCurrent}
    ensures v.Record? ==> Previous in c && Random in c && GoToCurrent !in c
    ensures v.Record? ==> (Next in c <==> !v.nextDisabled)
  {
    match v
    case Spinner => {}
    case CurrentDateReached => {GoToCurrent}
    case NoData => {}
    case Record(_, nextDisabled) =>
      if nextDisabled then {Previous, Random} else {Previous, Random, Next}
  }

  /** Whatever the state, Next is offered exactly when a record is shown,
      so it is never offered disabled and never offered while the date is
      blocked as a future date. */
  lemma NextOfferedExactlyWithRecord(s: State)
    ensures Next in Controls(SelectView(s)) <==> SelectView(s).Record?
    ensures Next in Controls(SelectView(s)) ==> !s.isFutureDate && !s.isLoading
    ensures GoToCurrent in Controls(SelectView(s)) <==> !s.isLoading && s.isFutureDate
  {
  }

  /** The events of the machine. `draw` is the Random button's offset. */
  datatype Event =
    | EffectRuns(now: int)
    | ResponseOk(index: nat, payload: Apod)
    | ResponseError(index: nat)
    | PrevClicked
    | NextClicked
    | RandomClicked(clock: int, draw: int)
    | CurrentClicked(clock: int)

  /** An event can happen in some order of the machine's events: a response
      belongs to an in-flight request, and a random offset is one the draw
      can produce. Clicks and effect runs are not restricted here; the
      component's own schedule is `ComponentAllows`. */
  predicate Enabled(s: State, e: Event)
    ensures Enabled(s, e) && (e.ResponseOk? || e.ResponseError?) ==> s.inFlight != []
    ensures Enabled(s, e) && e.RandomClicked? && RandomSpan(e.clock) > 0 ==>
      0 <= e.draw < RandomSpan(e.clock)
  {
    match e
    case ResponseOk(i, _) => i < |s.inFlight|
    case ResponseError(i) => i < |s.inFlight|
    case RandomClicked(now, draw) => DrawInRange(draw, RandomSpan(now))
    case _ => true
  }

  function Step(s: State, e: Event): (t: State)
    requires Enabled(s, e)
    ensures Consistent(s) ==> Consistent(t)
    ensures t.apod == if e.ResponseOk? then Some(e.payload) else s.apod
  {
    match e
    case EffectRuns(now) => FetchApodForDate(s, now)
    case ResponseOk(i, payload) => ResolveSuccess(s, i, payload)
    case ResponseError(i) => ResolveFailure(s, i)
    case PrevClicked => HandlePrevDate(s)
    case NextClicked => HandleNextDate(s)
    case RandomClicked(now, draw) => HandleRandomDate(s, now, draw)
    case CurrentClicked(now) => HandleCurrentDate(s, now)
  }

  /** Every event of `es`, in order, can happen from `s`. */
  predicate TraceEnabled(s: State, es: seq<Event>)
    decreases |es|
  {
    es == [] || (Enabled(s, es[0]) && TraceEnabled(Step(s, es[0]), es[1..]))
  }

  /** The state after the events `es`. */
  function Run(s: State, es: seq<Event>): State
    requires TraceEnabled(s, es)
    decreases |es|
  {
    if es == [] then s else Run(Step(s, es[0]), es[1..])
  }

  /** The two flags are never both set after any sequence of events. */
  lemma {:induction false} ConsistentAlongTrace(s: State, es: seq<Event>)
    requires Consistent(s) && TraceEnabled(s, es)
    ensures Consistent(Run(s, es))
    decreases |es|
  {
    if es != [] {
      ConsistentAlongTrace(Step(s, es[0]), es[1..]);
    }
  }

  /** In particular, from the moment the component is mounted. */
  lemma ConsistentFromMount(mountTime: int, es: seq<Event>)
    requires TraceEnabled(Initial(mountTime), es)
    ensures Consistent(Run(Initial(mountTime), es))
  {
    ConsistentAlongTrace(Initial(mountTime), es);
  }

  /** The payload of the last successful response among `es`, if any. */
  function LastPayload(es: seq<Event>): Option<Apod>
    decreases |es|
  {
    if es == [] then None
    else
      var later := LastPayload(es[1..]);
      if later.Some? then later
      else if es[0].ResponseOk? then Some(es[0].payload)
      else None
  }

  /** The record shown after a sequence of events is the payload of the last
      response to arrive successfully, regardless of the dates requested and
      of the order the requests were issued in; with no successful response
      the record is the one before. */
  lemma {:induction false} LastArrivalWins(s: State, es: seq<Event>)
    requires TraceEnabled(s, es)
    ensures Run(s, es).apod == if LastPayload(es).Some? then LastPayload(es) else s.apod
    decreases |es|
  {
    if es != [] {
      LastArrivalWins(Step(s, es[0]), es[1..]);
    }
  }

  /** Every request still in flight was issued, and every response removes
      one: `inFlight` is always a sub-multiset of `issued`. */
  lemma {:induction false} InFlightWereIssued(s: State, es: seq<Event>)
    requires multiset(s.inFlight) <= multiset(s.issued) && TraceEnabled(s, es)
    ensures multiset(Run(s, es).inFlight) <= multiset(Run(s, es).issued)
    decreases |es|
  {
    if es != [] {
      var t := Step(s, es[0]);
      assert multiset(t.inFlight) <= multiset(t.issued);
      InFlightWereIssued(t, es[1..]);
    }
  }

  /** A random date, evaluated no earlier than the click (now being past
      1995-06-16), never takes the future branch: it issues a request for
      the drawn date. */
  lemma RandomDateIsFetched(s: State, now: int, draw: int, later: int)
    requires DrawInRange(draw, RandomSpan(now))
    requires FirstApodMs <= now <= later
    ensures var r := HandleRandomDate(s, now, draw);
      var t := FetchApodForDate(r, later);
      t.isLoading && !t.isFutureDate && t.issued == s.issued + [r.currentDate]
  {
  }

  /** Going to the current date and evaluating it no earlier than the click
      never takes the future branch: it issues a request for that date. */
  lemma CurrentDateIsFetched(s: State, now: int, later: int)
    requires now <= later
    ensures var t := FetchApodForDate(HandleCurrentDate(s, now), later);
      t.isLoading && !t.isFutureDate && t.issued == s.issued + [now]
      && SelectView(t) == Spinner
  {
  }

  /** A failed response while a record is held (and the date is not blocked)
      shows that record again, with all three navigation buttons. */
  lemma FailureKeepsRecordShown(s: State, i: nat)
    requires i < |s.inFlight| && s.apod.Some? && !s.isFutureDate
    ensures SelectView(ResolveFailure(s, i)) == Record(s.apod.value, false)
    ensures Controls(SelectView(ResolveFailure(s, i))) == {Previous, Random, Next}
  {
  }

  /** The `.then` callback has no date check: a response to a request for
      another date than `currentDate` still replaces the record and, unless
      the date is blocked, is what the record view shows. Under the
      component's own schedule, which evaluates each date change before the
      next click, no such response can arrive (`ResponsesAreForCurrentDate`). */
  lemma StaleResponseOverwrites(s: State, i: nat, payload: Apod)
    requires i < |s.inFlight| && s.inFlight[i] != s.currentDate
    ensures var t := ResolveSuccess(s, i, payload);
      t.apod == Some(payload) && t.currentDate == s.currentDate
      && (!s.isFutureDate ==> SelectView(t) == Record(payload, false))
  {
  }

  /** If the first request after mounting fails, "No data available" is shown
      with no button, and no request is left whose response could change it. */
  lemma FirstFailureLeavesNoControls(mountTime: int, now: int)
    requires mountTime <= now
    ensures var t := ResolveFailure(FetchApodForDate(Initial(mountTime), now), 0);
      SelectView(t) == NoData && Controls(SelectView(t)) == {} && t.inFlight == []
      && forall e :: !ComponentAllows(t, e)
  {
  }

  /** The events the component itself lets happen: a click only on a button
      the rendered view shows, and only once the effect of the previous date
      change has run (React 18 flushes a discrete event's effects before the
      next one); the effect only when `currentDate` has been reassigned since
      it last ran. */
  predicate ComponentAllows(s: State, e: Event)
    ensures ComponentAllows(s, e) && e.EffectRuns? ==> s.effectPending
    ensures ComponentAllows(s, e) && (e.PrevClicked? || e.NextClicked? || e.RandomClicked?) ==>
      SelectView(s).Record? && !s.isLoading && !s.isFutureDate && !s.effectPending
    ensures ComponentAllows(s, e) && e.CurrentClicked? ==>
      !s.isLoading && s.isFutureDate && !s.effectPending
    ensures ComponentAllows(s, e) && (e.ResponseOk? || e.ResponseError?) ==> e.index < |s.inFlight|
  {
    Enabled(s, e) &&
    match e
    case EffectRuns(_) => s.effectPending
    case PrevClicked => !s.effectPending && Previous in Controls(SelectView(s))
    case NextClicked => !s.effectPending && Next in Controls(SelectView(s))
    case RandomClicked(_, _) => !s.effectPending && Random in Controls(SelectView(s))
    case CurrentClicked(_) => !s.effectPending && GoToCurrent in Controls(SelectView(s))
    case _ => true
  }

  /** Every event of `es`, in order, is allowed by the component from `s`. */
  predicate ComponentTrace(s: State, es: seq<Event>)
    decreases |es|
  {
    es == [] || (ComponentAllows(s, es[0]) && ComponentTrace(Step(s, es[0]), es[1..]))
  }

  /** Under the component's schedule at most one request is out, and it is
      for the current date: exactly one while the spinner waits for an
      answer, none otherwise. */
  predicate OneRequestForCurrentDate(s: State) {
    Consistent(s) &&
    s.inFlight == if s.isLoading && !s.effectPending then [s.currentDate] else []
  }

  lemma ComponentStepKeepsOneRequest(s: State, e: Event)
    requires OneRequestForCurrentDate(s) && ComponentAllows(s, e)
    ensures OneRequestForCurrentDate(Step(s, e))
  {
  }

  /** Along every sequence of events the component allows, the invariant is
      kept (and the sequence is one the machine can run). */
  lemma {:induction false} OneRequestAlongComponentTrace(s: State, es: seq<Event>)
    requires OneRequestForCurrentDate(s) && ComponentTrace(s, es)
    ensures TraceEnabled(s, es) && OneRequestForCurrentDate(Run(s, es))
    decreases |es|
  {
    if es != [] {
      ComponentStepKeepsOneRequest(s, es[0]);
      OneRequestAlongComponentTrace(Step(s, es[0]), es[1..]);
    }
  }

  /** From mount, on every sequence of events the component allows, any
      response that can arrive is for the date currently selected. */
  lemma ResponsesAreForCurrentDate(mountTime: int, es: seq<Event>)
    requires ComponentTrace(Initial(mountTime), es)
    ensures TraceEnabled(Initial(mountTime), es)
    ensures var s := Run(Initial(mountTime), es);
      |s.inFlight| <= 1 && forall k :: 0 <= k < |s.inFlight| ==> s.inFlight[k] == s.currentDate
  {
    OneRequestAlongComponentTrace(Initial(mountTime), es);
  }

  /** A trace with one more event in front: allowed, runnable and run
      exactly when its tail is, from the state after that event. */
  lemma ComponentTraceCons(s: State, e: Event, es: seq<Event>)
    requires ComponentAllows(s, e) && ComponentTrace(Step(s, e), es) && TraceEnabled(Step(s, e), es)
    ensures ComponentTrace(s, [e] + es) && TraceEnabled(s, [e] + es)
    ensures Run(s, [e] + es) == Run(Step(s, e), es)
  {
    assert ([e] + es)[1..] == es;
  }

  /** The answer to the single in-flight request: its payload, or a failure. */
  function Reply(response: Option<Apod>): Event {
    if response.Some? then ResponseOk(0, response.value) else ResponseError(0)
  }

  /** From a shown record: Previous, its evaluation, the answer (either way),
      Next, its evaluation. The component allows this sequence; it restores
      the date and has issued two fresh requests, the day before and the
      date again, with no caching; the record is the answer's payload if it
      succeeded and the earlier record otherwise. */
  lemma PrevThenNextRestoresDate(s: State, now1: int, response: Option<Apod>, now2: int)
    requires OneRequestForCurrentDate(s) && SelectView(s).Record? && !s.effectPending
    requires s.currentDate - DayMs <= now1 && s.currentDate <= now2
    ensures var es := [PrevClicked, EffectRuns(now1), Reply(response), NextClicked, EffectRuns(now2)];
      ComponentTrace(s, es) && TraceEnabled(s, es)
      && var t := Run(s, es);
      t.currentDate == s.currentDate && SelectView(t) == Spinner
      && t.issued == s.issued + [s.currentDate - DayMs, s.currentDate]
      && t.apod == (if response.Some? then response else s.apod)
  {
    var s1 := HandlePrevDate(s);
    var s2 := FetchApodForDate(s1, now1);
    var s3 := Step(s2, Reply(response));
    var s4 := HandleNextDate(s3);
    var s5 := FetchApodForDate(s4, now2);
    assert Run(s4, [EffectRuns(now2)]) == s5;
    ComponentTraceCons(s3, NextClicked, [EffectRuns(now2)]);
    ComponentTraceCons(s2, Reply(response), [NextClicked, EffectRuns(now2)]);
    ComponentTraceCons(s1, EffectRuns(now1), [Reply(response), NextClicked, EffectRuns(now2)]);
    ComponentTraceCons(s, PrevClicked, [EffectRuns(now1), Reply(response), NextClicked, EffectRuns(now2)]);
  }

  /** From a shown record whose next day is not in the future: Next, its
      evaluation, the answer, Previous, its evaluation. The component allows
      this sequence; it restores the date with two fresh requests. */
  lemma NextThenPrevRestoresDate(s: State, now1: int, response: Option<Apod>, now2: int)
    requires OneRequestForCurrentDate(s) && SelectView(s).Record? && !s.effectPending
    requires s.currentDate + DayMs <= now1 && s.currentDate <= now2
    ensures var es := [NextClicked, EffectRuns(now1), Reply(response), PrevClicked, EffectRuns(now2)];
      ComponentTrace(s, es) && TraceEnabled(s, es)
      && var t := Run(s, es);
      t.currentDate == s.currentDate && SelectView(t) == Spinner
      && t.issued == s.issued + [s.currentDate + DayMs, s.currentDate]
      && t.apod == (if response.Some? then response else s.apod)
  {
    var s1 := HandleNextDate(s);
    var s2 := FetchApodForDate(s1, now1);
    var s3 := Step(s2, Reply(response));
    var s4 := HandlePrevDate(s3);
    var s5 := FetchApodForDate(s4, now2);
    assert Run(s4, [EffectRuns(now2)]) == s5;
    ComponentTraceCons(s3, PrevClicked, [EffectRuns(now2)]);
    ComponentTraceCons(s2, Reply(response), [PrevClicked, EffectRuns(now2)]);
    ComponentTraceCons(s1, EffectRuns(now1), [Reply(response), PrevClicked, EffectRuns(now2)]);
    ComponentTraceCons(s, NextClicked, [EffectRuns(now1), Reply(response), PrevClicked, EffectRuns(now2)]);
  }

  /** From a shown record whose next day is in the future, Next and its
      evaluation block the date with no request. The message then offers
      only "Go to Current Date", so Previous and Next cannot be clicked; that
      button and its evaluation issue one request for now. */
  lemma NextIntoFutureThenBack(s: State, later: int, back: int)
    requires SelectView(s).Record? && !s.effectPending
    requires s.currentDate + DayMs > later && later <= back
    ensures var b := FetchApodForDate(HandleNextDate(s), later);
      ComponentAllows(s, NextClicked) && ComponentAllows(HandleNextDate(s), EffectRuns(later))
      && SelectView(b) == CurrentDateReached && Controls(SelectView(b)) == {GoToCurrent}
      && !ComponentAllows(b, PrevClicked) && !ComponentAllows(b, NextClicked)
      && b.issued == s.issued
    ensures var b := FetchApodForDate(HandleNextDate(s), later);
      var c := FetchApodForDate(HandleCurrentDate(b, back), back);
      ComponentAllows(b, CurrentClicked(back)) && ComponentAllows(HandleCurrentDate(b, back), EffectRuns(back))
      && SelectView(c) == Spinner && c.issued == s.issued + [back] && c.apod == s.apod
  {
  }

  /** After a click the component takes no second click until the effect of
      the first date change has run: each date change is evaluated, and
      issues its own request, before the next one. */
  lemma SecondClickWaitsForEffect(s: State, click: Event, next: Event)
    requires click.PrevClicked? || click.NextClicked? || click.RandomClicked? || click.CurrentClicked?
    requires ComponentAllows(s, click) && ComponentAllows(Step(s, click), next)
    ensures next.EffectRuns? || next.ResponseOk? || next.ResponseError?
  {
  }
}
