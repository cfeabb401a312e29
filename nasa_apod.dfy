/** The NasaApod component as an object: its state cells are fields, and its
    event handlers, effect and response callbacks are methods that assign
    them. Each method is proved to move the object exactly as the matching
    transition of ApodMachine moves its value. */
module NasaApodComponent {
  import opened ApodMachine

  class NasaApod {
    var apod: Option<Apod>
    var isLoading: bool
    var currentDate: int
    var isFutureDate: bool
    // React's effect queue and the pending promises, which the component
    // does not hold itself:
    /** `currentDate` was (re)assigned since the effect keyed on it last ran. */
    ghost var effectPending: bool
    /** Dates of the requests issued whose response has not arrived. */
    ghost var inFlight: seq<int>
    /** Every request issued, oldest first. */
    ghost var issued: seq<int>

    /** The object's state as a value. */
    ghost function Snapshot(): State
      reads this
    {
      State(apod, isLoading, currentDate, isFutureDate, effectPending, inFlight, issued)
    }

    ghost predicate Valid()
      reads this
    {
      Consistent(Snapshot())
    }

    /** Mounting: the state cells take their initial values, the date being
        the mount time; the effect is scheduled. */
    constructor (mountTime: int)
      ensures Valid()
      ensures Snapshot() == Initial(mountTime)
    {
      apod := None;
      isLoading := true;
      currentDate := mountTime;
      isFutureDate := false;
      effectPending := true;
      inFlight := [];
      issued := [];
    }

    /** The effect: `fetchApodForDate(currentDate)` with the clock at `now`. */
    method FetchApodForDate(now: int)
      modifies this
      ensures Valid()
      ensures Snapshot() == ApodMachine.FetchApodForDate(old(Snapshot()), now)
      ensures isFutureDate == (currentDate > now) && isLoading == (currentDate <= now)
      ensures apod == old(apod) && currentDate == old(currentDate) && !effectPending
      ensures issued == old(issued) + (if currentDate > now then [] else [currentDate])
    {
      effectPending := false;
      isFutureDate := false;
      if currentDate > now {
        isFutureDate := true;
        isLoading := false;
        return;
      }
      isLoading := true;
      inFlight := inFlight + [currentDate];
      issued := issued + [currentDate];
    }

    /** The `.then` callback of in-flight request `i`. */
    method ResolveSuccess(i: nat, payload: Apod)
      requires i < |inFlight|
      modifies this
      ensures Valid()
      ensures Snapshot() == ApodMachine.ResolveSuccess(old(Snapshot()), i, payload)
      ensures apod == Some(payload) && !isLoading && isFutureDate == old(isFutureDate)
    {
      apod := Some(payload);
      isLoading := false;
      inFlight := RemoveAt(inFlight, i);
    }

    /** The `.catch` callback of in-flight request `i`. */
    method ResolveFailure(i: nat)
      requires i < |inFlight|
      modifies this
      ensures Valid()
      ensures Snapshot() == ApodMachine.ResolveFailure(old(Snapshot()), i)
      ensures apod == old(apod) && !isLoading && isFutureDate == old(isFutureDate)
    {
      isLoading := false;
      inFlight := RemoveAt(inFlight, i);
    }

    method HandlePrevDate()
      modifies this
      ensures Valid() == old(Valid())
      ensures Snapshot() == ApodMachine.HandlePrevDate(old(Snapshot()))
      ensures currentDate == old(currentDate) - DayMs && effectPending
    {
      currentDate := currentDate - DayMs;
      effectPending := true;
    }

    method HandleNextDate()
      modifies this
      ensures Valid() == old(Valid())
      ensures Snapshot() == ApodMachine.HandleNextDate(old(Snapshot()))
      ensures currentDate == old(currentDate) + DayMs && effectPending
    {
      currentDate := currentDate + DayMs;
      effectPending := true;
    }

    /** The Random button with the clock at `now` and the offset drawn. */
    method HandleRandomDate(now: int, draw: int)
      requires DrawInRange(draw, RandomSpan(now))
      modifies this
      ensures Valid() == old(Valid())
      ensures Snapshot() == ApodMachine.HandleRandomDate(old(Snapshot()), now, draw)
      ensures RandomSpan(now) > 0 ==> FirstApodMs <= currentDate < now - DayMs
      ensures effectPending
    {
      currentDate := FirstApodMs + draw;
      effectPending := true;
    }

    method HandleCurrentDate(now: int)
      modifies this
      ensures Valid() == old(Valid())
      ensures Snapshot() == ApodMachine.HandleCurrentDate(old(Snapshot()), now)
      ensures currentDate == now && effectPending
    {
      currentDate := now;
      effectPending := true;
    }

    /** What the component renders now, from the four state cells. */
    function Render(): (v: View)
      reads this
      requires Valid()
      ensures v == SelectView(Snapshot())
      ensures v == Spinner <==> isLoading
      ensures v == Spinner ==> !isFutureDate
      ensures v.Record? ==> apod == Some(v.shown) && !v.nextDisabled
    {
      // SelectView reads only the four real cells; the last three are placeholders.
      SelectView(State(apod, isLoading, currentDate, isFutureDate, false, [], []))
    }
  }

  /** Mounting, the first evaluation, and a successful answer show the
      record with Previous, Random and Next. */
  method MountAndLoad(mountTime: int, now: int, payload: Apod) returns (v: View)
    requires mountTime <= now
    ensures v == Record(payload, false)
    ensures Controls(v) == {Previous, Random, Next}
  {
    var c := new NasaApod(mountTime);
    c.FetchApodForDate(now);
    assert c.inFlight == [mountTime];
    c.ResolveSuccess(0, payload);
    v := c.Render();
  }
}
