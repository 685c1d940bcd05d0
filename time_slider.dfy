// The playback control (frontend/src/components/TimeSlider.jsx): a continuous
// slider over days 1 to 4 that resolves to a whole forecast day, the playback
// tick that advances it, the play/pause button and the progress bar.
module TimeSlider {

  import opened IceGrid

  /** The slider's range (`min="1"`, `max="4"`). */
  const FirstDay: real := 1.0
  const LastDay: real := 4.0

  /** One playback tick advances the slider by 0.05. */
  const TickStep: real := 0.05

  /** `step = Math.floor((sliderValue - 1) * 5)`, `newDay = Math.floor(step / 5) + 1`.
      Flooring twice is flooring once, so the day is the whole part of the
      slider value: 2.2 resolves to 2, 3.99 to 3, 4.0 to 4. */
  function ResolveDay(sliderValue: real): (day: int)
    ensures day == sliderValue.Floor
  {
    var step := ((sliderValue - 1.0) * 5.0).Floor;
    var d := step / 5;
    // 5d <= step <= 5(v - 1) < step + 1 <= 5d + 5
    assert 5 * d <= step < 5 * d + 5;
    assert (5 * d) as real <= (sliderValue - 1.0) * 5.0 < (5 * d + 5) as real;
    assert d as real <= sliderValue - 1.0 < d as real + 1.0;
    d + 1
  }

  /** A slider value in the range resolves to one of the four days. */
  lemma ResolvedDayInRange(sliderValue: real)
    requires FirstDay <= sliderValue <= LastDay
    ensures 1 <= ResolveDay(sliderValue) <= 4
  {
  }

  /** The day-change effect: `onDayChange(newDay)` fires only for a day that
      differs from the current one and lies in [1, 4]. */
  function DayToLoad(sliderValue: real, currentDay: int): (load: Option<int>)
    ensures load.Some? <==> ResolveDay(sliderValue) != currentDay && 1 <= ResolveDay(sliderValue) <= 4
    ensures load.Some? ==> load.value == sliderValue.Floor && load.value != currentDay
  {
    var newDay := ResolveDay(sliderValue);
    if newDay != currentDay && newDay >= 1 && newDay <= 4 then Some(newDay) else None
  }

  /** Moving within one day never reloads it. */
  lemma SameDayNoReload(v1: real, v2: real)
    requires FirstDay <= v1 <= LastDay && v1.Floor == v2.Floor
    ensures DayToLoad(v2, ResolveDay(v1)).None?
  {
  }

  /** `progress = ((sliderValue - 1) / 3) * 100`: 0 at day 1, 100 at day 4. */
  function Progress(sliderValue: real): (percent: real)
    ensures FirstDay <= sliderValue <= LastDay ==> 0.0 <= percent <= 100.0
    ensures sliderValue == FirstDay ==> percent == 0.0
    ensures sliderValue == LastDay ==> percent == 100.0
  {
    ((sliderValue - 1.0) / 3.0) * 100.0
  }

  /** The component's state: `sliderValue` and `isPlaying`. */
  class Slider {
    var sliderValue: real
    var isPlaying: bool

    /** The slider stays within its range. */
    predicate Valid()
      reads this
    {
      FirstDay <= sliderValue <= LastDay
    }

    /** `useState(currentDay)` and `useState(false)`. */
    constructor(currentDay: int)
      requires 1 <= currentDay <= 4
      ensures Valid() && sliderValue == currentDay as real && !isPlaying
    {
      sliderValue := currentDay as real;
      isPlaying := false;
    }

    /** One interval tick while playing: add 0.05; on reaching 4 stop playback
        and pin the value to exactly 4; otherwise report the new value through
        `onDisplayChange`. The value never passes 4, and the reported value is
        always below 4. */
    method Tick() returns (displayed: Option<real>)
      requires Valid()
      modifies this
      ensures Valid()
      ensures old(sliderValue) + TickStep >= LastDay ==> sliderValue == LastDay && !isPlaying && displayed.None?
      ensures old(sliderValue) + TickStep < LastDay ==>
        sliderValue == old(sliderValue) + TickStep && isPlaying == old(isPlaying) && displayed == Some(sliderValue)
      ensures displayed.Some? ==> displayed.value < LastDay
    {
      var next := sliderValue + TickStep;
      if next >= LastDay {
        isPlaying := false;
        sliderValue := LastDay;
        return None;
      }
      sliderValue := next;
      displayed := Some(next);
    }

    /** `handleSliderChange`: the browser keeps the range input within [1, 4]. */
    method SliderChange(value: real) returns (displayed: real)
      requires FirstDay <= value <= LastDay
      modifies this
      ensures Valid() && sliderValue == value && displayed == value && isPlaying == old(isPlaying)
    {
      sliderValue := value;
      displayed := value;
    }

    /** `handlePlayPause`: at the end of the range the slider first returns to
        day 1; then playback toggles. */
    method PlayPause()
      requires Valid()
      modifies this
      ensures Valid()
      ensures sliderValue == if old(sliderValue) >= LastDay then FirstDay else old(sliderValue)
      ensures isPlaying == !old(isPlaying)
    {
      if sliderValue >= LastDay {
        sliderValue := FirstDay;
      }
      isPlaying := !isPlaying;
    }
  }

  /** The number of `Tick` calls that take the slider from `v` to the stop.
      Each tick that does not stop adds exactly 0.05. */
  function TicksToEnd(v: real): (n: nat)
    decreases if v < LastDay then ((LastDay - v) * 20.0).Floor else 0
  {
    if v + TickStep >= LastDay then 1 else 1 + TicksToEnd(v + TickStep)
  }

  /** Playback always stops: from any value in [1, 4) it takes fewer than
      20 ticks per remaining day plus one, so at most 60 ticks from day 1. */
  lemma {:induction false} PlaybackStops(v: real)
    requires FirstDay <= v < LastDay
    ensures (TicksToEnd(v) as real) < (LastDay - v) * 20.0 + 1.0
    ensures TicksToEnd(v) <= 60
    decreases ((LastDay - v) * 20.0).Floor
  {
    if v + TickStep < LastDay {
      PlaybackStops(v + TickStep);
    }
  }
}
