/**
 * The watch-face engine: the fields its platform callbacks update in place,
 * the update handler's pending tick messages, and the redraw requests.
 *
 * Platform services appear as plain state: `visible` and `ambient` are what
 * `isVisible()` and `isInAmbientMode()` report, `pendingTicks` holds the
 * handler's queued tick messages (each as the delay it was posted with),
 * `redraws` counts calls to `invalidate()`, and `receiverCalls` logs the
 * register and unregister calls made for the time-zone receiver.
 */
module WatchFaceEngine {
  import opened Wrappers
  import opened WeatherIcons
  import opened TickSchedule
  import opened WeatherData
  import opened DrawGuards

  /** A call made on the time-zone broadcast receiver. */
  datatype ReceiverCall = Register | Unregister

  /** Register and unregister calls alternate, starting with a register. */
  predicate Alternating(calls: seq<ReceiverCall>) {
    forall i :: 0 <= i < |calls| ==> calls[i] == (if i % 2 == 0 then Register else Unregister)
  }

  /** The tick runs only while the face is visible and interactive. */
  predicate TickActive(visible: bool, ambient: bool) {
    visible && !ambient
  }

  /**
   * The crash of the draw step is reachable: a single weather record without
   * a minimum, absorbed into the initial state, leaves a state it fails on.
   */
  lemma DrawCrashIsReachable()
    ensures DrawWeatherAsWritten(ApplyBatch(InitialWeather, [DataItem(WeatherPath, None, Some("20°"), 800)]))
      == Failure(NullPointer)
  {
  }

  class Engine {
    var weatherId: int
    var maxTemp: Option<string>
    var minTemp: Option<string>

    var lowBitAmbient: bool
    var antialias: bool
    var receiverRegistered: bool

    var visible: bool
    var ambient: bool
    var pendingTicks: seq<nat>
    var redraws: nat
    var receiverCalls: seq<ReceiverCall>

    /**
     * At most one tick message is ever queued, and the registration flag
     * records whether the last receiver call was a register.
     */
    ghost predicate Valid()
      reads this
    {
      |pendingTicks| <= 1
      && Alternating(receiverCalls)
      && (receiverRegistered <==> |receiverCalls| % 2 == 1)
    }

    /** The weather render state held in the three fields. */
    function CurrentWeather(): Weather
      reads this
    {
      Weather(weatherId, minTemp, maxTemp)
    }

    /** A new engine: no weather yet, anti-aliasing on, nothing registered or queued. */
    constructor ()
      ensures Valid()
      ensures CurrentWeather() == InitialWeather
      ensures !lowBitAmbient && antialias && !receiverRegistered
      ensures !visible && !ambient
      ensures pendingTicks == [] && redraws == 0 && receiverCalls == []
    {
      weatherId, maxTemp, minTemp := -1, None, None;
      lowBitAmbient, antialias, receiverRegistered := false, true, false;
      visible, ambient := false, false;
      pendingTicks, redraws, receiverCalls := [], 0, [];
    }

    /** The display reports whether it is low-bit in ambient mode. */
    method OnPropertiesChanged(lowBit: bool)
      requires Valid()
      modifies this`lowBitAmbient
      ensures Valid()
      ensures lowBitAmbient == lowBit
    {
      lowBitAmbient := lowBit;
    }

    /** The platform's once-a-minute tick: one redraw. */
    method OnTimeTick()
      requires Valid()
      modifies this`redraws
      ensures Valid()
      ensures redraws == old(redraws) + 1
    {
      redraws := redraws + 1;
    }

    /** The time-zone receiver fires: one redraw (the calendar's zone is not modelled). */
    method OnTimeZoneChanged()
      requires Valid()
      modifies this`redraws
      ensures Valid()
      ensures redraws == old(redraws) + 1
    {
      redraws := redraws + 1;
    }

    /**
     * The handler delivers the queued tick message, read at wall-clock time
     * `now`: one redraw, then a new tick aligned to the next whole second iff
     * the face is visible and interactive, otherwise nothing stays queued.
     */
    method HandleUpdateMessage(now: int)
      requires Valid()
      requires pendingTicks != []
      modifies this`pendingTicks, this`redraws
      ensures Valid()
      ensures redraws == old(redraws) + 1
      ensures pendingTicks == if TickActive(visible, ambient) then [TickDelay(now)] else []
      ensures forall d :: d in pendingTicks ==> (now + d) % UpdatePeriodMillis == 0
    {
      pendingTicks := pendingTicks[1..];
      redraws := redraws + 1;
      if visible && !ambient {
        var delay := TickDelay(now);
        pendingTicks := pendingTicks + [delay];
      }
    }

    /**
     * Entering or leaving ambient mode: anti-aliasing is off exactly in
     * low-bit ambient mode, one redraw, every queued tick is removed, and one
     * immediate tick is queued iff the face is visible and interactive.
     */
    method OnAmbientModeChanged(inAmbientMode: bool)
      requires Valid()
      modifies this`ambient, this`antialias, this`redraws, this`pendingTicks
      ensures Valid()
      ensures ambient == inAmbientMode
      ensures antialias == !(inAmbientMode && lowBitAmbient)
      ensures redraws == old(redraws) + 1
      ensures pendingTicks == if TickActive(visible, inAmbientMode) then [0] else []
    {
      ambient := inAmbientMode;
      if inAmbientMode && lowBitAmbient {
        antialias := false;
      } else {
        antialias := true;
      }
      redraws := redraws + 1;
      pendingTicks := [];
      if visible && !ambient {
        pendingTicks := pendingTicks + [0];
      }
    }

    /**
     * The face becomes visible or hidden: the receiver is registered on
     * becoming visible unless it already is, and unregistered on hiding only
     * if it is; queued ticks are left alone.
     */
    method OnVisibilityChanged(isVisible: bool)
      requires Valid()
      modifies this`visible, this`receiverRegistered, this`receiverCalls
      ensures Valid()
      ensures visible == isVisible
      ensures receiverRegistered == isVisible
      ensures receiverCalls == old(receiverCalls) +
        (if isVisible && !old(receiverRegistered) then [Register]
         else if !isVisible && old(receiverRegistered) then [Unregister]
         else [])
    {
      visible := isVisible;
      if isVisible {
        if !receiverRegistered {
          receiverRegistered := true;
          receiverCalls := receiverCalls + [Register];
        }
      } else {
        if receiverRegistered {
          receiverRegistered := false;
          receiverCalls := receiverCalls + [Unregister];
        }
      }
    }

    /** The engine is torn down: every queued tick is removed, nothing else changes. */
    method OnDestroy()
      requires Valid()
      modifies this`pendingTicks
      ensures Valid()
      ensures pendingTicks == []
    {
      pendingTicks := [];
    }

    /**
     * The snapshot of all data items arrives: each weather item overwrites
     * the three fields in turn, so the last one wins; then one redraw iff the
     * face is visible and interactive.
     */
    method OnResult(items: seq<DataItem>)
      requires Valid()
      modifies this`weatherId, this`minTemp, this`maxTemp, this`redraws
      ensures Valid()
      ensures CurrentWeather() == ApplyBatch(old(CurrentWeather()), items)
      ensures redraws == old(redraws) + (if TickActive(visible, ambient) then 1 else 0)
    {
      ghost var w0 := CurrentWeather();
      var i := 0;
      while i < |items|
        modifies this`weatherId, this`minTemp, this`maxTemp
        invariant 0 <= i <= |items|
        invariant CurrentWeather() == ApplyBatch(w0, items[..i])
      {
        var item := items[i];
        ApplyBatchStep(w0, items[..i], item);
        assert items[..i + 1] == items[..i] + [item];
        if item.path == WeatherPath {
          minTemp := item.minTemp;
          maxTemp := item.maxTemp;
          weatherId := item.weatherId;
        }
        i := i + 1;
      }
      assert items[..i] == items;
      if visible && !ambient {
        redraws := redraws + 1;
      }
    }

    /**
     * A buffer of change events arrives: like `OnResult`, but only events of
     * the changed kind are looked at; deletions are skipped.
     */
    method OnDataChanged(events: seq<DataEvent>)
      requires Valid()
      modifies this`weatherId, this`minTemp, this`maxTemp, this`redraws
      ensures Valid()
      ensures CurrentWeather() == ApplyBatch(old(CurrentWeather()), ChangedItems(events))
      ensures redraws == old(redraws) + (if TickActive(visible, ambient) then 1 else 0)
    {
      ghost var w0 := CurrentWeather();
      var i := 0;
      while i < |events|
        modifies this`weatherId, this`minTemp, this`maxTemp
        invariant 0 <= i <= |events|
        invariant CurrentWeather() == ApplyBatch(w0, ChangedItems(events[..i]))
      {
        var event := events[i];
        assert events[..i + 1][..i] == events[..i];
        if event.eventType == Changed {
          var item := event.item;
          ApplyBatchStep(w0, ChangedItems(events[..i]), item);
          assert ChangedItems(events[..i + 1]) == ChangedItems(events[..i]) + [item];
          if item.path == WeatherPath {
            minTemp := item.minTemp;
            maxTemp := item.maxTemp;
            weatherId := item.weatherId;
          }
        } else {
          assert ChangedItems(events[..i + 1]) == ChangedItems(events[..i]) + [];
          assert ChangedItems(events[..i]) + [] == ChangedItems(events[..i]);
        }
        i := i + 1;
      }
      assert events[..i] == events;
      if visible && !ambient {
        redraws := redraws + 1;
      }
    }

    /**
     * The weather part of a frame, as the code draws it: the minimum when
     * present, the maximum when present over the minimum's length (failing
     * when the minimum is absent or longer), then the icon when mapped.
     */
    method OnDraw() returns (r: Result<seq<DrawOp>, DrawFault>)
      requires Valid()
      ensures r == DrawWeatherAsWritten(CurrentWeather())
    {
      var ops := [];
      if minTemp.Some? {
        ops := ops + [MinTempText(minTemp.value)];
      }
      if maxTemp.Some? {
        if minTemp.None? {
          return Failure(NullPointer);
        }
        var end := |minTemp.value|;
        if end > |maxTemp.value| {
          return Failure(IndexOutOfBounds);
        }
        ops := ops + [MaxTempText(maxTemp.value[..end])];
      }
      ghost var texts := ops;
      var icon := WeatherIconId(weatherId);
      if icon != NoIcon {
        ops := ops + [IconBitmap(icon)];
      } else {
        assert texts + [] == texts;
      }
      assert ops == texts + IconOps(weatherId);
      ghost var minOps := if minTemp.Some? then [MinTempText(minTemp.value)] else [];
      if maxTemp.Some? {
        assert texts == minOps + [MaxTempText(maxTemp.value[..|minTemp.value|])];
      } else {
        assert texts == minOps;
      }
      r := Success(ops);
    }
  }
}
