/**
 * Weather records pushed from the phone, and the render state they
 * overwrite: the latest record addressed to the weather path wins.
 */
module WeatherData {
  import opened Wrappers

  /** The data path that weather records are published under. */
  const WeatherPath: string := "/weather"

  /**
   * One data item as the engine reads it: its URI path and the values its
   * data map returns for `min_temp`, `max_temp` (null when absent) and
   * `weather_id`.
   */
  datatype DataItem = DataItem(path: string, minTemp: Option<string>, maxTemp: Option<string>, weatherId: int)

  /** The kind of a data event: the item was changed or deleted. */
  datatype EventType = Changed | Deleted

  /** One entry of a change-event buffer. */
  datatype DataEvent = DataEvent(eventType: EventType, item: DataItem)

  /** The engine's weather render state: condition code and the two temperature strings. */
  datatype Weather = Weather(weatherId: int, minTemp: Option<string>, maxTemp: Option<string>)

  /** The state before any record arrived: unknown code, no temperatures. */
  const InitialWeather: Weather := Weather(-1, None, None)

  /** The last item of `items` whose path is the weather path, if any. */
  function LatestWeather(items: seq<DataItem>): (r: Option<DataItem>)
    ensures r.None? <==> forall i :: 0 <= i < |items| ==> items[i].path != WeatherPath
    ensures r.Some? ==>
      exists i :: 0 <= i < |items| && items[i] == r.value && items[i].path == WeatherPath
        && forall j :: i < j < |items| ==> items[j].path != WeatherPath
  {
    if items == [] then None
    else
      var last := items[|items| - 1];
      if last.path == WeatherPath then Some(last)
      else
        var r := LatestWeather(items[..|items| - 1]);
        assert forall i :: 0 <= i < |items| - 1 ==> items[..|items| - 1][i] == items[i];
        r
  }

  /** The render state after absorbing a batch of items, record by record. */
  function ApplyBatch(w: Weather, items: seq<DataItem>): Weather {
    match LatestWeather(items)
    case None => w
    case Some(it) => Weather(it.weatherId, it.minTemp, it.maxTemp)
  }

  /** The items of the events that report a change, in order; deletions are dropped. */
  function ChangedItems(events: seq<DataEvent>): (r: seq<DataItem>)
    ensures |r| <= |events|
    ensures forall x :: x in r <==> exists e :: e in events && e.eventType == Changed && e.item == x
  {
    if events == [] then []
    else
      var last := events[|events| - 1];
      var front := events[..|events| - 1];
      assert events == front + [last];
      ChangedItems(front) + (if last.eventType == Changed then [last.item] else [])
  }

  /**
   * A later batch overrides an earlier one exactly when it carries a weather
   * record; otherwise the earlier batch's latest record stands.
   */
  lemma {:induction false} LatestWeatherConcat(a: seq<DataItem>, b: seq<DataItem>)
    ensures LatestWeather(a + b) == if LatestWeather(b).Some? then LatestWeather(b) else LatestWeather(a)
    decreases |b|
  {
    if b != [] {
      var ab := a + b;
      assert ab[|ab| - 1] == b[|b| - 1];
      if b[|b| - 1].path != WeatherPath {
        assert ab[..|ab| - 1] == a + b[..|b| - 1];
        LatestWeatherConcat(a, b[..|b| - 1]);
      }
    } else {
      assert a + b == a;
    }
  }

  /** Absorbing two batches one after the other is absorbing their concatenation. */
  lemma ApplyBatchConcat(w: Weather, a: seq<DataItem>, b: seq<DataItem>)
    ensures ApplyBatch(ApplyBatch(w, a), b) == ApplyBatch(w, a + b)
  {
    LatestWeatherConcat(a, b);
  }

  /** A batch with no weather record leaves the render state as it was. */
  lemma ApplyBatchWithoutWeatherIsIdentity(w: Weather, items: seq<DataItem>)
    requires forall i :: 0 <= i < |items| ==> items[i].path != WeatherPath
    ensures ApplyBatch(w, items) == w
  {
  }

  /** The batch absorbed one item further: only a weather record replaces the state. */
  lemma ApplyBatchStep(w: Weather, items: seq<DataItem>, it: DataItem)
    ensures ApplyBatch(w, items + [it]) ==
      if it.path == WeatherPath then Weather(it.weatherId, it.minTemp, it.maxTemp)
      else ApplyBatch(w, items)
  {
  }

  /** An event that reports a change to a weather record. */
  predicate ChangesWeather(e: DataEvent) {
    e.eventType == Changed && e.item.path == WeatherPath
  }

  /**
   * The record the change stream leaves is that of the LAST event reporting
   * a change to a weather record; there is none iff no event does.
   */
  lemma {:induction false} LatestChangedWeather(events: seq<DataEvent>)
    ensures LatestWeather(ChangedItems(events)).None? <==>
      forall i :: 0 <= i < |events| ==> !ChangesWeather(events[i])
    ensures LatestWeather(ChangedItems(events)).Some? ==>
      exists i :: 0 <= i < |events| && ChangesWeather(events[i])
        && LatestWeather(ChangedItems(events)) == Some(events[i].item)
        && forall j :: i < j < |events| ==> !ChangesWeather(events[j])
  {
    if events != [] {
      var n := |events| - 1;
      var front, last := events[..n], events[n];
      assert events == front + [last];
      assert forall i :: 0 <= i < n ==> front[i] == events[i];
      var tail := if last.eventType == Changed then [last.item] else [];
      assert ChangedItems(events) == ChangedItems(front) + tail;
      LatestWeatherConcat(ChangedItems(front), tail);
      LatestChangedWeather(front);
      if ChangesWeather(last) {
        assert LatestWeather(tail) == Some(last.item);
      } else {
        assert LatestWeather(tail).None?;
      }
    }
  }

  /** When every event reports a change, the change stream yields every item, in order. */
  lemma {:induction false} AllChangedKeepsEveryItem(events: seq<DataEvent>)
    requires forall i :: 0 <= i < |events| ==> events[i].eventType == Changed
    ensures ChangedItems(events) == seq(|events|, i requires 0 <= i < |events| => events[i].item)
  {
    if events != [] {
      var front := events[..|events| - 1];
      AllChangedKeepsEveryItem(front);
    }
  }

  /** One weather record among other items sets the render state to its values. */
  lemma SingleRecordBatch(w: Weather)
    ensures ApplyBatch(w, [DataItem("/other", None, None, 5), DataItem(WeatherPath, Some("10°"), Some("20°"), 800)])
      == Weather(800, Some("10°"), Some("20°"))
  {
  }
}
