/**
 * The weather part of the face's draw step: which temperature texts and
 * which icon are drawn, as guarded by null checks and the icon mapping.
 */
module DrawGuards {
  import opened Wrappers
  import opened WeatherIcons
  import opened WeatherData

  /** One weather element the draw step emits. */
  datatype DrawOp = MinTempText(text: string) | MaxTempText(text: string) | IconBitmap(icon: Icon)

  /** How the draw step fails as written. */
  datatype DrawFault =
    | NullPointer        // `min_temp.length()` on a null `min_temp`
    | IndexOutOfBounds   // a text range that ends past the end of the text

  /** The icon element, drawn only when the mapping has an icon for the code. */
  function IconOps(code: int): seq<DrawOp> {
    var icon := WeatherIconId(code);
    if icon != NoIcon then [IconBitmap(icon)] else []
  }

  /**
   * The draw step as written: the minimum is drawn when present; the maximum,
   * when present, is drawn over the range `[0, length of the minimum)`,
   * which dereferences the minimum and may run past the maximum's end.
   */
  function DrawWeatherAsWritten(w: Weather): (r: Result<seq<DrawOp>, DrawFault>)
    ensures r == Failure(NullPointer) <==> (w.maxTemp.Some? && w.minTemp.None?)
    ensures r == Failure(IndexOutOfBounds) <==>
      (w.maxTemp.Some? && w.minTemp.Some? && |w.minTemp.value| > |w.maxTemp.value|)
    // On success: the minimum is drawn iff present, the only maximum text is
    // the maximum cut to the minimum's length, the icon iff the mapping has one.
    ensures r.Success? ==> forall t :: MinTempText(t) in r.value <==> w.minTemp == Some(t)
    ensures r.Success? ==> forall t :: MaxTempText(t) in r.value <==>
      (w.maxTemp.Some? && t == w.maxTemp.value[..|w.minTemp.value|])
    ensures r.Success? ==> forall i :: IconBitmap(i) in r.value <==>
      (i == WeatherIconId(w.weatherId) && i != NoIcon)
  {
    var minOps := if w.minTemp.Some? then [MinTempText(w.minTemp.value)] else [];
    if w.maxTemp.None? then Success(minOps + IconOps(w.weatherId))
    else if w.minTemp.None? then Failure(NullPointer)
    else
      var end := |w.minTemp.value|;
      if end > |w.maxTemp.value| then Failure(IndexOutOfBounds)
      else Success(minOps + [MaxTempText(w.maxTemp.value[..end])] + IconOps(w.weatherId))
  }

  /**
   * The draw step with each text drawn over its own length: the minimum is
   * drawn iff present, the maximum iff present, each in full, and the icon
   * iff the mapping has one.
   */
  function DrawWeather(w: Weather): (r: seq<DrawOp>)
    ensures forall t :: MinTempText(t) in r <==> w.minTemp == Some(t)
    ensures forall t :: MaxTempText(t) in r <==> w.maxTemp == Some(t)
    ensures forall i :: IconBitmap(i) in r <==> (i == WeatherIconId(w.weatherId) && i != NoIcon)
    ensures |r| <= 3
  {
    (if w.minTemp.Some? then [MinTempText(w.minTemp.value)] else [])
    + (if w.maxTemp.Some? then [MaxTempText(w.maxTemp.value)] else [])
    + IconOps(w.weatherId)
  }

  /**
   * Where the two texts have the same length (or there is no maximum), the
   * draw step as written does what the corrected one does.
   */
  lemma AsWrittenAgreesWhenLengthsMatch(w: Weather)
    requires w.maxTemp.Some? ==> w.minTemp.Some? && |w.minTemp.value| == |w.maxTemp.value|
    ensures DrawWeatherAsWritten(w) == Success(DrawWeather(w))
  {
    var minOps := if w.minTemp.Some? then [MinTempText(w.minTemp.value)] else [];
    if w.maxTemp.Some? {
      var max := w.maxTemp.value;
      assert max[..|w.minTemp.value|] == max;
      assert DrawWeather(w) == minOps + [MaxTempText(max)] + IconOps(w.weatherId);
    } else {
      assert minOps + [] == minOps;
    }
  }

  /** A maximum without a minimum crashes the draw as written; the corrected draw shows it. */
  lemma MaxWithoutMinCrashes()
    ensures DrawWeatherAsWritten(Weather(800, None, Some("20°"))) == Failure(NullPointer)
    ensures DrawWeather(Weather(800, None, Some("20°"))) == [MaxTempText("20°"), IconBitmap(Clear)]
  {
  }

  /** A minimum shorter than the maximum truncates the maximum as written. */
  lemma ShorterMinTruncatesMax()
    ensures DrawWeatherAsWritten(Weather(800, Some("9°"), Some("12°")))
      == Success([MinTempText("9°"), MaxTempText("12"), IconBitmap(Clear)])
    ensures MaxTempText("12°") in DrawWeather(Weather(800, Some("9°"), Some("12°")))
  {
    var w := Weather(800, Some("9°"), Some("12°"));
    assert |w.minTemp.value| == 2;
    assert w.maxTemp.value[..2] == "12";
    assert IconOps(800) == [IconBitmap(Clear)];
    assert [MinTempText("9°")] + [MaxTempText("12")] + [IconBitmap(Clear)]
      == [MinTempText("9°"), MaxTempText("12"), IconBitmap(Clear)];
  }

  /** A minimum longer than the maximum makes the range run past the maximum's end. */
  lemma LongerMinOverrunsMax()
    ensures DrawWeatherAsWritten(Weather(800, Some("-10°"), Some("5°"))) == Failure(IndexOutOfBounds)
    ensures MaxTempText("5°") in DrawWeather(Weather(800, Some("-10°"), Some("5°")))
  {
  }
}
