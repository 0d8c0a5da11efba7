/**
 * The mapping from a weather condition code (the OpenWeatherMap code table)
 * to the icon the face draws beside the temperatures.
 */
module WeatherIcons {

  /** The icon categories; `NoIcon` stands for the `-1` "no icon" answer. */
  datatype Icon = Storm | LightRain | Rain | Snow | Fog | Clear | LightClouds | Cloudy | NoIcon

  /**
   * The icon for condition code `code`, as the if/else chain of the engine
   * decides it: the first range that contains the code wins.
   */
  function WeatherIconId(code: int): (r: Icon)
    // Each category, stated as the set of codes that yield it.
    ensures r == Storm <==> (200 <= code <= 232 || code == 781)
    ensures r == LightRain <==> 300 <= code <= 321
    ensures r == Rain <==> (500 <= code <= 504 || 520 <= code <= 531)
    ensures r == Snow <==> (code == 511 || 600 <= code <= 622)
    ensures r == Fog <==> 701 <= code <= 761
    ensures r == Clear <==> code == 800
    ensures r == LightClouds <==> code == 801
    ensures r == Cloudy <==> 802 <= code <= 804
    ensures r == NoIcon <==> !Documented(code)
  {
    if 200 <= code <= 232 then Storm
    else if 300 <= code <= 321 then LightRain
    else if 500 <= code <= 504 then Rain
    else if code == 511 then Snow
    else if 520 <= code <= 531 then Rain
    else if 600 <= code <= 622 then Snow
    else if 701 <= code <= 761 then Fog
    else if code == 761 || code == 781 then Storm
    else if code == 800 then Clear
    else if code == 801 then LightClouds
    else if 802 <= code <= 804 then Cloudy
    else NoIcon
  }

  /** The codes for which some icon exists. */
  predicate Documented(code: int) {
    (200 <= code <= 232) || (300 <= code <= 321) || (500 <= code <= 504) || code == 511
    || (520 <= code <= 531) || (600 <= code <= 622) || (701 <= code <= 761)
    || code == 781 || (800 <= code <= 804)
  }

  /**
   * Branch order: 761 is caught by the fog range before the storm test that
   * also names it, so that test only ever fires for 781.
   */
  lemma StormTestOnlyCatches781(code: int)
    requires code == 761 || code == 781
    ensures WeatherIconId(code) == Storm <==> code == 781
    ensures WeatherIconId(761) == Fog
  {
  }

  /** Codes next to the documented ranges, and the "unknown" code, draw no icon. */
  lemma UndocumentedCodesHaveNoIcon()
    ensures WeatherIconId(-1) == NoIcon
    ensures forall code :: 505 <= code <= 510 ==> WeatherIconId(code) == NoIcon
    ensures WeatherIconId(999) == NoIcon
  {
  }
}
