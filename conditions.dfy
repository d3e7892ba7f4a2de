/**
 * The WeatherCondition enumeration: twenty constants, each declared with a
 * numeric code, a Polish description and an icon file name, and the static
 * classifier fromCode that maps an integer weather code to a constant.
 */
module Conditions {

  datatype WeatherCondition =
    | Clear | MainlyClear
    | PartlyCloudy | Overcast | Fog | RimeFog
    | DrizzleLight | DrizzleModerate | DrizzleDense
    | RainLight | RainModerate | RainHeavy | RainShowers
    | Thunderstorm | ThunderstormHail
    | SnowLight | SnowModerate | SnowHeavy | SnowShowers
    | Unknown
  {
    /** The code each constant is declared with (never read by FromCode). */
    function Code(): (r: int)
      ensures -1 <= r <= 99
      ensures r == -1 <==> this == Unknown
      ensures this in Returnable ==> FromCode(r) == this
    {
      match this
      case Clear => 0
      case MainlyClear => 1
      case PartlyCloudy => 2
      case Overcast => 3
      case Fog => 45
      case RimeFog => 48
      case DrizzleLight => 51
      case DrizzleModerate => 53
      case DrizzleDense => 55
      case RainLight => 61
      case RainModerate => 63
      case RainHeavy => 65
      case RainShowers => 80
      case Thunderstorm => 95
      case ThunderstormHail => 99
      case SnowLight => 71
      case SnowModerate => 73
      case SnowHeavy => 75
      case SnowShowers => 85
      case Unknown => -1
    }

    /** getDescription */
    function Description(): (r: string)
      ensures |r| > 0
    {
      match this
      case Clear => "Czyste niebo"
      case MainlyClear => "Głównie bezchmurnie"
      case PartlyCloudy => "Częściowe zachmurzenie"
      case Overcast => "Pochmurno"
      case Fog => "Mgła"
      case RimeFog => "Mgła osadzająca szadź"
      case DrizzleLight => "Lekka mżawka"
      case DrizzleModerate => "Umiarkowana mżawka"
      case DrizzleDense => "Gęsta mżawka"
      case RainLight => "Słaby deszcz"
      case RainModerate => "Umiarkowany deszcz"
      case RainHeavy => "Ulewa"
      case RainShowers => "Przelotne opady"
      case Thunderstorm => "Burza"
      case ThunderstormHail => "Burza z gradem"
      case SnowLight => "Słaby śnieg"
      case SnowModerate => "Umiarkowany śnieg"
      case SnowHeavy => "Śnieżyca"
      case SnowShowers => "Przelotne opady śniegu"
      case Unknown => "Nieznane"
    }

    /** getIconFileName: always one of the four icons the application ships. */
    function IconFileName(): (r: string)
      ensures r in IconFiles
    {
      match this
      case Clear | MainlyClear => "sun.png"
      case PartlyCloudy | Overcast | Fog | RimeFog | Unknown => "cloud.png"
      case DrizzleLight | DrizzleModerate | DrizzleDense
         | RainLight | RainModerate | RainHeavy | RainShowers
         | Thunderstorm | ThunderstormHail => "rain.png"
      case SnowLight | SnowModerate | SnowHeavy | SnowShowers => "snow.png"
    }
  }

  const IconFiles: set<string> := {"sun.png", "cloud.png", "rain.png", "snow.png"}

  /** The constants FromCode can return. */
  const Returnable: set<WeatherCondition> :=
    {RainModerate, SnowModerate, RainShowers, SnowShowers, Thunderstorm, Unknown}

  /** The five ranges FromCode tests, in the order it tests them. */
  predicate InRainRange(code: int) { 51 <= code <= 67 }
  predicate InSnowRange(code: int) { 71 <= code <= 77 }
  predicate InRainShowersRange(code: int) { 80 <= code <= 82 }
  predicate InSnowShowersRange(code: int) { 85 <= code <= 86 }
  predicate InThunderstormRange(code: int) { 95 <= code <= 99 }

  predicate InAnyRange(code: int) {
    InRainRange(code) || InSnowRange(code) || InRainShowersRange(code)
    || InSnowShowersRange(code) || InThunderstormRange(code)
  }

  /** fromCode: total; only the five range rules apply, the declared codes
    * are not consulted, and every code outside the ranges yields Unknown. */
  function FromCode(code: int): (r: WeatherCondition)
    ensures r in Returnable
    ensures r == Unknown <==> !InAnyRange(code)
  {
    if InRainRange(code) then RainModerate
    else if InSnowRange(code) then SnowModerate
    else if InRainShowersRange(code) then RainShowers
    else if InSnowShowersRange(code) then SnowShowers
    else if InThunderstormRange(code) then Thunderstorm
    else Unknown
  }

  /** Each range is exactly the set of codes that map to its constant. */
  lemma FromCodeRanges(code: int)
    ensures FromCode(code) == RainModerate <==> InRainRange(code)
    ensures FromCode(code) == SnowModerate <==> InSnowRange(code)
    ensures FromCode(code) == RainShowers <==> InRainShowersRange(code)
    ensures FromCode(code) == SnowShowers <==> InSnowShowersRange(code)
    ensures FromCode(code) == Thunderstorm <==> InThunderstormRange(code)
  {
  }

  /** No code lies in two ranges, so the order of the tests does not matter. */
  lemma RangesDisjoint(code: int)
    ensures InRainRange(code) ==> !InSnowRange(code) && !InRainShowersRange(code)
                                  && !InSnowShowersRange(code) && !InThunderstormRange(code)
    ensures InSnowRange(code) ==> !InRainShowersRange(code) && !InSnowShowersRange(code)
                                  && !InThunderstormRange(code)
    ensures InRainShowersRange(code) ==> !InSnowShowersRange(code) && !InThunderstormRange(code)
    ensures InSnowShowersRange(code) ==> !InThunderstormRange(code)
  {
  }

  /** Every constant in Returnable is hit by some code, and no other is. */
  lemma FromCodeImage(c: WeatherCondition)
    ensures (exists code :: FromCode(code) == c) <==> c in Returnable
  {
    if c in Returnable {
      var code := match c
        case RainModerate => 51
        case SnowModerate => 71
        case RainShowers => 80
        case SnowShowers => 85
        case Thunderstorm => 95
        case _ => 999;
      assert FromCode(code) == c;
    }
  }

  /** Codes 0-3, 45 and 48 have constants of their own, but FromCode never
    * returns those constants: these codes, and the too-large code of the
    * tests, all map to Unknown. */
  lemma UnlistedCodesAreUnknown()
    ensures FromCode(0) == Unknown && FromCode(1) == Unknown
    ensures FromCode(2) == Unknown && FromCode(3) == Unknown
    ensures FromCode(45) == Unknown && FromCode(48) == Unknown
    ensures FromCode(999) == Unknown
  {
  }

  /** FromCode ignores the declared code: 51 yields the constant declared
    * with 63, and FromCode(k) carries the code k only for six values of k. */
  lemma FromCodeIgnoresDeclaredCode(k: int)
    ensures FromCode(51).Code() == 63
    ensures FromCode(k).Code() == k <==> k in {-1, 63, 73, 80, 85, 95}
  {
  }

  /** The values the tests check, and the table's accessors. */
  lemma FromCodeExamples()
    ensures FromCode(51) == RainModerate && FromCode(53) == RainModerate && FromCode(61) == RainModerate
    ensures FromCode(51).IconFileName() == "rain.png"
    ensures FromCode(61).Description() == "Umiarkowany deszcz"
    ensures Unknown.Description() == "Nieznane" && Unknown.IconFileName() == "cloud.png"
  {
  }

  /** The enum's declared codes and descriptions identify its constants. */
  lemma TableInjective(a: WeatherCondition, b: WeatherCondition)
    requires a != b
    ensures a.Code() != b.Code()
    ensures a.Description() != b.Description()
  {
  }
}
