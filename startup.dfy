/**
 * main() and calibrate() of main.go, up to the call of doFuzz: the target
 * URL check and normalisation, the three filter flags, the decision to
 * autocalibrate and the filter it installs, and the header and cookie
 * flags.  Process exits and panics are the Err outcomes of Configure.
 */
module Startup {
  import opened Wrappers
  import GoStrings
  import Fmt
  import Utils
  import Driver
  import Fuzz

  /** Why the run stops before fuzzing starts. */
  datatype Fatal =
    | BadScheme             // the URL has neither scheme: an alert, then exit status 1
    | HeaderEntryMalformed  // a header entry without ": " makes ParseHeaders index past the split
    | CookieEntryMalformed  // a cookie entry without "=" makes ParseCookies index past the split
    | CalibrationFailed     // the probe page could not be loaded: an error, then exit status 1

  const FilterSep: string := ","

  predicate SchemeAccepted(url: string) {
    GoStrings.HasPrefix(url, "http://") || GoStrings.HasPrefix(url, "https://")
  }

  /** A "/" is appended unless the URL already ends in one. */
  function Normalise(url: string): (u: string)
    ensures GoStrings.HasSuffix(u, "/")
    ensures GoStrings.HasSuffix(url, "/") ==> u == url
    ensures GoStrings.HasPrefix(u, url) && |u| <= |url| + 1
  {
    if GoStrings.HasSuffix(url, "/") then url else url + "/"
  }

  lemma NormaliseIdempotent(url: string)
    ensures Normalise(Normalise(url)) == Normalise(url)
  {
  }

  /** The scheme check, then normalisation. */
  function CheckUrl(url: string): (r: Result<string, Fatal>)
    ensures r.Err? <==> !SchemeAccepted(url)
    ensures r.Err? ==> r.error == BadScheme
    ensures r.Ok? ==> SchemeAccepted(r.value) && GoStrings.HasSuffix(r.value, "/") && GoStrings.HasPrefix(r.value, url)
    ensures r.Ok? ==> r.value == Normalise(url)
  {
    if !SchemeAccepted(url) then Err(BadScheme)
    else
      var u := Normalise(url);
      assert u[..|url|] == url;
      assert GoStrings.HasPrefix(url, "http://") ==> u[..7] == url[..7];
      assert GoStrings.HasPrefix(url, "https://") ==> u[..8] == url[..8];
      Ok(u)
  }

  /** utils.SplitOrNil of the -fs, -fw and -fm flags. */
  function FlagFilters(fs: string, fw: string, fm: string): (f: Fuzz.Filters)
    ensures f.size.None? <==> fs == ""
    ensures f.words.None? <==> fw == ""
    ensures f.substrings.None? <==> fm == ""
  {
    Fuzz.Filters(Utils.SplitOrNil(fs, FilterSep), Utils.SplitOrNil(fw, FilterSep), Utils.SplitOrNil(fm, FilterSep))
  }

  /** Autocalibration runs when -no-ac is unset and no filter was given. */
  predicate Autocalibrate(noAc: bool, f: Fuzz.Filters) {
    !noAc && f.size.None? && f.words.None? && f.substrings.None?
  }

  /**
   * calibrate(): page_size and page_words of the probe page, or the exit.
   * NavigationFailed stands for browser.Page failing and, outside fast
   * mode, for MustWaitLoad panicking on the probe page.
   */
  function Calibrate(probe: Fuzz.Navigation): (r: Result<(seq<string>, seq<string>), Fatal>)
    ensures r.Err? <==> probe.NavigationFailed?
    ensures r.Err? ==> r.error == CalibrationFailed
    ensures probe.Rendered? ==>
      r == Ok(([Fmt.Sprint(|probe.content|)], [Fmt.Sprint(1 + GoStrings.Occurrences(probe.content, ' '))]))
  {
    match probe
    case NavigationFailed => Err(CalibrationFailed)
    case Rendered(res) =>
      var fp := Fuzz.FingerprintOf(res);
      Ok(([Fmt.Sprint(fp.size)], [Fmt.Sprint(fp.words)]))
  }

  /** filter_words after the calibration step: replaced by the probe page's word count when autocalibrating. */
  function CalibratedFilters(filters: Fuzz.Filters, autocalibrate: bool, probe: Fuzz.Navigation): (r: Result<Fuzz.Filters, Fatal>)
    ensures r.Err? <==> autocalibrate && probe.NavigationFailed?
    ensures r.Ok? && !autocalibrate ==> r.value == filters
    ensures r.Ok? && autocalibrate ==>
      && probe.Rendered?
      && r.value == filters.(words := Some([Fmt.Sprint(1 + GoStrings.Occurrences(probe.content, ' '))]))
  {
    if !autocalibrate then Ok(filters)
    else
      match Calibrate(probe)
      case Err(e) => Err(e)
      case Ok(calibration) => Ok(filters.(words := Some(calibration.1)))
  }

  /** Autocalibration, stated over the flags: -no-ac unset and all three filter flags empty. */
  lemma AutocalibrateFromFlags(noAc: bool, fs: string, fw: string, fm: string)
    ensures Autocalibrate(noAc, FlagFilters(fs, fw, fm)) <==> !noAc && fs == "" && fw == "" && fm == ""
  {
  }

  /**
   * ParseHeaders, then the cookies of SetupBrowser: the parsed lists, or
   * the panic of the first malformed flag.
   */
  function Session(headers: string, cookies: string): (r: Result<(seq<string>, seq<Driver.Cookie>), Fatal>)
    ensures r.Err? <==> !Driver.HeadersWellFormed(headers) || !Driver.CookiesWellFormed(cookies)
    ensures !Driver.HeadersWellFormed(headers) ==> r == Err(HeaderEntryMalformed)
    ensures Driver.HeadersWellFormed(headers) && !Driver.CookiesWellFormed(cookies) ==> r == Err(CookieEntryMalformed)
    ensures r.Ok? ==> r.value == (Driver.HeaderList(headers), Driver.CookieList(cookies))
  {
    if !Driver.HeadersWellFormed(headers) then Err(HeaderEntryMalformed)
    else if !Driver.CookiesWellFormed(cookies) then Err(CookieEntryMalformed)
    else Ok((Driver.HeaderList(headers), Driver.CookieList(cookies)))
  }

  /** The settings doFuzz is called with. */
  datatype Config = Config(targetUrl: string, filters: Fuzz.Filters, headers: seq<string>, cookies: seq<Driver.Cookie>)

  /**
   * main() up to doFuzz, in the source's order: URL check, filters,
   * autocalibration decision, headers, browser cookies, calibration.
   */
  function Configure(url: string, fs: string, fw: string, fm: string, noAc: bool,
                     headers: string, cookies: string, probe: Fuzz.Navigation): (r: Result<Config, Fatal>)
    ensures r.Err? <==>
      || !SchemeAccepted(url)
      || !Driver.HeadersWellFormed(headers)
      || !Driver.CookiesWellFormed(cookies)
      || (Autocalibrate(noAc, FlagFilters(fs, fw, fm)) && probe.NavigationFailed?)
    ensures !SchemeAccepted(url) ==> r == Err(BadScheme)
    ensures r.Ok? ==>
      && r.value.targetUrl == Normalise(url)
      && r.value.headers == Driver.HeaderList(headers)
      && r.value.cookies == Driver.CookieList(cookies)
    ensures r.Ok? && !Autocalibrate(noAc, FlagFilters(fs, fw, fm)) ==> r.value.filters == FlagFilters(fs, fw, fm)
    ensures r.Ok? && Autocalibrate(noAc, FlagFilters(fs, fw, fm)) ==>
      && probe.Rendered?
      && r.value.filters == Fuzz.Filters(None, Some([Fmt.Sprint(1 + GoStrings.Occurrences(probe.content, ' '))]), None)
  {
    match CheckUrl(url)
    case Err(e) => Err(e)
    case Ok(targetUrl) =>
      var filters := FlagFilters(fs, fw, fm);
      var autocalibrate := Autocalibrate(noAc, filters);
      match Session(headers, cookies)
      case Err(e) => Err(e)
      case Ok(session) =>
        match CalibratedFilters(filters, autocalibrate, probe)
        case Err(e) => Err(e)
        case Ok(installed) => Ok(Config(targetUrl, installed, session.0, session.1))
  }

  /**
   * After autocalibration a page matches exactly when its word count
   * differs from the probe page's.
   */
  lemma CalibratedMatchIffWordsDiffer(probe: string, content: string)
    ensures var baseline := Fuzz.FingerprintOf(probe);
      var fp := Fuzz.FingerprintOf(content);
      Fuzz.Matches(fp, content, Fuzz.Filters(None, Some([Fmt.Sprint(baseline.words)]), None)) <==> fp.words != baseline.words
  {
    Fmt.SprintInjective(Fuzz.FingerprintOf(content).words, Fuzz.FingerprintOf(probe).words);
  }

  /** With -no-ac and no filter flags nothing is ever reported as a match. */
  lemma NoCalibrationNoFilterNeverMatches(url: string, headers: string, cookies: string,
                                          probe: Fuzz.Navigation, content: string)
    requires Configure(url, "", "", "", true, headers, cookies, probe).Ok?
    ensures var c := Configure(url, "", "", "", true, headers, cookies, probe).value;
      !Fuzz.Matches(Fuzz.FingerprintOf(content), content, c.filters)
  {
  }

  /** A run that autocalibrates installs only the word filter, whatever page the probe rendered. */
  lemma AutocalibrationInstallsOnlyWords(url: string, noAc: bool, headers: string, cookies: string,
                                         probe: Fuzz.Navigation)
    requires !noAc
    requires Configure(url, "", "", "", noAc, headers, cookies, probe).Ok?
    ensures var f := Configure(url, "", "", "", noAc, headers, cookies, probe).value.filters;
      f.size.None? && f.substrings.None? && f.words.Some? && |f.words.value| == 1
  {
  }
}
