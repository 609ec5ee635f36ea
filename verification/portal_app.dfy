/** Two helpers of the portal's landing page: the test that decides whether a
    clicked API link is followed by the browser or fetched in the page, and
    the text that shows the server's uptime. */
module PortalApp {
  import opened Wrappers
  import opened Text

  // ---------------------------------------------------------------
  // Clicks on API links
  // ---------------------------------------------------------------

  const GithubHost := "github.com"

  /** What `handleApiLinkClick` does with a click. */
  datatype LinkClickOutcome =
    | DefaultNavigation   // returns before `preventDefault`: the browser follows the link
    | FetchInPage(url: string) // `preventDefault`, then `fetch(url)` and the response panel
    | TypeError           // no enclosing `<a>`, or one without `href`: `null.startsWith` throws

  /** `href.startsWith('http') || href.includes('github.com')`. */
  predicate IsExternal(href: string)
    ensures IsExternal(href) <==> StartsWith(href, "http") || exists i :: OccursAt(href, GithubHost, i)
  {
    ContainsIff(href, GithubHost);
    StartsWith(href, "http") || Contains(href, GithubHost)
  }

  /** The decision of `handleApiLinkClick`; `href` is `None` when the target
      has no enclosing anchor or the anchor has no `href` attribute. */
  function HandleApiLinkClick(href: Option<string>): (r: LinkClickOutcome)
    ensures r.TypeError? <==> href.None?
    ensures r.DefaultNavigation? <==>
              href.Some? && (StartsWith(href.value, "http") || exists i :: OccursAt(href.value, GithubHost, i))
    ensures r.FetchInPage? ==> r.url == href.value
  {
    match href
    case None => TypeError
    case Some(h) =>
      if IsExternal(h) then DefaultNavigation else FetchInPage(h)
  }

  /** The test is a bare prefix test: a relative link whose name starts with
      `http` is left to the browser. */
  lemma HttpPrefixIsExternal(rest: string)
    ensures HandleApiLinkClick(Some("http" + rest)) == DefaultNavigation
  {
    assert ("http" + rest)[..4] == "http";
  }

  /** Any link that mentions the GitHub host is left to the browser,
      wherever the host appears in it. */
  lemma GithubMentionIsExternal(before: string, after: string)
    ensures HandleApiLinkClick(Some(before + GithubHost + after)) == DefaultNavigation
  {
    var s := before + GithubHost + after;
    assert OccursAt(s, GithubHost, |before|) by {
      assert s[|before|..|before| + |GithubHost|] == GithubHost;
    }
  }

  /** A same-origin link of the selector (`/api…` or `/health…`) that does
      not mention the GitHub host is fetched in the page. */
  lemma ApiPathIsFetched(href: string)
    requires StartsWith(href, "/api") || StartsWith(href, "/health")
    requires !exists i :: OccursAt(href, GithubHost, i)
    ensures HandleApiLinkClick(Some(href)) == FetchInPage(href)
  {
    assert href[..4][0] == '/';
  }

  // ---------------------------------------------------------------
  // Uptime text
  // ---------------------------------------------------------------

  const SecondsPerDay := 86400
  const SecondsPerHour := 3600
  const SecondsPerMinute := 60

  function Days(seconds: nat): nat {
    seconds / SecondsPerDay
  }

  function Hours(seconds: nat): (h: nat)
    ensures h < 24
  {
    (seconds % SecondsPerDay) / SecondsPerHour
  }

  function Minutes(seconds: nat): (m: nat)
    ensures m < 60
  {
    (seconds % SecondsPerHour) / SecondsPerMinute
  }

  /** A number followed by its unit letter, as in `${days}d`. */
  function Group(n: nat, unit: char): string {
    NatToString(n) + [unit]
  }

  /** `formatUptime(seconds)` for a whole number of seconds. */
  function FormatUptime(seconds: nat): (r: string)
    ensures |r| >= 2 && r[|r| - 1] == 'm'
  {
    var days := Days(seconds);
    var hours := Hours(seconds);
    var minutes := Minutes(seconds);
    if days > 0 then Group(days, 'd') + " " + Group(hours, 'h') + " " + Group(minutes, 'm')
    else if hours > 0 then Group(hours, 'h') + " " + Group(minutes, 'm')
    else Group(minutes, 'm')
  }

  /** Hours are counted within the day, so the minutes of the hour are the
      same whether the days are removed first or not. */
  lemma HoursNestInDays(seconds: nat)
    ensures (seconds % SecondsPerDay) % SecondsPerHour == seconds % SecondsPerHour
  {
    var q := seconds / SecondsPerDay;
    var r1 := seconds % SecondsPerDay;
    var h := r1 / SecondsPerHour;
    var r2 := r1 % SecondsPerHour;
    assert seconds == SecondsPerHour * (24 * q + h) + r2;
    assert 0 <= r2 < SecondsPerHour;
  }

  /** The three components account for every whole minute of the input:
      what they leave out is less than a minute. */
  lemma UptimeDecomposition(seconds: nat)
    ensures var whole := Days(seconds) * SecondsPerDay + Hours(seconds) * SecondsPerHour + Minutes(seconds) * SecondsPerMinute;
            whole <= seconds < whole + SecondsPerMinute
  {
    HoursNestInDays(seconds);
    var r1 := seconds % SecondsPerDay;
    var r2 := seconds % SecondsPerHour;
    assert seconds == Days(seconds) * SecondsPerDay + r1;
    assert r1 == Hours(seconds) * SecondsPerHour + r2;
    assert r2 == Minutes(seconds) * SecondsPerMinute + r2 % SecondsPerMinute;
  }

  /** Under a minute the text is `0m`. */
  lemma UnderAMinute(seconds: nat)
    requires seconds < 60
    ensures FormatUptime(seconds) == "0m"
  {
    assert Days(seconds) == 0 && Hours(seconds) == 0 && Minutes(seconds) == 0;
  }

  // A reader for the uptime text, to show that it says what it means.

  /** One `<number><unit>` group. */
  datatype Reading = Reading(value: nat, unit: char)

  /** The length of the run of digits `s` starts with. */
  function DigitRun(s: string): (k: nat)
    ensures k <= |s|
    ensures forall i :: 0 <= i < k ==> IsDigit(s[i])
    ensures k < |s| ==> !IsDigit(s[k])
  {
    if s == [] || !IsDigit(s[0]) then 0 else 1 + DigitRun(s[1..])
  }

  /** Reads one `<digits><unit>` group at the start of `s`; returns it
      with the text after it. */
  function ReadGroup(s: string): (r: Option<(Reading, string)>)
    ensures r.Some? ==> |r.value.1| < |s|
  {
    var k := DigitRun(s);
    if k == 0 || k == |s| then None
    else
      var digits := s[..k];
      assert AllDigits(digits);
      Some((Reading(ParseDecimal(digits), s[k]), s[k + 1..]))
  }

  /** Reads groups separated by single spaces; `None` on anything else. */
  function ReadUptime(s: string): Option<seq<Reading>>
    decreases |s|
  {
    match ReadGroup(s)
    case None => None
    case Some((group, rest)) =>
      if rest == [] then Some([group])
      else if rest[0] != ' ' then None
      else match ReadUptime(rest[1..])
        case None => None
        case Some(groups) => Some([group] + groups)
  }

  /** The seconds a reading stands for. */
  function UnitSeconds(u: char): nat {
    if u == 'd' then SecondsPerDay else if u == 'h' then SecondsPerHour else if u == 'm' then SecondsPerMinute else 0
  }

  function Total(rs: seq<Reading>): nat {
    if rs == [] then 0 else rs[0].value * UnitSeconds(rs[0].unit) + Total(rs[1..])
  }

  lemma {:induction false} DigitRunOfNumber(d: string, rest: string)
    requires AllDigits(d)
    requires rest == [] || !IsDigit(rest[0])
    ensures DigitRun(d + rest) == |d|
  {
    if d == [] {
      assert d + rest == rest;
    } else {
      assert (d + rest)[1..] == d[1..] + rest;
      DigitRunOfNumber(d[1..], rest);
    }
  }

  /** Digits followed by a unit read as one group. */
  lemma ReadGroupOfDigits(d: string, u: char, rest: string)
    requires d != [] && AllDigits(d) && !IsDigit(u)
    ensures ReadGroup(d + [u] + rest) == Some((Reading(ParseDecimal(d), u), rest))
  {
    var s := d + [u] + rest;
    assert s == d + ([u] + rest);
    DigitRunOfNumber(d, [u] + rest);
    assert s[..|d|] == d;
    assert s[|d|] == u;
    assert s[|d| + 1..] == rest;
  }

  /** A final group of digits and a unit reads back as its value and unit. */
  lemma ReadLastDigits(d: string, u: char)
    requires d != [] && AllDigits(d) && !IsDigit(u)
    ensures ReadUptime(d + [u]) == Some([Reading(ParseDecimal(d), u)])
  {
    ReadGroupOfDigits(d, u, []);
    assert d + [u] + [] == d + [u];
  }

  /** Digits and a unit followed by a space and more text read back as one
      group followed by what that text reads as. */
  lemma ReadDigitsThen(d: string, u: char, t: string)
    requires d != [] && AllDigits(d) && !IsDigit(u)
    requires ReadUptime(t).Some?
    ensures ReadUptime(d + [u] + " " + t) == Some([Reading(ParseDecimal(d), u)] + ReadUptime(t).value)
  {
    var rest := " " + t;
    ReadGroupOfDigits(d, u, rest);
    assert d + [u] + " " + t == d + [u] + rest;
    assert rest[1..] == t;
  }

  /** A final group reads back as its number and unit. */
  lemma ReadLastGroup(n: nat, u: char)
    requires !IsDigit(u)
    ensures ReadUptime(Group(n, u)) == Some([Reading(n, u)])
  {
    ReadLastDigits(NatToString(n), u);
    ParseNatToString(n);
  }

  /** A group followed by a space and more text reads back as its number
      and unit followed by what that text reads as. */
  lemma ReadGroupThen(n: nat, u: char, t: string)
    requires !IsDigit(u)
    requires ReadUptime(t).Some?
    ensures ReadUptime(Group(n, u) + " " + t) == Some([Reading(n, u)] + ReadUptime(t).value)
  {
    ReadDigitsThen(NatToString(n), u, t);
    ParseNatToString(n);
  }

  /** The groups the uptime text is meant to show. */
  function UptimeReadings(seconds: nat): seq<Reading> {
    var d, h, m := Days(seconds), Hours(seconds), Minutes(seconds);
    if d > 0 then [Reading(d, 'd'), Reading(h, 'h'), Reading(m, 'm')]
    else if h > 0 then [Reading(h, 'h'), Reading(m, 'm')]
    else [Reading(m, 'm')]
  }

  lemma ReadHoursAndMinutes(h: nat, m: nat)
    ensures ReadUptime(Group(h, 'h') + " " + Group(m, 'm')) == Some([Reading(h, 'h'), Reading(m, 'm')])
  {
    ReadLastGroup(m, 'm');
    ReadGroupThen(h, 'h', Group(m, 'm'));
    assert [Reading(h, 'h')] + [Reading(m, 'm')] == [Reading(h, 'h'), Reading(m, 'm')];
  }

  lemma ReadDaysHoursAndMinutes(d: nat, h: nat, m: nat)
    ensures ReadUptime(Group(d, 'd') + " " + (Group(h, 'h') + " " + Group(m, 'm')))
            == Some([Reading(d, 'd'), Reading(h, 'h'), Reading(m, 'm')])
  {
    ReadHoursAndMinutes(h, m);
    ReadGroupThen(d, 'd', Group(h, 'h') + " " + Group(m, 'm'));
    assert [Reading(d, 'd')] + [Reading(h, 'h'), Reading(m, 'm')]
           == [Reading(d, 'd'), Reading(h, 'h'), Reading(m, 'm')];
  }

  /** The uptime text reads back as the components it was built from, with
      the larger units left out while they are zero. */
  lemma UptimeReadsBack(seconds: nat)
    ensures ReadUptime(FormatUptime(seconds)) == Some(UptimeReadings(seconds))
  {
    var d, h, m := Days(seconds), Hours(seconds), Minutes(seconds);
    var text := FormatUptime(seconds);
    if d > 0 {
      var gd, gh, gm := Group(d, 'd'), Group(h, 'h'), Group(m, 'm');
      assert text == gd + " " + (gh + " " + gm);
      ReadDaysHoursAndMinutes(d, h, m);
    } else if h > 0 {
      assert text == Group(h, 'h') + " " + Group(m, 'm');
      ReadHoursAndMinutes(h, m);
    } else {
      assert text == Group(m, 'm');
      ReadLastGroup(m, 'm');
    }
  }

  /** The time the readings of the uptime text stand for. */
  lemma {:induction false} TotalOfReadings(seconds: nat)
    ensures Total(UptimeReadings(seconds))
            == Days(seconds) * SecondsPerDay + Hours(seconds) * SecondsPerHour + Minutes(seconds) * SecondsPerMinute
  {
    var d, h, m := Days(seconds), Hours(seconds), Minutes(seconds);
    var last := [Reading(m, 'm')];
    assert Total(last) == m * SecondsPerMinute by {
      assert last[1..] == [];
    }
    var two := [Reading(h, 'h')] + last;
    assert Total(two) == h * SecondsPerHour + m * SecondsPerMinute by {
      assert two[1..] == last;
    }
    var three := [Reading(d, 'd')] + two;
    assert Total(three) == d * SecondsPerDay + h * SecondsPerHour + m * SecondsPerMinute by {
      assert three[1..] == two;
    }
    assert UptimeReadings(seconds) == (if d > 0 then three else if h > 0 then two else last);
  }

  /** The uptime text is exact to the minute: the time it states is at most
      the input and less than a minute short of it. */
  lemma UptimeTextWithinAMinute(seconds: nat)
    ensures ReadUptime(FormatUptime(seconds)).Some?
    ensures var stated := Total(ReadUptime(FormatUptime(seconds)).value);
            stated <= seconds < stated + SecondsPerMinute
  {
    UptimeReadsBack(seconds);
    UptimeDecomposition(seconds);
    TotalOfReadings(seconds);
  }
}
