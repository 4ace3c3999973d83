/**
 * The user counter: one HEAD request to the acceptable-ads subscription's
 * (randomised) url, identifying the client, the calling browser, the last
 * server timestamp recorded and a ping count that saturates at 4. A 200
 * response records the server's "Date" (or, in a release build when that
 * header does not parse, the client clock) as a `yyyyMMddHHmm` number and
 * bumps the count while it is below 4. The clock, the build type, the
 * random mirror digit and the exchange are parameters.
 */
module UserCounting {
  import opened Wrappers
  import opened Text
  import opened Subscriptions
  import opened Downloader

  const MaxUserCountingCount: int := 4

  /** The browser on whose behalf the ping is sent. */
  datatype CallingApp = CallingApp(applicationName: string, applicationVersion: string)

  /** A GMT instant, to the minute: the fields the stored timestamp keeps. */
  datatype DateTime = DateTime(year: nat, month: nat, day: nat, hour: nat, minute: nat)

  predicate ValidDateTime(t: DateTime) {
    1 <= t.month <= 12 && 1 <= t.day <= 31 && t.hour < 24 && t.minute < 60
  }

  /** The instants a date parser or a calendar can produce. */
  type GmtMinute = t: DateTime | ValidDateTime(t) witness DateTime(1970, 1, 1, 0, 0)

  /**
   * The "Date" header of the response (section 7.1.1.2 of RFC 7231): absent,
   * present but not in the IMF-fixdate form the parser expects, or parsed.
   */
  datatype DateHeader = DateMissing | DateUnparsable | DateParsed(at: GmtMinute)

  /** What the HEAD call produced: an exception, or a status code and its "Date" header. */
  datatype PingExchange = PingThrew | PingResponded(code: int, date: DateHeader)

  /**
   * How `count` ends: `CountUserResult.Success`, `CountUserResult.Failed`, or
   * a `ParseException` thrown out of `count` (debug builds only).
   */
  datatype CountOutcome = CountSuccess | CountFailed | ParseExceptionEscapes

  /** The two values `count` keeps in the core repository. */
  datatype CounterState = CounterState(lastUserCountingResponse: int, userCountingCount: int)

  /* ---- The stored timestamp: `SimpleDateFormat("yyyyMMddHHmm")` then `toLong()` ---- */

  function Pow10(n: nat): (r: nat)
    ensures r >= 1
  {
    if n == 0 then 1 else 10 * Pow10(n - 1)
  }

  function Zeros(n: nat): (s: string)
    ensures |s| == n && forall i :: 0 <= i < n ==> s[i] == '0'
  {
    seq(n, _ => '0')
  }

  /** A number printed with at least `width` digits, zero-padded on the left. */
  function ZeroPadded(n: nat, width: nat): (s: string)
    ensures AllDigits(s) && |s| >= width
    ensures ParseNat(s) == n
  {
    var d := NatToDecimal(n);
    NatRoundTrip(n);
    var z := if |d| < width then Zeros(width - |d|) else [];
    ParseNatAppend(z, d);
    ParseNatZeros(|z|);
    assert z == Zeros(|z|);
    z + d
  }

  /** A number below 10^w has at most `w` decimal digits. */
  lemma {:induction false} DecimalLength(n: nat, w: nat)
    requires 1 <= w && n < Pow10(w)
    ensures |NatToDecimal(n)| <= w
    decreases w
  {
    if n >= 10 {
      assert w >= 2;
      assert n / 10 < Pow10(w - 1);
      DecimalLength(n / 10, w - 1);
    }
  }

  /** A field below 10^w is printed with exactly `w` digits. */
  lemma ZeroPaddedExact(n: nat, w: nat)
    requires 1 <= w && n < Pow10(w)
    ensures |ZeroPadded(n, w)| == w
  {
    DecimalLength(n, w);
  }

  /** Reading digits: the digits of `a` shift left by the length of `b`. */
  lemma {:induction false} ParseNatAppend(a: string, b: string)
    requires AllDigits(a) && AllDigits(b)
    ensures AllDigits(a + b)
    ensures ParseNat(a + b) == ParseNat(a) * Pow10(|b|) + ParseNat(b)
    decreases |b|
  {
    if b == [] {
      assert a + b == a;
    } else {
      var b' := b[..|b| - 1];
      var d := b[|b| - 1] as int - '0' as int;
      assert (a + b)[..|a + b| - 1] == a + b';
      assert (a + b)[|a + b| - 1] == b[|b| - 1];
      ParseNatAppend(a, b');
      var x, p, y := ParseNat(a), Pow10(|b'|), ParseNat(b');
      assert ParseNat(a + b) == (x * p + y) * 10 + d;
      assert ParseNat(b) == y * 10 + d;
      assert Pow10(|b|) == p * 10;
      ShiftDigit(x, p, y, d);
    }
  }

  /** Appending one digit multiplies what came before by ten. */
  lemma ShiftDigit(x: int, p: int, y: int, d: int)
    ensures (x * p + y) * 10 + d == x * (p * 10) + (y * 10 + d)
  {
  }

  lemma {:induction false} ParseNatZeros(n: nat)
    ensures ParseNat(Zeros(n)) == 0
  {
    if n > 0 {
      assert Zeros(n)[..n - 1] == Zeros(n - 1);
      ParseNatZeros(n - 1);
    }
  }

  /**
   * The text `lastUserCountingResponseFormat` produces in the GMT zone: only
   * digits, twelve of them up to the year 9999.
   */
  function FormatCompact(t: GmtMinute): (r: string)
    ensures AllDigits(r) && |r| >= 12
    ensures t.year < 10_000 ==> |r| == 12
  {
    assert Pow10(2) == 100 && Pow10(4) == 10_000;
    ZeroPaddedExact(t.month, 2);
    ZeroPaddedExact(t.day, 2);
    ZeroPaddedExact(t.hour, 2);
    ZeroPaddedExact(t.minute, 2);
    var r := ZeroPadded(t.year, 4) + (ZeroPadded(t.month, 2) + (ZeroPadded(t.day, 2)
             + (ZeroPadded(t.hour, 2) + ZeroPadded(t.minute, 2))));
    if t.year < 10_000 then ZeroPaddedExact(t.year, 4); r else r
  }

  /**
   * `newLastVersion.toLong()`: the formatted text read back as a number,
   * which is the fields laid out as decimal digit groups.
   */
  function TimestampOf(t: GmtMinute): (r: nat)
    ensures r == t.year * 100_000_000 + t.month * 1_000_000 + t.day * 10_000 + t.hour * 100 + t.minute
  {
    FormatValue(t);
    ParseNat(FormatCompact(t))
  }

  /** Reading five digit groups, the last four of width two, back as one number. */
  lemma ParseFields(y: string, mo: string, d: string, h: string, mi: string)
    requires AllDigits(y) && AllDigits(mo) && AllDigits(d) && AllDigits(h) && AllDigits(mi)
    requires |mo| == 2 && |d| == 2 && |h| == 2 && |mi| == 2
    ensures AllDigits(y + (mo + (d + (h + mi))))
    ensures ParseNat(y + (mo + (d + (h + mi))))
            == ParseNat(y) * 100_000_000 + ParseNat(mo) * 1_000_000 + ParseNat(d) * 10_000 + ParseNat(h) * 100 + ParseNat(mi)
  {
    var hm := h + mi;
    ParseNatAppend(h, mi);
    assert Pow10(2) == 100;
    assert ParseNat(hm) == ParseNat(h) * 100 + ParseNat(mi);
    var dhm := d + hm;
    ParseNatAppend(d, hm);
    assert Pow10(4) == 10_000;
    assert ParseNat(dhm) == ParseNat(d) * 10_000 + ParseNat(h) * 100 + ParseNat(mi);
    var rest := mo + dhm;
    ParseNatAppend(mo, dhm);
    assert Pow10(6) == 1_000_000;
    assert ParseNat(rest) == ParseNat(mo) * 1_000_000 + ParseNat(d) * 10_000 + ParseNat(h) * 100 + ParseNat(mi);
    ParseNatAppend(y, rest);
    assert Pow10(8) == 100_000_000;
  }

  lemma FormatValue(t: GmtMinute)
    ensures AllDigits(FormatCompact(t))
    ensures ParseNat(FormatCompact(t))
            == t.year * 100_000_000 + t.month * 1_000_000 + t.day * 10_000 + t.hour * 100 + t.minute
  {
    assert Pow10(2) == 100;
    ZeroPaddedExact(t.month, 2);
    ZeroPaddedExact(t.day, 2);
    ZeroPaddedExact(t.hour, 2);
    ZeroPaddedExact(t.minute, 2);
    ParseFields(ZeroPadded(t.year, 4), ZeroPadded(t.month, 2), ZeroPadded(t.day, 2),
                ZeroPadded(t.hour, 2), ZeroPadded(t.minute, 2));
  }

  /** Reads the fields back out of a stored timestamp. */
  function DecodeTimestamp(ts: nat): DateTime {
    DateTime(ts / 100_000_000, ts / 1_000_000 % 100, ts / 10_000 % 100, ts / 100 % 100, ts % 100)
  }

  /** Splitting a number at one of the digit-group boundaries of the timestamp. */
  lemma DivModSplit(q: nat, r: nat, m: nat)
    requires m == 100 || m == 10_000 || m == 1_000_000 || m == 100_000_000
    requires r < m
    ensures (q * m + r) / m == q && (q * m + r) % m == r
  {
    if m == 100 {
    } else if m == 10_000 {
    } else if m == 1_000_000 {
    } else {
    }
  }

  /** The stored number loses nothing: every field can be read back. */
  lemma TimestampRoundTrip(t: GmtMinute)
    ensures DecodeTimestamp(TimestampOf(t)) == t
  {
    var ts := TimestampOf(t);
    var r2 := t.hour * 100 + t.minute;
    var r4 := t.day * 10_000 + r2;
    var r6 := t.month * 1_000_000 + r4;
    var q2 := t.year * 1_000_000 + t.month * 10_000 + t.day * 100 + t.hour;
    var q4 := t.year * 10_000 + t.month * 100 + t.day;
    var q6 := t.year * 100 + t.month;
    assert ts == t.year * 100_000_000 + r6 == q6 * 1_000_000 + r4 == q4 * 10_000 + r2 == q2 * 100 + t.minute;
    DivModSplit(t.year, r6, 100_000_000);
    DivModSplit(q6, r4, 1_000_000);
    DivModSplit(q4, r2, 10_000);
    DivModSplit(q2, t.minute, 100);
    assert q6 == t.year * 100 + t.month && q4 == q6 * 100 + t.day && q2 == q4 * 100 + t.hour;
    DivModSplit(t.year, t.month, 100);
    DivModSplit(q6, t.day, 100);
    DivModSplit(q4, t.hour, 100);
  }

  /** Calendar order, field by field from the year down to the minute. */
  predicate Before(a: DateTime, b: DateTime) {
    a.year < b.year
    || (a.year == b.year && (a.month < b.month
    || (a.month == b.month && (a.day < b.day
    || (a.day == b.day && (a.hour < b.hour
    || (a.hour == b.hour && a.minute < b.minute)))))))
  }

  /** Comparing stored timestamps as numbers compares the instants they record. */
  lemma TimestampOrder(a: GmtMinute, b: GmtMinute)
    ensures Before(a, b) <==> TimestampOf(a) < TimestampOf(b)
  {
  }

  /* ---- The request ---- */

  const UserCountingParameters: seq<string> :=
    ["addonName", "addonVersion", "application", "applicationVersion",
     "platform", "platformVersion", "disabled", "lastVersion", "downloadCount"]

  /** The query `createUrl` builds, parameter by parameter, in the order it adds them. */
  function UserCountingQuery(app: AppInfo, callingApp: CallingApp, acceptableAdsEnabled: bool,
                             savedLastUserCountingResponse: int, currentUserCountingCount: int): (q: seq<(string, string)>)
    ensures |q| == |UserCountingParameters| && forall i :: 0 <= i < |q| ==> q[i].0 == UserCountingParameters[i]
    ensures q[0].1 == app.addonName && q[1].1 == app.addonVersion
    ensures q[2].1 == callingApp.applicationName && q[3].1 == callingApp.applicationVersion
    ensures q[4].1 == app.platform && q[5].1 == app.platformVersion
    ensures q[6].1 == (if acceptableAdsEnabled then "false" else "true")
    ensures q[7].1 == IntToDecimal(savedLastUserCountingResponse)
    ensures ParseInt(q[7].1) == Some(savedLastUserCountingResponse)
    ensures q[8].1 == "4+" <==> currentUserCountingCount >= MaxUserCountingCount
    ensures currentUserCountingCount < MaxUserCountingCount ==> ParseInt(q[8].1) == Some(currentUserCountingCount)
    ensures currentUserCountingCount < MaxUserCountingCount ==> q[8].1 == IntToDecimal(currentUserCountingCount)
  {
    [("addonName", app.addonName), ("addonVersion", app.addonVersion),
     ("application", callingApp.applicationName), ("applicationVersion", callingApp.applicationVersion),
     ("platform", app.platform), ("platformVersion", app.platformVersion),
     ("disabled", BoolToString(!acceptableAdsEnabled)),
     ("lastVersion", IntToDecimal(savedLastUserCountingResponse)),
     ("downloadCount", AsDownloadCount(currentUserCountingCount))]
  }

  /** The HEAD request to the randomised acceptable-ads url, which never names the EasyList host. */
  function UserCountingRequest(aaSubscription: Subscription, digit: nat, app: AppInfo, callingApp: CallingApp,
                               acceptableAdsEnabled: bool, s: CounterState): (r: Request)
    requires digit <= 9
    ensures r.verb == Head && r.headers == []
    ensures r.url == RandomizedUrl(aaSubscription, digit)
    ensures r.query == UserCountingQuery(app, callingApp, acceptableAdsEnabled, s.lastUserCountingResponse, s.userCountingCount)
    ensures !ContainsSub(r.url, EasylistDomain)
    ensures !ContainsSub(aaSubscription.url, EasylistDomain) ==> r.url == aaSubscription.url
  {
    Request(Head, RandomizedUrl(aaSubscription, digit),
            UserCountingQuery(app, callingApp, acceptableAdsEnabled, s.lastUserCountingResponse, s.userCountingCount), [])
  }

  /* ---- The outcome and the stored state ---- */

  /**
   * The result of `count`. A missing "Date" header makes the parser throw a
   * NullPointerException, not a ParseException, so it is caught as any other
   * exception and reported as a failure even in a debug build.
   */
  function CountOutcomeOf(exchange: PingExchange, debug: bool): (r: CountOutcome)
    ensures r == CountSuccess <==>
              exchange.PingResponded? && exchange.code == HttpOk
              && (exchange.date.DateParsed? || (exchange.date.DateUnparsable? && !debug))
    ensures r == ParseExceptionEscapes <==>
              debug && exchange.PingResponded? && exchange.code == HttpOk && exchange.date.DateUnparsable?
    ensures exchange.PingThrew? || exchange.code != HttpOk ==> r == CountFailed
  {
    match exchange
    case PingThrew => CountFailed
    case PingResponded(code, date) =>
      if code != HttpOk then CountFailed
      else match date
        case DateMissing => CountFailed
        case DateUnparsable => if debug then ParseExceptionEscapes else CountSuccess
        case DateParsed(_) => CountSuccess
  }

  /** The ping count after a successful ping: one more while below 4, never written once at 4. */
  function NextCount(count: int): (r: int)
    ensures count < MaxUserCountingCount ==> r == count + 1
    ensures count >= MaxUserCountingCount ==> r == count
  {
    if count < MaxUserCountingCount then count + 1 else count
  }

  /** The instant a successful ping records: the server's, else the client clock. */
  function RecordedInstant(exchange: PingExchange, clock: GmtMinute): (r: GmtMinute)
    ensures exchange.PingResponded? && exchange.date.DateParsed? ==> r == exchange.date.at
    ensures exchange.PingThrew? || !exchange.date.DateParsed? ==> r == clock
  {
    if exchange.PingResponded? && exchange.date.DateParsed? then exchange.date.at else clock
  }

  /** The stored state after `count`: written only when the ping succeeds. */
  function StoredAfterCount(s: CounterState, exchange: PingExchange, debug: bool, clock: GmtMinute): (r: CounterState)
    ensures CountOutcomeOf(exchange, debug) != CountSuccess ==> r == s
    ensures CountOutcomeOf(exchange, debug) == CountSuccess ==>
              r.lastUserCountingResponse == TimestampOf(RecordedInstant(exchange, clock))
    ensures s.userCountingCount <= r.userCountingCount <= s.userCountingCount + 1
    ensures r.userCountingCount != s.userCountingCount <==>
              CountOutcomeOf(exchange, debug) == CountSuccess && s.userCountingCount < MaxUserCountingCount
  {
    if CountOutcomeOf(exchange, debug) == CountSuccess then
      CounterState(TimestampOf(RecordedInstant(exchange, clock)), NextCount(s.userCountingCount))
    else s
  }

  /** A count that starts at most 4 stays at most 4. */
  lemma CountNeverExceedsMax(s: CounterState, exchange: PingExchange, debug: bool, clock: GmtMinute)
    requires s.userCountingCount <= MaxUserCountingCount
    ensures StoredAfterCount(s, exchange, debug, clock).userCountingCount <= MaxUserCountingCount
  {
  }

  /** A non-200 response or an exception writes neither the timestamp nor the count. */
  lemma FailureWritesNothing(s: CounterState, exchange: PingExchange, debug: bool, clock: GmtMinute)
    requires exchange.PingThrew? || exchange.code != HttpOk
    ensures CountOutcomeOf(exchange, debug) == CountFailed
    ensures StoredAfterCount(s, exchange, debug, clock) == s
  {
  }

  /**
   * In a release build an unparsable "Date" still succeeds and records the
   * client clock; in a debug build the ParseException escapes and nothing
   * is written.
   */
  lemma UnparsableDate(s: CounterState, debug: bool, clock: GmtMinute)
    ensures var e := PingResponded(HttpOk, DateUnparsable);
            && (!debug ==> CountOutcomeOf(e, debug) == CountSuccess
                           && StoredAfterCount(s, e, debug, clock).lastUserCountingResponse == TimestampOf(clock))
            && (debug ==> CountOutcomeOf(e, debug) == ParseExceptionEscapes && StoredAfterCount(s, e, debug, clock) == s)
  {
  }

  /** The count after `k` successful pings starting from `count`. */
  function CountAfterSuccesses(count: int, k: nat): int {
    if k == 0 then count else NextCount(CountAfterSuccesses(count, k - 1))
  }

  /** Successive successful pings count up to 4 and then stop. */
  lemma {:induction false} CountSaturates(count: int, k: nat)
    ensures CountAfterSuccesses(count, k)
            == if count >= MaxUserCountingCount then count
               else if count + k <= MaxUserCountingCount then count + k
               else MaxUserCountingCount
  {
    if k > 0 {
      CountSaturates(count, k - 1);
    }
  }

  /**
   * The counter's persisted data. `Count` is `count`: it builds the request
   * from the stored values, and on success writes the new timestamp and, only
   * while it is below 4, the incremented count.
   */
  class OkHttpUserCounter {
    var lastUserCountingResponse: int
    var userCountingCount: int

    constructor (lastUserCountingResponse: int, userCountingCount: int)
      ensures this.lastUserCountingResponse == lastUserCountingResponse
      ensures this.userCountingCount == userCountingCount
    {
      this.lastUserCountingResponse := lastUserCountingResponse;
      this.userCountingCount := userCountingCount;
    }

    function State(): CounterState
      reads this
    {
      CounterState(lastUserCountingResponse, userCountingCount)
    }

    method Count(aaSubscription: Subscription, acceptableAdsEnabled: bool, app: AppInfo, callingApp: CallingApp,
                 digit: nat, debug: bool, clock: GmtMinute, exchange: PingExchange)
      returns (result: CountOutcome, request: Request)
      requires digit <= 9
      modifies this
      ensures request == UserCountingRequest(aaSubscription, digit, app, callingApp, acceptableAdsEnabled, old(State()))
      ensures result == CountOutcomeOf(exchange, debug)
      ensures State() == StoredAfterCount(old(State()), exchange, debug, clock)
    {
      var saved := lastUserCountingResponse;
      var current := userCountingCount;
      request := UserCountingRequest(aaSubscription, digit, app, callingApp, acceptableAdsEnabled,
                                     CounterState(saved, current));
      if exchange.PingThrew? || exchange.code != HttpOk {
        return CountFailed, request;
      }
      var newLastVersion: int;
      match exchange.date {
        case DateMissing =>
          return CountFailed, request;
        case DateUnparsable =>
          if debug {
            return ParseExceptionEscapes, request;
          }
          newLastVersion := TimestampOf(clock);
        case DateParsed(at) =>
          newLastVersion := TimestampOf(at);
      }
      lastUserCountingResponse := newLastVersion;
      if current < MaxUserCountingCount {
        userCountingCount := current + 1;
      }
      result := CountSuccess;
    }
  }
}
