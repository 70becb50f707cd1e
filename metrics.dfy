/**
 * The HTTP metrics middleware of `routes/health.js`: route normalisation for
 * the `route` label (two global regex replaces that turn UUID and numeric
 * path segments into `/:id`), the `/api/metrics` skip, and the in-progress
 * gauge, request counter and duration histogram it updates around each
 * request.
 *
 * The Prometheus client is modelled by its observable state: a gauge value
 * per `method` label, a counter per label set, and the sequence of
 * histogram observations. Durations are an input in nanoseconds.
 */
module Metrics {
  import opened Wrappers
  import opened Js

  // ---------------------------------------------------------------------
  // Route normalisation
  // ---------------------------------------------------------------------

  /** `[0-9a-f]` under the `i` flag. */
  predicate IsHex(c: char) {
    ('0' <= c <= '9') || ('a' <= c <= 'f') || ('A' <= c <= 'F')
  }

  /** The offsets of the dashes in an 8-4-4-4-12 UUID. */
  predicate IsDashOffset(i: int) {
    i == 8 || i == 13 || i == 18 || i == 23
  }

  /** `[0-9a-f]{8}-[0-9a-f]{4}-[0-9a-f]{4}-[0-9a-f]{4}-[0-9a-f]{12}`, case-insensitive. */
  predicate IsUuid(u: string) {
    |u| == 36 && forall i :: 0 <= i < 36 ==> if IsDashOffset(i) then u[i] == '-' else IsHex(u[i])
  }

  /** The UUID pattern, `/`-prefixed, matches at the start of `s`. */
  predicate UuidSegmentAt(s: string) {
    |s| >= 37 && s[0] == '/' && IsUuid(s[1..37])
  }

  /**
   * The first global replace: scanning left to right, each `/`-prefixed
   * UUID becomes `/:id` and the scan resumes after it.
   */
  function ReplaceUuids(s: string): string
    decreases |s|
  {
    if |s| == 0 then ""
    else if UuidSegmentAt(s) then "/:id" + ReplaceUuids(s[37..])
    else [s[0]] + ReplaceUuids(s[1..])
  }

  /**
   * The second global replace: each `/` followed by a maximal run of
   * decimal digits becomes `/:id`.
   */
  function ReplaceNumbers(s: string): string
    decreases |s|
  {
    if |s| == 0 then ""
    else if s[0] == '/' && DigitRun(s[1..]) > 0 then "/:id" + ReplaceNumbers(s[1 + DigitRun(s[1..])..])
    else [s[0]] + ReplaceNumbers(s[1..])
  }

  /** The `route` label: UUIDs first, then numbers. */
  function NormalizeRoute(route: string): string {
    ReplaceNumbers(ReplaceUuids(route))
  }

  /** No `/` in `s` is immediately followed by a decimal digit. */
  predicate NoNumericSegment(s: string) {
    forall i :: 0 <= i < |s| - 1 && s[i] == '/' ==> !IsDigit(s[i + 1])
  }

  /** The number pass keeps the first character of its input, and only the empty text becomes empty. */
  lemma ReplaceNumbersHead(s: string)
    ensures |ReplaceNumbers(s)| > 0 <==> |s| > 0
    ensures |s| > 0 ==> ReplaceNumbers(s)[0] == s[0]
  {
  }

  /** Two texts without numeric segments join into one, unless the first ends in `/` and the second starts with a digit. */
  lemma NoNumericSegmentConcat(p: string, t: string)
    requires NoNumericSegment(p) && NoNumericSegment(t)
    requires |p| > 0 && p[|p| - 1] == '/' && |t| > 0 ==> !IsDigit(t[0])
    ensures NoNumericSegment(p + t)
  {
    var r := p + t;
    forall i | 0 <= i < |r| - 1 && r[i] == '/' ensures !IsDigit(r[i + 1]) {
      if i >= |p| {
        assert r[i] == t[i - |p|] && r[i + 1] == t[i - |p| + 1];
      } else if i < |p| - 1 {
        assert r[i] == p[i] && r[i + 1] == p[i + 1];
      }
    }
  }

  /** After the number pass, no `/` is immediately followed by a digit. */
  lemma {:induction false} ReplaceNumbersClears(s: string)
    ensures NoNumericSegment(ReplaceNumbers(s))
    decreases |s|
  {
    if |s| > 0 {
      var k := DigitRun(s[1..]);
      if s[0] == '/' && k > 0 {
        var rest := s[1 + k..];
        ReplaceNumbersClears(rest);
        ReplaceNumbersHead(rest);
        NoNumericSegmentConcat("/:id", ReplaceNumbers(rest));
      } else {
        ReplaceNumbersClears(s[1..]);
        ReplaceNumbersHead(s[1..]);
        assert s[0] == '/' ==> s[1..] == [] || !IsDigit(s[1..][0]);
        NoNumericSegmentConcat([s[0]], ReplaceNumbers(s[1..]));
      }
    }
  }

  /** A text that already has no numeric segment passes the number pass unchanged. */
  lemma {:induction false} ReplaceNumbersNoop(s: string)
    requires NoNumericSegment(s)
    ensures ReplaceNumbers(s) == s
    decreases |s|
  {
    if |s| > 0 {
      if s[0] == '/' && |s| > 1 {
        assert !IsDigit(s[1]);
      }
      assert NoNumericSegment(s[1..]) by {
        forall i | 0 <= i < |s[1..]| - 1 && s[1..][i] == '/' ensures !IsDigit(s[1..][i + 1]) {
          assert s[i + 1] == '/';
        }
      }
      ReplaceNumbersNoop(s[1..]);
    }
  }

  /** The number pass is idempotent. */
  lemma ReplaceNumbersIdempotent(s: string)
    ensures ReplaceNumbers(ReplaceNumbers(s)) == ReplaceNumbers(s)
  {
    ReplaceNumbersClears(s);
    ReplaceNumbersNoop(ReplaceNumbers(s));
  }

  /** A normalised route has no `/` immediately followed by a digit. */
  lemma NormalizedRouteClear(route: string)
    ensures NoNumericSegment(NormalizeRoute(route))
  {
    ReplaceNumbersClears(ReplaceUuids(route));
  }

  /** A `/`-prefixed UUID at the start of a text becomes `/:id`, and the scan goes on after it. */
  lemma ReplaceUuidsLeading(u: string, rest: string)
    requires IsUuid(u)
    ensures ReplaceUuids("/" + u + rest) == "/:id" + ReplaceUuids(rest)
  {
    var s := "/" + u + rest;
    assert s[1..37] == u;
    assert s[37..] == rest;
  }

  /** A UUID match at the start of `p` is still one when text follows. */
  lemma UuidSegmentExtends(p: string, x: string)
    requires UuidSegmentAt(p)
    ensures UuidSegmentAt(p + x)
  {
    assert (p + x)[1..37] == p[1..37];
  }

  /** A UUID match cannot reach across a `/`: one that starts in `p` ends inside `p`. */
  lemma UuidSegmentStaysBefore(p: string, x: string)
    requires |p| > 0 && |x| > 0 && x[0] == '/' && UuidSegmentAt(p + x)
    ensures |p| >= 37
  {
    assert (p + x)[|p|] == '/';
  }

  /**
   * The UUID pass splits at a `/`: no match spans the seam, so the two sides
   * are rewritten on their own.
   */
  lemma {:induction false} ReplaceUuidsSplit(p: string, x: string)
    requires |x| > 0 && x[0] == '/'
    ensures ReplaceUuids(p + x) == ReplaceUuids(p) + ReplaceUuids(x)
    decreases |p|
  {
    var s := p + x;
    if |p| == 0 {
      assert s == x;
    } else if UuidSegmentAt(s) {
      UuidSegmentStaysBefore(p, x);
      assert s[..37] == p[..37];
      assert UuidSegmentAt(p);
      assert s[37..] == p[37..] + x;
      ReplaceUuidsSplit(p[37..], x);
    } else {
      if UuidSegmentAt(p) { UuidSegmentExtends(p, x); }
      assert s[1..] == p[1..] + x;
      ReplaceUuidsSplit(p[1..], x);
    }
  }

  /**
   * The number pass splits at a `/`: a digit run stops at the `/`, so the
   * two sides are rewritten on their own.
   */
  lemma {:induction false} ReplaceNumbersSplit(p: string, x: string)
    requires |x| > 0 && x[0] == '/'
    ensures ReplaceNumbers(p + x) == ReplaceNumbers(p) + ReplaceNumbers(x)
    decreases |p|, 1
  {
    if |p| == 0 {
      assert p + x == x;
    } else if p[0] == '/' && DigitRun(p[1..]) > 0 {
      NumberFirstSplit(p, x);
    } else {
      CharFirstSplit(p, x);
    }
  }

  /** The split when `p` starts with a numeric segment. */
  lemma {:induction false} NumberFirstSplit(p: string, x: string)
    requires |x| > 0 && x[0] == '/'
    requires |p| > 0 && p[0] == '/' && DigitRun(p[1..]) > 0
    ensures ReplaceNumbers(p + x) == ReplaceNumbers(p) + ReplaceNumbers(x)
    decreases |p|, 0
  {
    var k := DigitRun(p[1..]);
    NumberSegmentPast(p, x);
    ReplaceNumbersSplit(p[1 + k..], x);
  }

  /** A numeric segment of `p` ends before `x`. */
  lemma NumberSegmentPast(p: string, x: string)
    requires |x| > 0 && x[0] == '/'
    requires |p| > 0 && p[0] == '/' && DigitRun(p[1..]) > 0
    ensures var k := DigitRun(p[1..]);
      ReplaceNumbers(p + x) == "/:id" + ReplaceNumbers(p[1 + k..] + x)
  {
    var s := p + x;
    var k := DigitRun(p[1..]);
    assert s[1..] == p[1..] + x;
    DigitRunConcat(p[1..], x);
    assert s[1 + k..] == p[1 + k..] + x;
  }

  /** The split when the first character of `p` is copied. */
  lemma {:induction false} CharFirstSplit(p: string, x: string)
    requires |x| > 0 && x[0] == '/'
    requires |p| > 0 && !(p[0] == '/' && DigitRun(p[1..]) > 0)
    ensures ReplaceNumbers(p + x) == ReplaceNumbers(p) + ReplaceNumbers(x)
    decreases |p|, 0
  {
    CharPast(p, x);
    ReplaceNumbersSplit(p[1..], x);
  }

  /** A copied first character of `p` is copied in `p + x` too. */
  lemma CharPast(p: string, x: string)
    requires |x| > 0 && x[0] == '/'
    requires |p| > 0 && !(p[0] == '/' && DigitRun(p[1..]) > 0)
    ensures ReplaceNumbers(p + x) == [p[0]] + ReplaceNumbers(p[1..] + x)
  {
    var s := p + x;
    assert s[1..] == p[1..] + x;
    DigitRunConcat(p[1..], x);
  }

  /**
   * A UUID segment anywhere in the route becomes `/:id`, as the global
   * replace rewrites every match; what comes before and after it is
   * normalised on its own.
   */
  lemma UuidSegmentNormalized(p: string, u: string, rest: string)
    requires IsUuid(u)
    ensures ReplaceUuids(p + "/" + u + rest) == ReplaceUuids(p) + "/:id" + ReplaceUuids(rest)
    ensures NormalizeRoute(p + "/" + u + rest) == NormalizeRoute(p) + "/:id" + NormalizeRoute(rest)
  {
    var x := "/" + u + rest;
    assert p + "/" + u + rest == p + x;
    ReplaceUuidsSplit(p, x);
    ReplaceUuidsLeading(u, rest);
    var m := "/:id" + ReplaceUuids(rest);
    assert ReplaceUuids(p) + "/:id" + ReplaceUuids(rest) == ReplaceUuids(p) + m;
    ReplaceNumbersSplit(ReplaceUuids(p), m);
    IdMarkerKept(ReplaceUuids(rest));
  }

  /** The number pass copies a character other than `/`. */
  lemma ReplaceNumbersCons(c: char, x: string)
    requires c != '/'
    ensures ReplaceNumbers([c] + x) == [c] + ReplaceNumbers(x)
  {
    assert ([c] + x)[1..] == x;
  }

  /** The number pass copies a `/` that no digit follows. */
  lemma ReplaceNumbersSlash(x: string)
    requires |x| > 0 && !IsDigit(x[0])
    ensures ReplaceNumbers(['/'] + x) == ['/'] + ReplaceNumbers(x)
  {
    assert (['/'] + x)[1..] == x;
  }

  /** `/:id` followed by a text, one character at a time. */
  lemma MarkerChars(t: string)
    ensures "/:id" + t == ['/'] + ([':'] + (['i'] + (['d'] + t)))
  {
  }

  /** The number pass leaves an `/:id` marker in place. */
  lemma IdMarkerKept(t: string)
    ensures ReplaceNumbers("/:id" + t) == "/:id" + ReplaceNumbers(t)
  {
    var d := ['d'] + t;
    var id := ['i'] + d;
    var cid := [':'] + id;
    MarkerChars(t);
    MarkerChars(ReplaceNumbers(t));
    ReplaceNumbersCons('d', t);
    ReplaceNumbersCons('i', d);
    ReplaceNumbersCons(':', id);
    ReplaceNumbersSlash(cid);
  }

  /**
   * The order of the passes matters: a UUID that starts with a digit is one
   * `/:id` after normalisation, but the number pass alone would turn only
   * its leading digits into `/:id` and keep the rest.
   */
  lemma UuidBeforeNumbers(u: string)
    requires IsUuid(u) && IsDigit(u[0])
    ensures NormalizeRoute("/" + u) == "/:id"
    ensures ReplaceNumbers("/" + u) != "/:id"
  {
    UuidSegmentNormalized("", u, "");
    assert "" + "/" + u + "" == "/" + u;
    var s := "/" + u;
    assert s[1..] == u;
    var k := DigitRun(u);
    assert !IsDigit(u[8]);
    assert k <= 8;
    ReplaceNumbersHead(s[1 + k..]);
  }

  /** `req.route?.path || req.path`: the matched route pattern when there is a non-empty one, else the raw path. */
  function RouteOf(routePath: Option<string>, path: string): (r: string)
    ensures routePath.Some? && routePath.value != "" ==> r == routePath.value
    ensures routePath.None? || routePath.value == "" ==> r == path
  {
    match routePath
    case Some(p) => if p != "" then p else path
    case None => path
  }

  // ---------------------------------------------------------------------
  // Counters
  // ---------------------------------------------------------------------

  /** The label set of the counter and the histogram. */
  datatype Labels = Labels(httpMethod: string, route: string, statusCode: nat)

  /** One histogram observation. */
  datatype Observation = Observation(labels: Labels, nanos: nat)

  /** A gauge's value for a label; an unseen label reads 0. */
  function GaugeAt(g: map<string, int>, key: string): int {
    if key in g then g[key] else 0
  }

  /** `gauge.inc({ method })` */
  function Inc(g: map<string, int>, key: string): map<string, int> {
    g[key := GaugeAt(g, key) + 1]
  }

  /** `gauge.dec({ method })` */
  function Dec(g: map<string, int>, key: string): map<string, int> {
    g[key := GaugeAt(g, key) - 1]
  }

  /** A counter's value for a label set; an unseen one reads 0. */
  function CountAt(c: map<Labels, nat>, key: Labels): nat {
    if key in c then c[key] else 0
  }

  /** An increment followed by a decrement of the same label leaves every reading of the gauge as it was. */
  lemma IncDecNetZero(g: map<string, int>, key: string)
    ensures forall k :: GaugeAt(Dec(Inc(g, key), key), k) == GaugeAt(g, k)
    ensures forall k :: k != key ==> GaugeAt(Inc(g, key), k) == GaugeAt(g, k)
    ensures GaugeAt(Inc(g, key), key) == GaugeAt(g, key) + 1
  {
  }

  /** The request path that the middleware leaves alone. */
  const MetricsPath := "/api/metrics"

  /** The middleware's metric state. */
  class HttpMetrics {
    /** `http_requests_in_progress`, by method. */
    var inProgress: map<string, int>
    /** `http_requests_total`, by label set. */
    var total: map<Labels, nat>
    /** `http_request_duration_seconds`, as the observations made. */
    var observations: seq<Observation>
    /** The methods of the requests begun but not yet finished. */
    ghost var open: multiset<string>

    /** The gauge counts exactly the requests in flight, per method. */
    ghost predicate Valid()
      reads this
    {
      forall m :: GaugeAt(inProgress, m) == open[m]
    }

    constructor ()
      ensures Valid()
      ensures inProgress == map[] && total == map[] && observations == [] && open == multiset{}
    {
      inProgress := map[];
      total := map[];
      observations := [];
      open := multiset{};
    }

    /** Request start: the metrics endpoint itself is skipped; any other request bumps the gauge for its method. */
    method Begin(httpMethod: string, path: string) returns (tracked: bool)
      requires Valid()
      modifies this
      ensures Valid()
      ensures tracked <==> path != MetricsPath
      ensures inProgress == if tracked then Inc(old(inProgress), httpMethod) else old(inProgress)
      ensures open == if tracked then old(open) + multiset{httpMethod} else old(open)
      ensures total == old(total) && observations == old(observations)
    {
      if path == MetricsPath {
        return false;
      }
      inProgress := Inc(inProgress, httpMethod);
      open := open + multiset{httpMethod};
      return true;
    }

    /**
     * The `finish` callback of a tracked request: observe its duration and
     * count it under (method, normalised route, status code), then lower the
     * gauge for its method.
     */
    method Finish(httpMethod: string, path: string, routePath: Option<string>, statusCode: nat, nanos: nat)
      returns (labels: Labels)
      requires Valid() && open[httpMethod] > 0
      modifies this
      ensures Valid()
      ensures labels == Labels(httpMethod, NormalizeRoute(RouteOf(routePath, path)), statusCode)
      ensures observations == old(observations) + [Observation(labels, nanos)]
      ensures total == old(total)[labels := CountAt(old(total), labels) + 1]
      ensures inProgress == Dec(old(inProgress), httpMethod)
      ensures open == old(open) - multiset{httpMethod}
    {
      var route := RouteOf(routePath, path);
      route := ReplaceUuids(route);
      route := ReplaceNumbers(route);
      labels := Labels(httpMethod, route, statusCode);
      observations := observations + [Observation(labels, nanos)];
      total := total[labels := CountAt(total, labels) + 1];
      inProgress := Dec(inProgress, httpMethod);
      open := open - multiset{httpMethod};
    }

    /**
     * One request through the middleware, from start to finish: the gauge
     * ends where it began, a tracked request is counted and observed once,
     * and the metrics endpoint changes nothing.
     */
    method Request(httpMethod: string, path: string, routePath: Option<string>, statusCode: nat, nanos: nat)
      requires Valid()
      modifies this
      ensures Valid()
      ensures forall m :: GaugeAt(inProgress, m) == GaugeAt(old(inProgress), m)
      ensures open == old(open)
      ensures path == MetricsPath ==> total == old(total) && observations == old(observations)
      ensures path != MetricsPath ==>
        var labels := Labels(httpMethod, NormalizeRoute(RouteOf(routePath, path)), statusCode);
        && total == old(total)[labels := CountAt(old(total), labels) + 1]
        && observations == old(observations) + [Observation(labels, nanos)]
    {
      var tracked := Begin(httpMethod, path);
      if tracked {
        var _ := Finish(httpMethod, path, routePath, statusCode, nanos);
        IncDecNetZero(old(inProgress), httpMethod);
      }
    }
  }
}
