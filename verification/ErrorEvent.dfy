/**
 * A whole error event through `scrubEvent`. `Rest` stands for the properties of a part that the
 * scrubber neither names nor looks into.
 */
module ErrorEvent {
  import opened Wrappers
  import opened Scrub

  type Rest = string

  datatype Header = Header(name: string, value: string)

  datatype Request = Request(method_: Option<string>, headers: Option<seq<Header>>, rest: Rest)
  datatype User = User(id: Option<string>, rest: Rest)
  datatype Frame = Frame(vars: Option<Value>, rest: Rest)
  datatype Stacktrace = Stacktrace(frames: Option<seq<Frame>>, rest: Rest)
  datatype ExceptionValue = ExceptionValue(stacktrace: Option<Stacktrace>, rest: Rest)
  datatype Exception = Exception(values: Option<seq<ExceptionValue>>, rest: Rest)
  datatype Breadcrumb = Breadcrumb(data: Option<seq<Property>>, rest: Rest)

  datatype Event = Event(
    extra: Option<seq<Property>>, contexts: Option<seq<Property>>, request: Option<Request>, user: Option<User>,
    exception: Option<Exception>, breadcrumbs: Option<seq<Breadcrumb>>, rest: Rest)

  datatype RequestReport = RequestReport(method_: Option<string>, headers: seq<Header>)
  datatype BreadcrumbReport = BreadcrumbReport(data: Option<seq<Field>>, rest: Rest)

  datatype Report = Report(
    extra: Option<seq<Field>>, contexts: Option<seq<Field>>, request: Option<RequestReport>,
    userId: Option<Option<string>>, exception: Option<Exception>,
    breadcrumbs: Option<seq<BreadcrumbReport>>, rest: Rest)

  // ----- headers

  const REPORTABLE_HEADER_NAMES: set<string> :=
    {"accept", "content-length", "content-type", "x-correlation-id", "user-agent"}

  function LowerCase(s: string): (r: string)
    ensures |r| == |s|
  {
    seq(|s|, i requires 0 <= i < |s| => if 'A' <= s[i] <= 'Z' then (s[i] as int + 32) as char else s[i])
  }

  predicate Allowed(h: Header) {
    LowerCase(h.name) in REPORTABLE_HEADER_NAMES
  }

  /** The name in any case. */
  predicate InAnyCase(name: string, lower: string) {
    && |name| == |lower|
    && forall i | 0 <= i < |name| ::
         name[i] == lower[i] || ('a' <= lower[i] <= 'z' && name[i] as int == lower[i] as int - 32)
  }

  predicate NoCapital(s: string) {
    forall i | 0 <= i < |s| :: !('A' <= s[i] <= 'Z')
  }

  lemma LowerCaseIff(name: string, lower: string)
    requires NoCapital(lower)
    ensures LowerCase(name) == lower <==> InAnyCase(name, lower)
  {
    if |name| == |lower| {
      assert LowerCase(name) == lower <==> forall i | 0 <= i < |name| :: LowerCase(name)[i] == lower[i];
    }
  }

  /** A header is allowed exactly when its name is one of the five, in any case. */
  lemma AllowedIff(h: Header)
    ensures Allowed(h) <==>
      || InAnyCase(h.name, "accept") || InAnyCase(h.name, "content-length") || InAnyCase(h.name, "content-type")
      || InAnyCase(h.name, "x-correlation-id") || InAnyCase(h.name, "user-agent")
  {
    LowerCaseIff(h.name, "accept");
    LowerCaseIff(h.name, "content-length");
    LowerCaseIff(h.name, "content-type");
    LowerCaseIff(h.name, "x-correlation-id");
    LowerCaseIff(h.name, "user-agent");
  }

  function Kept(headers: seq<Header>): seq<Header> {
    if headers == [] then []
    else (if Allowed(headers[0]) then [headers[0]] else []) + Kept(headers[1..])
  }

  function FilterHeaders(headers: Option<seq<Header>>): seq<Header> {
    if headers.None? then [] else Kept(headers.value)
  }

  /** Exactly the allowlisted headers are reported, each as often as it was there. */
  lemma {:induction false} KeptHeaders(headers: seq<Header>, h: Header)
    ensures h in Kept(headers) <==> h in headers && Allowed(h)
    ensures multiset(Kept(headers))[h] == if Allowed(h) then multiset(headers)[h] else 0
  {
    if headers != [] {
      KeptHeaders(headers[1..], h);
      assert headers == [headers[0]] + headers[1..];
    }
  }

  /** One of these stands somewhere before one of those. */
  ghost predicate Before(headers: seq<Header>, h: Header, k: Header) {
    exists i, j :: 0 <= i < j < |headers| && headers[i] == h && headers[j] == k
  }

  lemma BeforeFirst(x: Header, rest: seq<Header>, h: Header, k: Header)
    ensures Before([x] + rest, h, k) <==> (x == h && k in rest) || Before(rest, h, k)
  {
    var all := [x] + rest;
    if Before(all, h, k) {
      var i, j :| 0 <= i < j < |all| && all[i] == h && all[j] == k;
      assert rest[j - 1] == k;
      assert i > 0 ==> rest[i - 1] == h;
    }
    if x == h && k in rest {
      var j :| 0 <= j < |rest| && rest[j] == k;
      assert all[0] == h && all[j + 1] == k;
    } else if Before(rest, h, k) {
      var i, j :| 0 <= i < j < |rest| && rest[i] == h && rest[j] == k;
      assert all[i + 1] == h && all[j + 1] == k;
    }
  }

  /** And in their order. */
  lemma {:induction false} KeptInOrder(headers: seq<Header>, h: Header, k: Header)
    ensures Before(Kept(headers), h, k) <==> Allowed(h) && Allowed(k) && Before(headers, h, k)
  {
    if headers != [] {
      var x, rest := headers[0], headers[1..];
      assert headers == [x] + rest;
      KeptInOrder(rest, h, k);
      KeptHeaders(rest, k);
      BeforeFirst(x, rest, h, k);
      BeforeFirst(x, Kept(rest), h, k);
      assert Kept(headers) == if Allowed(x) then [x] + Kept(rest) else Kept(rest);
    }
  }

  lemma {:induction false} KeptAppend(a: seq<Header>, h: Header)
    ensures Kept(a + [h]) == Kept(a) + (if Allowed(h) then [h] else [])
  {
    if a == [] {
      assert [h][1..] == [];
    } else {
      KeptAppend(a[1..], h);
      assert (a + [h])[1..] == a[1..] + [h];
    }
  }

  /** filtered[name] = value */
  function PutHeader(filtered: seq<Header>, h: Header): seq<Header> {
    if filtered == [] then [h]
    else if filtered[0].name == h.name then [h] + filtered[1..]
    else [filtered[0]] + PutHeader(filtered[1..], h)
  }

  lemma {:induction false} PutNewHeader(filtered: seq<Header>, h: Header)
    requires forall i | 0 <= i < |filtered| :: filtered[i].name != h.name
    ensures PutHeader(filtered, h) == filtered + [h]
  {
    if filtered != [] {
      PutNewHeader(filtered[1..], h);
    }
  }

  ghost predicate DistinctNames(headers: seq<Header>) {
    forall i, j | 0 <= i < j < |headers| :: headers[i].name != headers[j].name
  }

  method FilterHeaderRecord(headers: Option<seq<Header>>) returns (filtered: seq<Header>)
    requires headers.Some? ==> DistinctNames(headers.value)
    ensures filtered == FilterHeaders(headers)
    ensures forall h :: h in filtered <==> headers.Some? && h in headers.value && Allowed(h)
  {
    filtered := [];
    if headers.None? {
      return;
    }
    var all := headers.value;
    for i := 0 to |all|
      invariant filtered == Kept(all[..i])
    {
      assert all[..i + 1] == all[..i] + [all[i]];
      KeptAppend(all[..i], all[i]);
      if Allowed(all[i]) {
        forall k | 0 <= k < |filtered| ensures filtered[k].name != all[i].name {
          KeptHeaders(all[..i], filtered[k]);
        }
        PutNewHeader(filtered, all[i]);
        filtered := PutHeader(filtered, all[i]);
      }
    }
    assert all[..|all|] == all;
    forall h ensures h in filtered <==> h in all && Allowed(h) {
      KeptHeaders(all, h);
    }
  }

  // ----- the event

  function ScrubData(g: Graph, data: Option<seq<Property>>): Option<seq<Field>> {
    if data.None? then None else Some(ScrubFields(g, data.value, 0))
  }

  function ScrubFrame(f: Frame): Frame {
    f.(vars := None)
  }

  function ScrubExceptionValue(v: ExceptionValue): ExceptionValue {
    if v.stacktrace.None? || v.stacktrace.value.frames.None? then v
    else
      var frames := v.stacktrace.value.frames.value;
      v.(stacktrace := Some(v.stacktrace.value.(
           frames := Some(seq(|frames|, i requires 0 <= i < |frames| => ScrubFrame(frames[i]))))))
  }

  function ScrubException(e: Option<Exception>): Option<Exception> {
    if e.None? || e.value.values.None? then e
    else
      var values := e.value.values.value;
      Some(e.value.(values := Some(seq(|values|, i requires 0 <= i < |values| => ScrubExceptionValue(values[i])))))
  }

  function ScrubBreadcrumb(g: Graph, b: Breadcrumb): BreadcrumbReport {
    BreadcrumbReport(ScrubData(g, b.data), b.rest)
  }

  function ScrubBreadcrumbs(g: Graph, bs: Option<seq<Breadcrumb>>): Option<seq<BreadcrumbReport>> {
    if bs.None? then None
    else Some(seq(|bs.value|, i requires 0 <= i < |bs.value| => ScrubBreadcrumb(g, bs.value[i])))
  }

  function ScrubRequest(r: Option<Request>): Option<RequestReport> {
    if r.None? then None else Some(RequestReport(r.value.method_, FilterHeaders(r.value.headers)))
  }

  function ScrubUser(u: Option<User>): Option<Option<string>> {
    if u.None? then None else Some(u.value.id)
  }

  function ScrubEvent(g: Graph, e: Event): Report {
    Report(ScrubData(g, e.extra), ScrubData(g, e.contexts), ScrubRequest(e.request), ScrubUser(e.user),
           ScrubException(e.exception), ScrubBreadcrumbs(g, e.breadcrumbs), e.rest)
  }

  /** No object has two properties of one name. */
  ghost predicate WellFormed(e: Event) {
    && (e.extra.Some? ==> DistinctKeys(e.extra.value))
    && (e.contexts.Some? ==> DistinctKeys(e.contexts.value))
    && (e.request.Some? && e.request.value.headers.Some? ==> DistinctNames(e.request.value.headers.value))
  }

  /** The report as it is put together, part by part. */
  method Assemble(g: Graph, e: Event) returns (report: Report)
    requires WellFormed(e)
    ensures report == ScrubEvent(g, e)
  {
    report := Report(None, None, None, None, e.exception, None, e.rest);
    if e.extra.Some? {
      var extra := ScrubRecord(g, e.extra.value, 0);
      report := report.(extra := Some(extra));
    }
    if e.contexts.Some? {
      var contexts := ScrubRecord(g, e.contexts.value, 0);
      report := report.(contexts := Some(contexts));
    }
    if e.request.Some? {
      var headers := FilterHeaderRecord(e.request.value.headers);
      report := report.(request := Some(RequestReport(e.request.value.method_, headers)));
    }
    if e.user.Some? {
      report := report.(userId := Some(e.user.value.id));
    }
    if e.exception.Some? && e.exception.value.values.Some? {
      report := report.(exception := ScrubException(e.exception));
    }
    if e.breadcrumbs.Some? {
      report := report.(breadcrumbs := ScrubBreadcrumbs(g, e.breadcrumbs));
    }
  }

  // ----- what two events may differ in unseen

  ghost predicate SameData(g: Graph, a: Option<seq<Property>>, h: Graph, b: Option<seq<Property>>) {
    (a.None? && b.None?) || (a.Some? && b.Some? && SameProperties(g, a.value, h, b.value, 0))
  }

  /** The lists agree once headers that are not allowlisted are skipped on either side. */
  ghost predicate SameHeaders(a: seq<Header>, b: seq<Header>)
    decreases |a| + |b|
  {
    if a != [] && !Allowed(a[0]) then SameHeaders(a[1..], b)
    else if b != [] && !Allowed(b[0]) then SameHeaders(a, b[1..])
    else if a == [] || b == [] then a == b
    else a[0] == b[0] && SameHeaders(a[1..], b[1..])
  }

  function Listed(headers: Option<seq<Header>>): seq<Header> {
    if headers.None? then [] else headers.value
  }

  /** Requests may differ outside the method and the allowlisted headers; no headers are as good as
      an empty list. */
  ghost predicate SameRequest(a: Option<Request>, b: Option<Request>) {
    (a.None? && b.None?)
    || (a.Some? && b.Some? && a.value.method_ == b.value.method_
        && SameHeaders(Listed(a.value.headers), Listed(b.value.headers)))
  }

  /** Users may differ outside the id. */
  ghost predicate SameUser(a: Option<User>, b: Option<User>) {
    (a.None? && b.None?) || (a.Some? && b.Some? && a.value.id == b.value.id)
  }

  /** Frames may differ in `vars`. */
  ghost predicate SameFrames(a: Option<seq<Frame>>, b: Option<seq<Frame>>) {
    (a.None? && b.None?)
    || (a.Some? && b.Some? && |a.value| == |b.value|
        && forall i | 0 <= i < |a.value| :: a.value[i].rest == b.value[i].rest)
  }

  ghost predicate SameStacktrace(a: Option<Stacktrace>, b: Option<Stacktrace>) {
    (a.None? && b.None?)
    || (a.Some? && b.Some? && a.value.rest == b.value.rest && SameFrames(a.value.frames, b.value.frames))
  }

  ghost predicate SameExceptionValue(a: ExceptionValue, b: ExceptionValue) {
    a.rest == b.rest && SameStacktrace(a.stacktrace, b.stacktrace)
  }

  ghost predicate SameException(a: Option<Exception>, b: Option<Exception>) {
    (a.None? && b.None?)
    || (a.Some? && b.Some? && a.value.rest == b.value.rest
        && ((a.value.values.None? && b.value.values.None?)
            || (a.value.values.Some? && b.value.values.Some? && |a.value.values.value| == |b.value.values.value|
                && forall i | 0 <= i < |a.value.values.value| ::
                     SameExceptionValue(a.value.values.value[i], b.value.values.value[i]))))
  }

  ghost predicate SameBreadcrumbs(g: Graph, a: Option<seq<Breadcrumb>>, h: Graph, b: Option<seq<Breadcrumb>>) {
    (a.None? && b.None?)
    || (a.Some? && b.Some? && |a.value| == |b.value|
        && forall i | 0 <= i < |a.value| ::
             a.value[i].rest == b.value[i].rest && SameData(g, a.value[i].data, h, b.value[i].data))
  }

  ghost predicate SameEvent(g: Graph, a: Event, h: Graph, b: Event) {
    && SameData(g, a.extra, h, b.extra) && SameData(g, a.contexts, h, b.contexts)
    && SameRequest(a.request, b.request) && SameUser(a.user, b.user) && SameException(a.exception, b.exception)
    && SameBreadcrumbs(g, a.breadcrumbs, h, b.breadcrumbs) && a.rest == b.rest
  }

  lemma {:induction false} HeadersReport(a: seq<Header>, b: seq<Header>)
    ensures Kept(a) == Kept(b) <==> SameHeaders(a, b)
    decreases |a| + |b|
  {
    if a != [] && !Allowed(a[0]) {
      HeadersReport(a[1..], b);
    } else if b != [] && !Allowed(b[0]) {
      HeadersReport(a, b[1..]);
    } else if a != [] && b != [] {
      HeadersReport(a[1..], b[1..]);
      assert Kept(a) == [a[0]] + Kept(a[1..]) && Kept(b) == [b[0]] + Kept(b[1..]);
      assert Kept(a)[1..] == Kept(a[1..]) && Kept(b)[1..] == Kept(b[1..]);
    }
  }

  lemma RequestReports(a: Option<Request>, b: Option<Request>)
    ensures ScrubRequest(a) == ScrubRequest(b) <==> SameRequest(a, b)
  {
    if a.Some? && b.Some? {
      HeadersReport(Listed(a.value.headers), Listed(b.value.headers));
    }
  }

  lemma DataReports(g: Graph, a: Option<seq<Property>>, h: Graph, b: Option<seq<Property>>)
    ensures ScrubData(g, a) == ScrubData(h, b) <==> SameData(g, a, h, b)
  {
    if a.Some? && b.Some? {
      ReportsOnlySeenFields(g, a.value, h, b.value, 0);
    }
  }

  lemma ExceptionValueReports(a: ExceptionValue, b: ExceptionValue)
    ensures ScrubExceptionValue(a) == ScrubExceptionValue(b) <==> SameExceptionValue(a, b)
  {
    if a.stacktrace.Some? && b.stacktrace.Some? && a.stacktrace.value.frames.Some? && b.stacktrace.value.frames.Some? {
      var s := ScrubExceptionValue(a).stacktrace.value.frames.value;
      var t := ScrubExceptionValue(b).stacktrace.value.frames.value;
      var c, d := a.stacktrace.value.frames.value, b.stacktrace.value.frames.value;
      if |c| == |d| {
        assert forall i | 0 <= i < |c| :: s[i] == t[i] <==> c[i].rest == d[i].rest;
        assert s == t <==> forall i | 0 <= i < |c| :: s[i] == t[i];
      }
    }
  }

  lemma ExceptionReports(a: Option<Exception>, b: Option<Exception>)
    ensures ScrubException(a) == ScrubException(b) <==> SameException(a, b)
  {
    if a.Some? && b.Some? && a.value.values.Some? && b.value.values.Some? {
      var s, t := ScrubException(a).value.values.value, ScrubException(b).value.values.value;
      var c, d := a.value.values.value, b.value.values.value;
      if |c| == |d| {
        forall i | 0 <= i < |c| ensures s[i] == t[i] <==> SameExceptionValue(c[i], d[i]) {
          ExceptionValueReports(c[i], d[i]);
        }
        assert s == t <==> forall i | 0 <= i < |c| :: s[i] == t[i];
      }
    }
  }

  lemma BreadcrumbsReport(g: Graph, a: Option<seq<Breadcrumb>>, h: Graph, b: Option<seq<Breadcrumb>>)
    ensures ScrubBreadcrumbs(g, a) == ScrubBreadcrumbs(h, b) <==> SameBreadcrumbs(g, a, h, b)
  {
    if a.Some? && b.Some? {
      var s, t := ScrubBreadcrumbs(g, a).value, ScrubBreadcrumbs(h, b).value;
      assert |s| == |a.value| && |t| == |b.value|;
      if |s| == |t| {
        forall i | 0 <= i < |s|
          ensures s[i] == t[i] <==>
                  a.value[i].rest == b.value[i].rest && SameData(g, a.value[i].data, h, b.value[i].data)
        {
          assert s[i] == ScrubBreadcrumb(g, a.value[i]) && t[i] == ScrubBreadcrumb(h, b.value[i]);
          DataReports(g, a.value[i].data, h, b.value[i].data);
        }
        assert s == t <==> forall i | 0 <= i < |s| :: s[i] == t[i];
      }
    }
  }

  /** Two events give one report exactly when they agree on all that may be reported. */
  lemma EventReportsOnlyWhatIsSeen(g: Graph, a: Event, h: Graph, b: Event)
    ensures ScrubEvent(g, a) == ScrubEvent(h, b) <==> SameEvent(g, a, h, b)
  {
    DataReports(g, a.extra, h, b.extra);
    DataReports(g, a.contexts, h, b.contexts);
    RequestReports(a.request, b.request);
    ExceptionReports(a.exception, b.exception);
    BreadcrumbsReport(g, a.breadcrumbs, h, b.breadcrumbs);
  }

  // ----- what a report holds

  /** Method, id and all that is not named come through as they were; headers are there, if only an
      empty list, exactly with a request. */
  lemma ReportHolds(g: Graph, e: Event)
    ensures
      var r := ScrubEvent(g, e);
      && r.rest == e.rest
      && (r.request.Some? <==> e.request.Some?) && (r.userId.Some? <==> e.user.Some?)
      && (e.request.Some? ==> r.request.value.method_ == e.request.value.method_)
      && (e.request.Some? ==> forall h ::
            h in r.request.value.headers <==> h in Listed(e.request.value.headers) && Allowed(h))
      && (e.user.Some? ==> r.userId.value == e.user.value.id)
  {
    if e.request.Some? {
      var headers := Listed(e.request.value.headers);
      forall h ensures h in Kept(headers) <==> h in headers && Allowed(h) {
        KeptHeaders(headers, h);
      }
    }
  }

  /** Every frame of every exception is reported, in its place, without its variables and with the
      rest of it. */
  lemma FramesHaveNoVars(g: Graph, e: Event, i: nat, j: nat)
    requires e.exception.Some? && e.exception.value.values.Some? && i < |e.exception.value.values.value|
    requires
      var v := e.exception.value.values.value[i];
      v.stacktrace.Some? && v.stacktrace.value.frames.Some? && j < |v.stacktrace.value.frames.value|
    ensures
      var r := ScrubEvent(g, e).exception;
      && r.Some? && r.value.rest == e.exception.value.rest
      && r.value.values.Some? && |r.value.values.value| == |e.exception.value.values.value|
      && var (v, w) := (e.exception.value.values.value[i], r.value.values.value[i]);
         && w.rest == v.rest
         && w.stacktrace.Some? && w.stacktrace.value.rest == v.stacktrace.value.rest
         && w.stacktrace.value.frames.Some?
         && |w.stacktrace.value.frames.value| == |v.stacktrace.value.frames.value|
         && w.stacktrace.value.frames.value[j] == Frame(None, v.stacktrace.value.frames.value[j].rest)
  {
  }

  /** What holds no frames is reported as it is. */
  lemma FramelessStays(g: Graph, e: Event)
    ensures e.exception.None? || e.exception.value.values.None? ==> ScrubEvent(g, e).exception == e.exception
    ensures
      e.exception.Some? && e.exception.value.values.Some? ==>
        var values := e.exception.value.values.value;
        var r := ScrubEvent(g, e).exception;
        && r.Some? && r.value.values.Some? && |r.value.values.value| == |values|
        && forall i | 0 <= i < |values| && (values[i].stacktrace.None? || values[i].stacktrace.value.frames.None?) ::
             r.value.values.value[i] == values[i]
  {
  }

  // ----- scrubbing what was scrubbed

  /** `scrubEvent` on an event whose data are trees and whose request holds no more than a report's. */
  function ScrubAgain(r: Report): Report {
    Report(AgainData(r.extra), AgainData(r.contexts), AgainRequest(r.request), r.userId,
           ScrubException(r.exception), AgainBreadcrumbs(r.breadcrumbs), r.rest)
  }

  function AgainData(data: Option<seq<Field>>): Option<seq<Field>> {
    if data.None? then None else Some(ScrubTree(Object(data.value), 0).fields)
  }

  function AgainRequest(r: Option<RequestReport>): Option<RequestReport> {
    if r.None? then None else Some(r.value.(headers := Kept(r.value.headers)))
  }

  function AgainBreadcrumbs(bs: Option<seq<BreadcrumbReport>>): Option<seq<BreadcrumbReport>> {
    if bs.None? then None
    else Some(seq(|bs.value|, i requires 0 <= i < |bs.value| => bs.value[i].(data := AgainData(bs.value[i].data))))
  }

  /** The event with its data unrolled into trees, and nothing hidden yet. */
  function Laid(g: Graph, e: Event, fuel: nat, cut: Tree): Report {
    Report(LaidData(g, e.extra, fuel, cut), LaidData(g, e.contexts, fuel, cut),
           if e.request.None? then None
           else Some(RequestReport(e.request.value.method_, Listed(e.request.value.headers))),
           ScrubUser(e.user), e.exception,
           if e.breadcrumbs.None? then None else Some(LaidBreadcrumbs(g, e.breadcrumbs.value, fuel, cut)), e.rest)
  }

  function LaidData(g: Graph, data: Option<seq<Property>>, fuel: nat, cut: Tree): Option<seq<Field>> {
    if data.None? then None
    else
      var ps := data.value;
      Some(seq(|ps|, i requires 0 <= i < |ps| => Field(ps[i].key, Unrolled(g, ps[i].value, fuel, cut))))
  }

  function LaidBreadcrumbs(g: Graph, bs: seq<Breadcrumb>, fuel: nat, cut: Tree): seq<BreadcrumbReport> {
    seq(|bs|, i requires 0 <= i < |bs| => BreadcrumbReport(LaidData(g, bs[i].data, fuel, cut), bs[i].rest))
  }

  lemma LaidDataScrubs(g: Graph, data: Option<seq<Property>>, fuel: nat, cut: Tree)
    requires fuel >= MAX_SCRUB_DEPTH
    ensures AgainData(LaidData(g, data, fuel, cut)) == ScrubData(g, data)
  {
    if data.Some? {
      var ps := data.value;
      var s, t := AgainData(LaidData(g, data, fuel, cut)).value, ScrubFields(g, ps, 0);
      forall i | 0 <= i < |ps| ensures s[i] == t[i] {
        assert t[i] == ScrubField(g, ps[i], 0);
        ScrubsTheUnrolling(g, ps[i].value, 1, fuel, cut);
      }
      assert s == t;
    }
  }

  /** Scrubbing an event with cyclic data is scrubbing its unrolling. */
  lemma EventScrubsTheUnrolling(g: Graph, e: Event, fuel: nat, cut: Tree)
    requires fuel >= MAX_SCRUB_DEPTH
    ensures ScrubAgain(Laid(g, e, fuel, cut)) == ScrubEvent(g, e)
  {
    LaidDataScrubs(g, e.extra, fuel, cut);
    LaidDataScrubs(g, e.contexts, fuel, cut);
    if e.breadcrumbs.Some? {
      var bs := e.breadcrumbs.value;
      var s, t := AgainBreadcrumbs(Laid(g, e, fuel, cut).breadcrumbs).value, ScrubBreadcrumbs(g, e.breadcrumbs).value;
      forall i | 0 <= i < |bs| ensures s[i] == t[i] {
        LaidDataScrubs(g, bs[i].data, fuel, cut);
      }
      assert s == t;
    }
  }

  lemma DataIsFinal(g: Graph, data: Option<seq<Property>>)
    ensures AgainData(ScrubData(g, data)) == ScrubData(g, data)
  {
    if data.Some? {
      var t := ScrubFields(g, data.value, 0);
      var s := AgainData(Some(t)).value;
      forall i | 0 <= i < |t| ensures s[i] == t[i] {
        assert t[i] == ScrubField(g, data.value[i], 0);
        ReportIsFinal(g, data.value[i].value, 1);
      }
      assert s == t;
    }
  }

  lemma {:induction false} KeepsAllAllowed(headers: seq<Header>)
    requires forall i | 0 <= i < |headers| :: Allowed(headers[i])
    ensures Kept(headers) == headers
  {
    if headers != [] {
      KeepsAllAllowed(headers[1..]);
    }
  }

  lemma KeptIsFinal(headers: seq<Header>)
    ensures Kept(Kept(headers)) == Kept(headers)
  {
    forall i | 0 <= i < |Kept(headers)| ensures Allowed(Kept(headers)[i]) {
      KeptHeaders(headers, Kept(headers)[i]);
    }
    KeepsAllAllowed(Kept(headers));
  }

  lemma ExceptionIsFinal(e: Option<Exception>)
    ensures ScrubException(ScrubException(e)) == ScrubException(e)
  {
    ExceptionReports(ScrubException(e), e);
    if e.Some? && e.value.values.Some? {
      var c, d := e.value.values.value, ScrubException(e).value.values.value;
      forall i | 0 <= i < |c| ensures SameExceptionValue(d[i], c[i]) {
        assert d[i] == ScrubExceptionValue(c[i]);
      }
    }
  }

  /** A report scrubbed again is the same report. */
  lemma EventIsFinal(g: Graph, e: Event)
    ensures ScrubAgain(ScrubEvent(g, e)) == ScrubEvent(g, e)
  {
    DataIsFinal(g, e.extra);
    DataIsFinal(g, e.contexts);
    ExceptionIsFinal(e.exception);
    if e.request.Some? {
      KeptIsFinal(Listed(e.request.value.headers));
    }
    if e.breadcrumbs.Some? {
      var bs, t := e.breadcrumbs.value, ScrubBreadcrumbs(g, e.breadcrumbs);
      var s := AgainBreadcrumbs(t).value;
      forall i | 0 <= i < |bs| ensures s[i] == t.value[i] {
        DataIsFinal(g, bs[i].data);
      }
      assert s == t.value;
    }
  }
}
